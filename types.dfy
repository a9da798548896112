/** The event model of the MIDI controller bridge: the thirteen buttons of the
    keyboard, the three dial movements, the events the translator emits, the
    key/code mapping between buttons and small integers, and the `Display`
    renderings of all three. */
module Types {

  /** An unsigned 8-bit value, the Rust `u8`. */
  type Byte = x: int | 0 <= x < 256

  datatype Option<T> = None | Some(value: T)

  /** The twelve pitch classes in chromatic order, then the modifier button. */
  datatype Button =
    | ButtonC | ButtonCS | ButtonD | ButtonDS | ButtonE | ButtonF
    | ButtonFS | ButtonG | ButtonGS | ButtonA | ButtonAS | ButtonB
    | ButtonMod

  datatype DialMovement = Left | Right | NoChange

  datatype ControllerEvent =
    | ButtonPress(button: Button)
    | ButtonRelease(button: Button)
    | DialTurn(movement: DialMovement)

  /** The key code of a button: pitch classes 0..11, the modifier 12. */
  function ToKey(b: Button): (k: Byte)
    ensures k < 13
    ensures k == 12 <==> b == ButtonMod
  {
    match b
    case ButtonC => 0
    case ButtonCS => 1
    case ButtonD => 2
    case ButtonDS => 3
    case ButtonE => 4
    case ButtonF => 5
    case ButtonFS => 6
    case ButtonG => 7
    case ButtonGS => 8
    case ButtonA => 9
    case ButtonAS => 10
    case ButtonB => 11
    case ButtonMod => 12
  }

  /** The button of a MIDI key number: the octave is dropped and only the
      pitch class is kept, so the modifier is never produced. */
  function FromInt(key: Byte): (b: Button)
    ensures b != ButtonMod
    ensures ToKey(b) == key % 12
  {
    var nk := key % 12;
    match nk
    case 0 => ButtonC
    case 1 => ButtonCS
    case 2 => ButtonD
    case 3 => ButtonDS
    case 4 => ButtonE
    case 5 => ButtonF
    case 6 => ButtonFS
    case 7 => ButtonG
    case 8 => ButtonGS
    case 9 => ButtonA
    case 10 => ButtonAS
    case 11 => ButtonB
    case _ => assert false; ButtonC
  }

  /** No two buttons share a key code. */
  lemma ToKeyInjective(b1: Button, b2: Button)
    ensures ToKey(b1) == ToKey(b2) <==> b1 == b2
  {
  }

  /** Every code in 0..12 is the code of exactly one button. */
  lemma ToKeySurjective(k: Byte)
    requires k < 13
    ensures exists b :: ToKey(b) == k
  {
    var b := if k == 12 then ButtonMod else FromInt(k);
    assert ToKey(b) == k;
  }

  /** Two key numbers in the same pitch class give the same button. */
  lemma FromIntPitchClass(k1: Byte, k2: Byte)
    ensures FromInt(k1) == FromInt(k2) <==> k1 % 12 == k2 % 12
  {
  }

  /** Key code then button is the identity on the twelve pitch classes; the
      modifier's code 12 folds back to C. */
  lemma FromIntToKey(b: Button)
    ensures b != ButtonMod ==> FromInt(ToKey(b)) == b
    ensures FromInt(ToKey(ButtonMod)) == ButtonC
  {
  }

  /** Button then key code is reduction modulo 12. */
  lemma ToKeyFromInt(k: Byte)
    ensures ToKey(FromInt(k)) == k % 12
    ensures FromInt(k) == FromInt(k % 12)
  {
  }

  /** The names shown for buttons, indexed by key code. */
  const NoteNames: seq<string> :=
    ["C", "C#", "D", "D#", "E", "F", "F#", "G", "G#", "A", "A#", "B", "MOD"]

  /** `Display` for a button: its name looked up by key code. */
  function ButtonText(b: Button): (s: string)
    ensures s in NoteNames
    ensures s == "MOD" <==> b == ButtonMod
  {
    NoteNames[ToKey(b)]
  }

  /** Distinct buttons are shown under distinct names. */
  lemma ButtonTextInjective(b1: Button, b2: Button)
    ensures ButtonText(b1) == ButtonText(b2) <==> b1 == b2
  {
  }

  /** `Display` for a dial movement. */
  function DialText(d: DialMovement): (s: string)
    ensures s == "No Change" <==> d == NoChange
    ensures s in ["Left", "Right", "No Change"]
  {
    match d
    case Left => "Left"
    case Right => "Right"
    case NoChange => "No Change"
  }

  /** `Display` for an event: the variant's name with the button or dial
      movement in parentheses. */
  function EventText(e: ControllerEvent): (s: string)
    ensures |s| > 0 && s[|s| - 1] == ')'
    ensures e.DialTurn? <==> s[0] == 'D'
    ensures e.ButtonPress? ==> |s| > 13 && s[12..|s| - 1] == ButtonText(e.button)
    ensures e.ButtonRelease? ==> |s| > 15 && s[14..|s| - 1] == ButtonText(e.button)
    ensures e.DialTurn? ==> |s| > 10 && s[9..|s| - 1] == DialText(e.movement)
    ensures e == DialTurn(NoChange) ==> s == "DialTurn(No Change)"
  {
    match e
    case ButtonPress(b) => "ButtonPress(" + ButtonText(b) + ")"
    case ButtonRelease(b) => "ButtonRelease(" + ButtonText(b) + ")"
    case DialTurn(d) => "DialTurn(" + DialText(d) + ")"
  }

  /** Removing a common prefix and suffix of known lengths recovers the middle. */
  lemma Unwrap(p: string, m1: string, m2: string, q: string)
    requires p + m1 + q == p + m2 + q
    ensures m1 == m2
  {
    assert m1 == (p + m1 + q)[|p|..|p| + |m1|];
    assert |m1| == |m2|;
    assert m2 == (p + m2 + q)[|p|..|p| + |m2|];
  }

  /** Distinct events are shown as distinct text, so the `Display` text
      identifies the event. */
  lemma EventTextInjective(e1: ControllerEvent, e2: ControllerEvent)
    ensures EventText(e1) == EventText(e2) <==> e1 == e2
  {
    var s1, s2 := EventText(e1), EventText(e2);
    // The first and seventh characters tell the three variants apart.
    assert s1[0] == 'D' <==> e1.DialTurn?;
    assert s2[0] == 'D' <==> e2.DialTurn?;
    assert !e1.DialTurn? ==> (s1[6] == 'P' <==> e1.ButtonPress?);
    assert !e2.DialTurn? ==> (s2[6] == 'P' <==> e2.ButtonPress?);
    if s1 == s2 {
      match (e1, e2)
      case (ButtonPress(b1), ButtonPress(b2)) =>
        Unwrap("ButtonPress(", ButtonText(b1), ButtonText(b2), ")");
        ButtonTextInjective(b1, b2);
      case (ButtonRelease(b1), ButtonRelease(b2)) =>
        Unwrap("ButtonRelease(", ButtonText(b1), ButtonText(b2), ")");
        ButtonTextInjective(b1, b2);
      case (DialTurn(d1), DialTurn(d2)) =>
        Unwrap("DialTurn(", DialText(d1), DialText(d2), ")");
      case _ =>
    }
  }
}
