/** The receiving end of the wire: a test server that reads one byte per
    event and shows what it means. The top two bits of a byte are its tag,
    the low six its payload. */
module TestServer {
  import opened Types

  /** The button names the server shows, indexed by payload. */
  const Buttons: seq<string> :=
    ["C", "C#", "D", "D#", "E", "F", "F#", "G", "G#", "A", "A#", "B", "MOD"]

  /** What the server shows for one byte. */
  datatype Message =
    | ButtonPressMsg(name: string)
    | DialMovementMsg(left: bool)
    | ButtonReleaseMsg(name: string)
    | UnknownMessage(raw: bv8)

  /** A decoded byte, or the list index that was out of range (the server's
      `IndexError`, which ends the connection). */
  datatype Decoded = Ok(msg: Message) | IndexError(index: nat)

  /** The tag: the byte shifted right by six. */
  function Tag(b: bv8): (t: bv8)
    ensures t < 4
  {
    b >> 6
  }

  /** The payload: the byte masked with 0b00111111, six bits. */
  function Payload(b: bv8): (p: bv8)
    ensures p < 64
  {
    b & 0x3F
  }

  /** Tag and payload together are the whole byte: no bit is dropped (the
      mask keeps six bits, not five) and none is counted twice. */
  lemma TagPayloadSplit(b: bv8)
    ensures b == (Tag(b) << 6) | Payload(b)
    ensures Payload(b) & 0x20 == b & 0x20
  {
  }

  /** The name of a button payload, or nothing for a payload past the end
      of the thirteen-entry list. */
  function ButtonName(p: bv8): (r: Option<string>)
  {
    if (p as int) < |Buttons| then Some(Buttons[p as int]) else None
  }

  /** One byte, dispatched on its tag. */
  function Decode(b: bv8): (r: Decoded)
    ensures r.IndexError? <==> (Tag(b) == 1 || Tag(b) == 3) && Payload(b) > 12
    ensures r.IndexError? ==> r.index == Payload(b) as int
  {
    var tag := Tag(b);
    var msg := Payload(b);
    if tag == 1 then
      match ButtonName(msg)
      case Some(name) => Ok(ButtonPressMsg(name))
      case None => IndexError(msg as int)
    else if tag == 2 then
      Ok(DialMovementMsg(msg & 1 != 0))
    else if tag == 3 then
      match ButtonName(msg)
      case Some(name) => Ok(ButtonReleaseMsg(name))
      case None => IndexError(msg as int)
    else
      Ok(UnknownMessage(b))
  }

  /** What each tag decodes to. */
  lemma DecodeByTag(b: bv8)
    ensures Tag(b) == 0 <==> Decode(b) == Ok(UnknownMessage(b))
    ensures Tag(b) == 1 <==> (Decode(b).Ok? && Decode(b).msg.ButtonPressMsg?) || (Decode(b).IndexError? && b & 0x80 == 0)
    ensures Tag(b) == 2 <==> Decode(b).Ok? && Decode(b).msg.DialMovementMsg?
    ensures Tag(b) == 3 <==> (Decode(b).Ok? && Decode(b).msg.ButtonReleaseMsg?) || (Decode(b).IndexError? && b & 0x80 != 0)
  {
  }

  /** A dial byte means Left exactly when bit 0 is set; bits 1 to 5 are
      ignored, so two dial bytes that agree on bit 0 mean the same. */
  lemma DialUsesBitZeroOnly(b1: bv8, b2: bv8)
    requires Tag(b1) == 2 && Tag(b2) == 2
    ensures Decode(b1) == Ok(DialMovementMsg(b1 & 1 == 1))
    ensures Decode(b1) == Decode(b2) <==> b1 & 1 == b2 & 1
  {
  }

  /** The server's list of names is the table the controller's `Display`
      uses: a press or release byte whose payload is a button's key code
      shows that button's name. */
  lemma NamesMatchDisplay(btn: Button)
    ensures Buttons == NoteNames
    ensures Decode(0x40 | ToKey(btn) as bv8) == Ok(ButtonPressMsg(ButtonText(btn)))
    ensures Decode(0xC0 | ToKey(btn) as bv8) == Ok(ButtonReleaseMsg(ButtonText(btn)))
  {
  }

  /** Outside the dial tag nothing is lost: two bytes that decode to the same
      message are the same byte. */
  lemma DecodeLosslessOffDial(b1: bv8, b2: bv8)
    requires Tag(b1) != 2 && Tag(b2) != 2
    requires Decode(b1).Ok? && Decode(b1) == Decode(b2)
    ensures b1 == b2
  {
  }

  /** The server's read loop over the bytes a connection delivers: each byte
      is shown in order until one raises an index error, which ends the
      connection and is reported. */
  method ServeConnection(received: seq<bv8>) returns (shown: seq<Message>, failure: Option<nat>)
    ensures |shown| <= |received|
    ensures forall i :: 0 <= i < |shown| ==> Decode(received[i]) == Ok(shown[i])
    ensures failure.None? <==> |shown| == |received|
    ensures failure.Some? ==> Decode(received[|shown|]) == IndexError(failure.value)
  {
    shown, failure := [], None;
    var n := 0;
    while n < |received|
      invariant n <= |received| && |shown| == n
      invariant forall i :: 0 <= i < n ==> Decode(received[i]) == Ok(shown[i])
    {
      var r := Decode(received[n]);
      if r.IndexError? {
        failure := Some(r.index);
        return;
      }
      shown := shown + [r.msg];
      n := n + 1;
    }
  }
}
