/** The MIDI-to-event translator of the controller bridge: the per-frame
    callback with its two fields of dial state, a run of the callback over a
    stream of frames, and the activation gate that holds events back until
    the modifier button is released once. */
module Controller {
  import opened Types

  /** A MIDI frame as the MIDI parsing library classifies it. Program Change
      is not recognised by that library: such a frame arrives as `Invalid`,
      and the callback then reads the raw bytes itself. */
  datatype Frame =
    | NoteOn(channel: Byte, key: Byte)
    | NoteOff(channel: Byte, key: Byte)
    | ControlChange(channel: Byte, control: Byte, value: Byte)
    | PitchBend(channel: Byte, lsb: Byte, msb: Byte)
    | Invalid(data: seq<Byte>)
    | OtherMessage

  /** Status byte of Program Change on channel 1 (0xC0), which the dial sends. */
  const ProgramChange: Byte := 192
  /** Controller number of the Modulation Wheel, which the modifier button sends. */
  const ModulationWheel: Byte := 1

  /** The two fields of the callback's state, as a value. */
  datatype DialState = DialState(lastProgram: Byte, dialAlreadyPushed: bool)

  /** The state the callback starts from. */
  const Initial := DialState(0, false)

  /** What one call of the callback does: either it handles the frame, giving
      the new state and at most one event, or it indexes past the end of the
      raw bytes and panics before changing anything. */
  datatype Outcome =
    | Handled(next: DialState, event: Option<ControllerEvent>)
    | OutOfBounds

  /** True when the raw bytes are a dial frame: status 192 with its data byte. */
  predicate IsDialFrame(f: Frame)
  {
    f.Invalid? && |f.data| >= 2 && f.data[0] == ProgramChange
  }

  /** The direction the dial moved, from its new and its previous position. */
  function Direction(value: Byte, previous: Byte): DialMovement
  {
    if value == 0 || value < previous then Left
    else if value == 127 || value > previous then Right
    else NoChange
  }

  /** The specification of the callback as a function of the old state. The
      raw bytes are read only in the `Invalid` case, where an empty frame or
      a status-192 frame without its data byte indexes out of bounds. */
  function Translate(s: DialState, f: Frame): (r: Outcome)
    ensures r.OutOfBounds? <==>
              f.Invalid? && (|f.data| == 0 || (f.data[0] == ProgramChange && |f.data| < 2))
    ensures r.Handled? && r.event.Some? && r.event.value.DialTurn? ==> IsDialFrame(f)
  {
    match f
    case NoteOn(_, key) => Handled(s, Some(ButtonPress(FromInt(key))))
    case NoteOff(_, key) => Handled(s, Some(ButtonRelease(FromInt(key))))
    case ControlChange(_, control, value) =>
      if control == ModulationWheel then
        Handled(s, if value == 0 then Some(ButtonRelease(ButtonMod))
                   else if value == 127 then Some(ButtonPress(ButtonMod))
                   else None)
      else
        Handled(s, None)
    case Invalid(data) =>
      if |data| == 0 then OutOfBounds
      else if data[0] == ProgramChange then
        if |data| < 2 then OutOfBounds
        else
          var direction := Direction(data[1], s.lastProgram);
          if s.dialAlreadyPushed then Handled(DialState(data[1], true), Some(DialTurn(direction)))
          else Handled(DialState(data[1], true), None)
      else
        Handled(s, None)
    case PitchBend(_, _, _) => Handled(s, None)
    case OtherMessage => Handled(s, None)
  }

  /** The callback's state (the Rust `Stuff`, less its channel sender: the
      event a call sends is returned instead). */
  class Stuff {
    var lastProgram: Byte
    var dialAlreadyPushed: bool

    function State(): DialState
      reads this
    {
      DialState(lastProgram, dialAlreadyPushed)
    }

    constructor ()
      ensures State() == Initial
    {
      lastProgram := 0;
      dialAlreadyPushed := false;
    }

    /** Handles one frame in place. `panicked` reports an out-of-bounds index
        on the raw bytes; nothing is changed or sent then. */
    method MidiMessageCallback(frame: Frame) returns (event: Option<ControllerEvent>, panicked: bool)
      modifies this
      ensures panicked <==> Translate(old(State()), frame).OutOfBounds?
      ensures panicked ==> State() == old(State()) && event == None
      ensures !panicked ==> State() == Translate(old(State()), frame).next
      ensures !panicked ==> event == Translate(old(State()), frame).event
    {
      event, panicked := None, false;
      match frame {
        case NoteOn(_, key) =>
          event := Some(ButtonPress(FromInt(key)));
        case NoteOff(_, key) =>
          event := Some(ButtonRelease(FromInt(key)));
        case ControlChange(_, control, value) =>
          if control == ModulationWheel {
            if value == 0 {
              event := Some(ButtonRelease(ButtonMod));
            } else if value == 127 {
              event := Some(ButtonPress(ButtonMod));
            }
          }
        case Invalid(data) =>
          if |data| == 0 {
            panicked := true;
          } else if data[0] == ProgramChange {
            if |data| < 2 {
              panicked := true;
            } else {
              var direction: DialMovement;
              if data[1] == 0 || data[1] < lastProgram {
                direction := Left;
              } else if data[1] == 127 || data[1] > lastProgram {
                direction := Right;
              } else {
                direction := NoChange;
              }
              lastProgram := data[1];
              if dialAlreadyPushed {
                event := Some(DialTurn(direction));
              } else {
                dialAlreadyPushed := true;
              }
            }
          }
        case PitchBend(_, _, _) =>
        case OtherMessage =>
      }
    }
  }

  // ---------------------------------------------------------------------
  // Properties of a single frame

  /** The three outcomes of the direction rule, each as an if-and-only-if:
      a position of 0 is always Left, even when the previous one was 0, and
      NoChange happens exactly when the position is unchanged and strictly
      between the two ends. */
  lemma DirectionRule(v: Byte, p: Byte)
    ensures Direction(v, p) == Left <==> v == 0 || v < p
    ensures Direction(v, p) == Right <==> v != 0 && v >= p && (v == 127 || v > p)
    ensures Direction(v, p) == NoChange <==> v == p && v != 0 && v != 127
  {
  }

  /** A note frame presses or releases the button of its pitch class, for
      any channel, and leaves the state alone. */
  lemma NoteFrames(s: DialState, channel: Byte, key: Byte)
    ensures Translate(s, NoteOn(channel, key)) == Handled(s, Some(ButtonPress(FromInt(key))))
    ensures Translate(s, NoteOff(channel, key)) == Handled(s, Some(ButtonRelease(FromInt(key))))
    ensures Translate(s, NoteOn(channel, key)) == Translate(s, NoteOn(0, key % 12))
    ensures FromInt(key) != ButtonMod
  {
  }

  /** Control Change: only the Modulation Wheel at its two ends produces an
      event (127 presses, 0 releases the modifier); the state never changes. */
  lemma ControlChangeFrames(s: DialState, channel: Byte, control: Byte, value: Byte)
    ensures Translate(s, ControlChange(channel, control, value)).Handled?
    ensures Translate(s, ControlChange(channel, control, value)).next == s
    ensures Translate(s, ControlChange(channel, control, value)).event ==
              if control == 1 && value == 0 then Some(ButtonRelease(ButtonMod))
              else if control == 1 && value == 127 then Some(ButtonPress(ButtonMod))
              else None
  {
  }

  /** The modifier button comes only from the Modulation Wheel. */
  lemma ModOnlyFromModulationWheel(s: DialState, f: Frame)
    requires Translate(s, f).Handled? && Translate(s, f).event.Some?
    requires Translate(s, f).event.value in {ButtonPress(ButtonMod), ButtonRelease(ButtonMod)}
    ensures f.ControlChange? && f.control == ModulationWheel
  {
  }

  /** A dial frame always records its position, including on the calibration
      frame and when the direction is NoChange. The first one is swallowed
      and sets the calibration flag; every later one emits its direction,
      NoChange included. */
  lemma DialFrames(s: DialState, data: seq<Byte>)
    requires |data| >= 2 && data[0] == ProgramChange
    ensures Translate(s, Invalid(data)).Handled?
    ensures Translate(s, Invalid(data)).next == DialState(data[1], true)
    ensures !s.dialAlreadyPushed ==> Translate(s, Invalid(data)).event == None
    ensures s.dialAlreadyPushed ==>
              Translate(s, Invalid(data)).event == Some(DialTurn(Direction(data[1], s.lastProgram)))
  {
  }

  /** Overwriting the position on a NoChange frame writes back the value that
      was already there, so recording it always and recording it only when a
      direction is found give the same state. */
  lemma NoChangeKeepsPosition(s: DialState, data: seq<Byte>)
    requires |data| >= 2 && data[0] == ProgramChange
    requires s.dialAlreadyPushed
    requires Direction(data[1], s.lastProgram) == NoChange
    ensures Translate(s, Invalid(data)) == Handled(s, Some(DialTurn(NoChange)))
  {
  }

  /** Frames that are neither notes, nor Control Change, nor dial frames emit
      nothing and change nothing (unless their raw bytes are too short). */
  lemma IgnoredFrames(s: DialState, f: Frame)
    requires f.PitchBend? || f.OtherMessage? || (f.Invalid? && |f.data| > 0 && f.data[0] != ProgramChange)
    ensures Translate(s, f) == Handled(s, None)
  {
  }

  /** The state changes only on dial frames, and the calibration flag is
      never cleared. */
  lemma StateChangesOnlyOnDial(s: DialState, f: Frame)
    requires Translate(s, f).Handled?
    ensures !IsDialFrame(f) ==> Translate(s, f).next == s
    ensures s.dialAlreadyPushed ==> Translate(s, f).next.dialAlreadyPushed
  {
  }

  // ---------------------------------------------------------------------
  // A stream of frames

  /** What the callback produces over a stream of frames: the final state,
      the events sent in order, and whether a panic ended the stream. */
  datatype Trace = Trace(final: DialState, events: seq<ControllerEvent>, halted: bool)

  function Emitted(e: Option<ControllerEvent>): seq<ControllerEvent>
  {
    if e.Some? then [e.value] else []
  }

  /** The callback applied to each frame in arrival order; a panic stops the
      stream with the state it had. */
  function Run(s: DialState, frames: seq<Frame>): (t: Trace)
    ensures |t.events| <= |frames|
    decreases |frames|
  {
    if frames == [] then Trace(s, [], false)
    else
      match Translate(s, frames[0])
      case OutOfBounds => Trace(s, [], true)
      case Handled(next, event) =>
        var rest := Run(next, frames[1..]);
        Trace(rest.final, Emitted(event) + rest.events, rest.halted)
  }

  /** The number of dial frames in a stream. */
  function DialFrameCount(frames: seq<Frame>): nat
  {
    if frames == [] then 0
    else (if IsDialFrame(frames[0]) then 1 else 0) + DialFrameCount(frames[1..])
  }

  /** The number of dial turns among some events. */
  function DialTurnCount(events: seq<ControllerEvent>): nat
  {
    if events == [] then 0
    else (if events[0].DialTurn? then 1 else 0) + DialTurnCount(events[1..])
  }

  lemma {:induction false} DialTurnCountAppend(a: seq<ControllerEvent>, b: seq<ControllerEvent>)
    ensures DialTurnCount(a + b) == DialTurnCount(a) + DialTurnCount(b)
  {
    if a != [] {
      assert (a + b)[0] == a[0];
      assert (a + b)[1..] == a[1..] + b;
      DialTurnCountAppend(a[1..], b);
    } else {
      assert a + b == b;
    }
  }

  /** Once calibrated, the state stays calibrated for the rest of the stream. */
  lemma {:induction false} CalibrationIsPermanent(s: DialState, frames: seq<Frame>)
    requires s.dialAlreadyPushed
    ensures Run(s, frames).final.dialAlreadyPushed
    decreases |frames|
  {
    if frames != [] && Translate(s, frames[0]).Handled? {
      CalibrationIsPermanent(Translate(s, frames[0]).next, frames[1..]);
    }
  }

  /** Calibration swallows exactly one dial frame: over a stream that does
      not panic, every dial frame but the first after start-up yields a dial
      turn, and nothing else does. */
  lemma {:induction false} OneDialFrameSwallowed(s: DialState, frames: seq<Frame>)
    requires !Run(s, frames).halted
    ensures DialTurnCount(Run(s, frames).events) ==
              if s.dialAlreadyPushed || DialFrameCount(frames) == 0 then DialFrameCount(frames)
              else DialFrameCount(frames) - 1
    decreases |frames|
  {
    if frames != [] {
      var o := Translate(s, frames[0]);
      var rest := Run(o.next, frames[1..]);
      OneDialFrameSwallowed(o.next, frames[1..]);
      DialTurnCountAppend(Emitted(o.event), rest.events);
      assert DialTurnCount(Emitted(o.event)) == if IsDialFrame(frames[0]) && s.dialAlreadyPushed then 1 else 0;
    }
  }

  /** The dial from start-up at 64, then 64, then 30: the first frame only
      calibrates, the second (unchanged) emits NoChange, the third turns Left. */
  lemma DialScenario()
    ensures Run(Initial, [Invalid([192, 64]), Invalid([192, 64]), Invalid([192, 30])]).events
              == [DialTurn(NoChange), DialTurn(Left)]
  {
  }

  // ---------------------------------------------------------------------
  // The activation gate

  /** The event that arms the gate: releasing the modifier button. */
  predicate IsActivation(e: ControllerEvent)
  {
    e == ButtonRelease(ButtonMod)
  }

  /** The gate as a fold over the events received so far: the events
      printed, and whether the gate is open. Before it opens each event is
      only inspected; the activating release itself is not printed. */
  function Gate(received: seq<ControllerEvent>): (seq<ControllerEvent>, bool)
  {
    if received == [] then ([], false)
    else
      var (printed, canGo) := Gate(received[..|received| - 1]);
      var e := received[|received| - 1];
      if !canGo then (printed, IsActivation(e))
      else (printed + [e], true)
  }

  /** Events received after the first activating release, or none at all if
      there is no such release. */
  function AfterActivation(received: seq<ControllerEvent>): seq<ControllerEvent>
  {
    if received == [] then []
    else if IsActivation(received[0]) then received[1..]
    else AfterActivation(received[1..])
  }

  /** Without an activating release nothing follows one. */
  lemma {:induction false} NoActivationNothingAfter(received: seq<ControllerEvent>)
    requires forall i :: 0 <= i < |received| ==> !IsActivation(received[i])
    ensures AfterActivation(received) == []
  {
    if received != [] {
      assert !IsActivation(received[0]);
      NoActivationNothingAfter(received[1..]);
    }
  }

  /** Appending one event to the stream: before activation only an activating
      release changes anything, and after it the event is appended. */
  lemma {:induction false} AfterActivationSnoc(received: seq<ControllerEvent>, e: ControllerEvent)
    ensures AfterActivation(received + [e]) ==
              if exists i :: 0 <= i < |received| && IsActivation(received[i])
              then AfterActivation(received) + [e]
              else []
  {
    if received == [] {
    } else {
      assert (received + [e])[1..] == received[1..] + [e];
      if !IsActivation(received[0]) {
        AfterActivationSnoc(received[1..], e);
        if exists i :: 0 <= i < |received[1..]| && IsActivation(received[1..][i]) {
          var i :| 0 <= i < |received[1..]| && IsActivation(received[1..][i]);
          assert IsActivation(received[i + 1]);
        }
        if exists i :: 0 <= i < |received| && IsActivation(received[i]) {
          var i :| 0 <= i < |received| && IsActivation(received[i]);
          assert IsActivation(received[1..][i - 1]);
        }
      }
    }
  }

  /** The gate prints nothing before the first release of the modifier button,
      not that release itself, and every event after it in arrival order; it
      is open exactly when such a release has been received. */
  lemma {:induction false} GateForwardsAfterActivation(received: seq<ControllerEvent>)
    ensures Gate(received).0 == AfterActivation(received)
    ensures Gate(received).1 <==> exists i :: 0 <= i < |received| && IsActivation(received[i])
  {
    if received != [] {
      var prefix := received[..|received| - 1];
      var e := received[|received| - 1];
      GateForwardsAfterActivation(prefix);
      AfterActivationSnoc(prefix, e);
      assert received == prefix + [e];
      if exists i :: 0 <= i < |received| && IsActivation(received[i]) {
        var i :| 0 <= i < |received| && IsActivation(received[i]);
        if i < |prefix| {
          assert IsActivation(prefix[i]);
        }
      }
      if exists i :: 0 <= i < |prefix| && IsActivation(prefix[i]) {
        var i :| 0 <= i < |prefix| && IsActivation(prefix[i]);
        assert IsActivation(received[i]);
      } else {
        NoActivationNothingAfter(prefix);
      }
    }
  }

  /** With no activating release in the stream, nothing is printed. */
  lemma NothingBeforeActivation(received: seq<ControllerEvent>)
    requires forall i :: 0 <= i < |received| ==> !IsActivation(received[i])
    ensures Gate(received).0 == []
  {
  }

  /** When the first activating release is at index `k`, exactly the events
      after it are printed. */
  lemma {:induction false} PrintedAfterFirstActivation(received: seq<ControllerEvent>, k: nat)
    requires k < |received| && IsActivation(received[k])
    requires forall i :: 0 <= i < k ==> !IsActivation(received[i])
    ensures Gate(received).0 == received[k + 1..]
  {
    GateForwardsAfterActivation(received);
    AfterActivationAt(received, k);
  }

  lemma {:induction false} AfterActivationAt(received: seq<ControllerEvent>, k: nat)
    requires k < |received| && IsActivation(received[k])
    requires forall i :: 0 <= i < k ==> !IsActivation(received[i])
    ensures AfterActivation(received) == received[k + 1..]
  {
    if k > 0 {
      assert !IsActivation(received[0]);
      AfterActivationAt(received[1..], k - 1);
      assert received[1..][k..] == received[k + 1..];
    }
  }

  /** The receiving loop of the program: it waits for the modifier release,
      then prints every event it receives. */
  method ActivationLoop(received: seq<ControllerEvent>) returns (printed: seq<ControllerEvent>)
    ensures printed == AfterActivation(received)
  {
    var canGo := false;
    printed := [];
    var n := 0;
    while n < |received|
      invariant n <= |received|
      invariant (printed, canGo) == Gate(received[..n])
    {
      var msg := received[n];
      assert received[..n + 1][..n] == received[..n];
      n := n + 1;
      if !canGo {
        if msg.ButtonRelease? && msg.button == ButtonMod {
          canGo := true;
        }
        continue;
      }
      printed := printed + [msg];
    }
    assert received[..n] == received;
    GateForwardsAfterActivation(received);
  }
}
