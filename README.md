# frc-midi: MIDI keyboard to controller events, in Dafny

This project models the core of a bridge that turns a small MIDI keyboard
(twelve keys per octave, a modulation-wheel button and a rotary dial) into
controller events. It also models the one-byte wire decoder of the test
server that receives those events.

- `types.dfy`, module `Types` (from `src/types.rs`, whose `Button` enum and
  `from_int` also appear in `src/main.rs`): the 13 buttons, the dial
  movements `Left`, `Right` and `NoChange`, and the three events. It also
  holds the key-code mapping `ToKey`/`FromInt` and the `Display` texts.
- `controller.dfy`, module `Controller` (from `src/main.rs`). The MIDI
  callback is the class `Stuff`, with fields `lastProgram` and
  `dialAlreadyPushed`. Its method `MidiMessageCallback` updates them in
  place and is proved against the pure function `Translate`. `Run` applies
  the callback to a stream of frames. The activation gate of `main` is the
  fold `Gate` and the loop `ActivationLoop`.
- `test_server.dfy`, module `TestServer` (from `test_server/app.py`): the
  per-byte decode (tag = top two bits, payload = low six bits) and the read
  loop that stops at the first out-of-range button index.

The model follows the code in these points, where a reader might expect
otherwise:
- `DialMovement` has a third value, `NoChange`. A calibrated dial frame whose
  direction is `NoChange` is emitted as `DialTurn(NoChange)`, not dropped.
- `last_program` is overwritten on every status-192 frame, including the
  calibration frame. On a `NoChange` frame this writes back the value that
  was already there (`NoChangeKeepsPosition`), so recording the position
  only when a direction is found would give the same state.
- There is no one-byte encoder in the code. Only the Python decoder exists,
  and it masks six payload bits, not five.
- A dial frame missing its data byte is not assumed away. The Rust code
  indexes `data[0]` and `data[1]` and would panic, so this is modelled as the
  outcome `OutOfBounds`, which changes no state.

## Model

| member | source | states |
|---|---|---|
| `Types.ToKey` | src/types.rs:20-36 | the code of a button is below 13, and it is 12 exactly for the modifier |
| `Types.ToKeyInjective` | src/types.rs:20-36 | two buttons have the same code iff they are the same button |
| `Types.ToKeySurjective` | src/types.rs:20-36 | every code 0..12 belongs to some button |
| `Types.FromInt` | src/types.rs:48-69 | never returns the modifier; the returned button's code is the key modulo 12, so the `unreachable!()` arm is dead |
| `Types.FromIntPitchClass` | src/main.rs:41-60 | two keys give the same button iff they are equal modulo 12 (the octave is discarded) |
| `Types.FromIntToKey` | src/types.rs:20-69 | code then button is the identity on the 12 pitch classes, while the modifier's code 12 folds to C |
| `Types.ToKeyFromInt` | src/types.rs:48-69 | button then code is reduction modulo 12, and `FromInt(k) == FromInt(k % 12)` |
| `Types.ButtonText` | src/types.rs:39-45 | the name is an entry of the 13-name table (the index is in bounds), and it is "MOD" exactly for the modifier |
| `Types.ButtonTextInjective` | src/types.rs:39-45 | distinct buttons have distinct names |
| `Types.DialText` | src/types.rs:79-88 | the text is one of "Left", "Right", "No Change", and it is "No Change" exactly for `NoChange` |
| `Types.EventText` | src/types.rs:97-105 | the text ends in ')', starts with 'D' exactly for a dial turn, and holds the button's or movement's own `Display` text between the parentheses; `DialTurn(NoChange)` shows as "DialTurn(No Change)" |
| `Types.EventTextInjective` | src/types.rs:97-105 | two events render to the same text iff they are equal |
| `Controller.Translate` | src/main.rs:88-138 | the callback panics iff an `Invalid` frame is empty or is a status-192 frame without a data byte; only a dial frame can give a `DialTurn` |
| `Controller.Stuff.constructor` | src/main.rs:157-161 | the callback state starts at `last_program = 0` and uncalibrated |
| `Controller.Stuff.MidiMessageCallback` | src/main.rs:88-145 | the in-place update of both fields and the event sent are those of `Translate` on the old state; nothing changes on a panic |
| `Controller.DirectionRule` | src/main.rs:113-120 | Left iff `v == 0` or `v < p` (so 0 wins even when `p == 0`); Right iff not Left and (`v == 127` or `v > p`); NoChange iff `v == p` and `v` is neither 0 nor 127 |
| `Controller.NoteFrames` | src/main.rs:92-94 | Note On/Off press/release `FromInt(key)` on any channel; the state is unchanged, the result depends only on `key % 12`, and it is never the modifier |
| `Controller.ControlChangeFrames` | src/main.rs:95-108 | controller 1 at 0 releases and at 127 presses the modifier; any other value or controller emits nothing; the state is unchanged |
| `Controller.ModOnlyFromModulationWheel` | src/main.rs:92-108 | a modifier press or release comes only from a Control Change on controller 1 |
| `Controller.DialFrames` | src/main.rs:109-127 | every status-192 frame records `data[1]` and sets the flag; uncalibrated it emits nothing; calibrated it emits `DialTurn` of the direction, `NoChange` included |
| `Controller.NoChangeKeepsPosition` | src/main.rs:114-123 | a calibrated NoChange frame emits `DialTurn(NoChange)` and leaves the state exactly as it was |
| `Controller.IgnoredFrames` | src/main.rs:128-137 | Pitch Bend, other messages and `Invalid` frames with another status byte emit nothing and change nothing |
| `Controller.StateChangesOnlyOnDial` | src/main.rs:88-138 | only dial frames change the state, and no frame clears the calibration flag |
| `Controller.Run` | src/main.rs:88-145 | over a stream of frames, at most one event per frame |
| `Controller.CalibrationIsPermanent` | src/main.rs:121-127 | once calibrated, the state stays calibrated for any later stream of frames |
| `Controller.OneDialFrameSwallowed` | src/main.rs:109-127 | over a stream without panic, the dial turns emitted are the dial frames less one from an uncalibrated start, and all of them from a calibrated one |
| `Controller.DialScenario` | src/main.rs:109-127 | positions 64, 64, 30 from start-up emit `DialTurn(NoChange)` then `DialTurn(Left)` |
| `Controller.GateForwardsAfterActivation` | src/main.rs:168-182 | the gate prints exactly the events after the first `ButtonRelease(ButtonMod)`, and it is open iff such a release was received |
| `Controller.NothingBeforeActivation` | src/main.rs:171-180 | without a modifier release nothing is printed |
| `Controller.PrintedAfterFirstActivation` | src/main.rs:168-182 | with the first activating release at index k, the printed events are `received[k+1..]`: the release itself is not printed, and everything after it is printed in order |
| `Controller.ActivationLoop` | src/main.rs:168-183 | the receive loop with its `can_go` flag prints the events after the first modifier release |
| `TestServer.Tag` | test_server/app.py:14 | the tag is below 4 |
| `TestServer.Payload` | test_server/app.py:15 | the payload is below 64 |
| `TestServer.TagPayloadSplit` | test_server/app.py:14-15 | tag and payload recompose the whole byte; the mask keeps bit 5 |
| `TestServer.Decode` | test_server/app.py:13-26 | decoding fails iff the tag is press or release and the payload exceeds 12, with that payload as the failing index |
| `TestServer.DecodeByTag` | test_server/app.py:16-26 | tag 0 is "Unknown Message" with the raw byte, tag 1 a press (or its index error), tag 2 a dial movement, tag 3 a release (or its index error), each as an iff |
| `TestServer.DialUsesBitZeroOnly` | test_server/app.py:18-22 | a dial byte is Left iff bit 0 is set; two dial bytes decode alike iff they agree on bit 0 |
| `TestServer.NamesMatchDisplay` | test_server/app.py:3-5 | the server's name list equals the `Display` table, and a press or release byte whose payload is a button's code shows that button's name |
| `TestServer.DecodeLosslessOffDial` | test_server/app.py:13-26 | outside the dial tag, two bytes that decode to the same message are the same byte |
| `TestServer.ServeConnection` | test_server/app.py:12-33 | the bytes are shown in order, each as its decoding, until the first index error, which ends the connection and is reported |

## Left out

- `find_port` and the `midir` input setup and `connect` (src/main.rs:9-21, 147-167): device discovery and I/O of a foreign library.
- `MidiMessage::from` (src/main.rs:90) belongs to the `midi_control` crate, which is not part of this model. The callback takes a frame already classified by that crate; an `Invalid` frame carries its raw bytes.
- The `mpsc` channel, `send(...).expect` and `recv()`: the event a call sends is its return value, and the receiving loop reads a sequence.
- A Rust panic is modelled as the outcome `OutOfBounds`, and `Run` stops the stream there. What the host library does with a panicking callback thread is not modelled.
- The `timestamp` argument is never read, and the `octave` value in `src/main.rs` is computed and never used. Both are left out.
- All `eprintln!`/`println!`/`print` output is left out, including the exact text the server prints for each message (the model returns the message it would print). Also left out: the asyncio server, `writer.write(b"GO!")`, `reader.read`, `asyncio.sleep` and `serve_forever`.
- The byte read from the socket is modelled as `bv8`, so `>>`, `&` and bit 0 are bit-vector operations.
