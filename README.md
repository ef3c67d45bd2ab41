# TD5580A / DFPlayerMini serial engine

This is a Dafny model of the firmware library of the WhiteNoiseMachine. That library drives a
TD5580A (DFPlayer-style) MP3 module over a UART. The model covers two layers.

- **The `TD5580A` controller.**
  - Every named operation (`play`, `setVol`, `loopFolder`, `playL`, the `q*` queries, …)
    becomes one 8-byte command frame `7E FF 06 CMD 00 D1 D2 EF`, with no checksum.
    `sendCommand` writes the frame byte by byte.
  - `sanswer` drains the module's answer into the 15-byte buffer `ansbuf`:
    - a start byte `7E` resets the write index;
    - every byte is stored at the index, which then advances;
    - an event byte `3A..3F` is also latched into slot 3.
  - `MP3Answer` decodes slot 3 (the type) and slot 6 (the data) into a number, then clears slot 3.
  - `sbyte2hex` renders bytes as `0Xhh `.
- **The `DFPlayerMini` facade.**
  - It latches an online flag in `begin`.
  - It forwards `set_volume` (clamped to 0..30), `loop_track` (positive tracks only),
    `stop_playing` and `is_playing` to the DFRobot driver, and only while it is online.

Files:

- `codes.dfy` (module `Codes`): the header's command, event and response codes, and the
  envelope bytes.
- `protocol.dfy` (module `Protocol`): the pure side of the controller. It holds the request each
  operation sends, frame encoding and parsing, the decode table, and the receive buffer as a
  function of the bytes received (`CurrentRun`, `Received`). It also holds the hex rendering.
- `controller.dfy` (module `Controller`): the `TD5580A` class.
  - Its fields are the serial stream, the debug flag and the `ansbuf` array.
  - `SendCommand` and `SAnswer` are loops over the stream.
  - The stream is a class holding the written bytes and the bytes waiting to be read.
- `facade.dfy` (module `Facade`): the `DFPlayerMini` class.
  - The DFRobot driver is an object that logs the calls it receives. Oracle fields supply the
    results of `begin` and `readState`.
  - The hardware serial port logs the configurations it is opened with.

Where the code and its documentation disagree, the model follows the code:

- `TD5580A` clamps no argument. The only clamp is in `DFPlayerMini::set_volume`.
- There is no checksum, no read timeout and no end-byte check.
- The event latch applies to every byte, including data and checksum bytes.
- The comment table above `MP3Answer` (TD5580A.cpp:405-422) lists other meanings for the
  return values than the `switch` produces. For example, it gives 0x0005 as "Vol playing" and
  0x0007 as "playing". The model follows the `switch` at TD5580A.cpp:443-533.

## Model

| member | source | states |
|---|---|---|
| Codes.HeaderFacts | lib/TD5580A/TD5580A.h:21-82 | volume 0x06 and equalisation 0x07 are distinct codes; the total-tracks query is the same code 0x48 as the TF/SD file-count answer, which the decoder reads as data; the event codes are exactly the six values 0x3A..0x3F; no envelope byte is an event code |
| Protocol.CommandFrame | lib/TD5580A/TD5580A.cpp:364-371 | the frame is always 8 bytes: `7E FF 06 CMD 00 D1 D2 EF`, with no checksum. `ParseEncode` and `EncodeParse` prove `ParseCommandFrame` is its inverse |
| Protocol.ParseEncode | lib/TD5580A/TD5580A.cpp:364-371 | the module reads back from the frame `7E FF 06 CMD 00 D1 D2 EF` exactly the request (command, data1, data2) it was built from |
| Protocol.EncodeParse | lib/TD5580A/TD5580A.cpp:364-371 | every 8-byte frame with the exact envelope (no checksum) is the frame of the request read from it |
| Protocol.CommandFrameInjective | lib/TD5580A/TD5580A.cpp:364-371 | two requests share a frame if and only if they are equal |
| Protocol.RequestOf | lib/TD5580A/TD5580A.cpp:42-334 | the request each wrapper sends: queries carry no data; only `playF` and `loopFolder` use data byte 1; no wrapper sends the equalisation code 0x07 |
| Protocol.Canonical | lib/TD5580A/TD5580A.cpp:99-328 | the operation that reaches the module differs from the one issued exactly for `setEq` (which arrives as `setVol`) and `sleep` (which arrives as `setSleep`); both send the same request |
| Protocol.ReadRequestOf | lib/TD5580A/TD5580A.cpp:42-334 | reading each wrapper's request back through the header's code table recovers the operation, up to Canonical |
| Protocol.SameFrameIff | lib/TD5580A/TD5580A.cpp:42-334 | two wrappers put the same frame on the wire if and only if they are the same operation up to Canonical |
| Protocol.SetEqSendsVolumeFrame | lib/TD5580A/TD5580A.cpp:99-102 | `setEq(e)` writes exactly the frame of `setVol(e)`, with command byte 0x06 |
| Protocol.IntendedRequestOf | lib/TD5580A/TD5580A.h:26-27 | with the header's code, `setEq(e)` sends (0x07, 0, e); every other operation sends what it sends now |
| Protocol.ReadRequestSound | lib/TD5580A/TD5580A.h:21-77 | any request the module can read as an operation is exactly that operation's intended request |
| Protocol.IntendedSameFrameIff | lib/TD5580A/TD5580A.h:21-77 | with the intended code, two operations share a frame if and only if they are equal or both are the sleep command |
| Protocol.DecodeAnswer | lib/TD5580A/TD5580A.cpp:443-533 | events 0x3A..0x3F give 1..6; 0x40 gives 7; 0x41 gives 8; status 0x42 with data 0/1/2 gives 0x0A/0x0B/0x0C; volume and the counts give the data byte. The result is 0 exactly when the type is unknown, the status data is over 2, or a data answer carries 0. It is always at most 255 |
| Protocol.AnswerOf | lib/TD5580A/TD5580A.cpp:443-533 | the decoder reads only slot 3 (type) and slot 6 (data). The result is at most 255, is 0 for an unknown type, and is the data byte for the volume and count answers |
| Protocol.ClearedBufferDecodesZero | lib/TD5580A/TD5580A.cpp:535-537 | once slot 3 is cleared, the buffer decodes to 0 whatever slot 6 holds |
| Protocol.EmptyAnswerBuffer | lib/TD5580A/TD5580A.h:148 | the receive buffer starts as 15 zero bytes |
| Protocol.CurrentRun | lib/TD5580A/TD5580A.cpp:581-603 | the bytes since the last 7E (or all of them when none arrived); its length is the write index `iansidx` after those bytes. It is never longer than the input, and non-empty once a byte has arrived |
| Protocol.CurrentRunIsSuffix | lib/TD5580A/TD5580A.cpp:590-603 | the bytes the write index counts are the suffix starting at the last start byte, or everything when none arrived |
| Protocol.FitsPrefix | lib/TD5580A/TD5580A.cpp:597-603 | if a byte stream keeps every write inside the 15 slots, so does each of its prefixes |
| Protocol.FitsIff | lib/TD5580A/TD5580A.cpp:597-603 | the bound the unguarded index needs holds exactly when no point of the stream is more than 15 bytes past the last start byte |
| Protocol.Store | lib/TD5580A/TD5580A.cpp:601-617 | one byte stored at the index: that slot holds the byte, an event byte also lands in slot 3, and otherwise slot 3 keeps its value unless it is the index |
| Protocol.StoreKeepsOthers | lib/TD5580A/TD5580A.cpp:601-617 | a store changes no slot other than the index and slot 3 |
| Protocol.Received | lib/TD5580A/TD5580A.cpp:583-630 | the effect of the drain loop on `ansbuf`: each byte in turn stored at the length of its run minus one. The result is always 15 bytes; `SAnswer` is proved to leave exactly this buffer |
| Protocol.ReceivedKeepsTail | lib/TD5580A/TD5580A.cpp:583-630 | draining s bytes never touches a slot at or beyond the number of bytes drained, except slot 3 |
| Protocol.ReceiveOneByte | lib/TD5580A/TD5580A.cpp:590-617 | one more byte: a start byte resets the index to 0, any other byte goes after the run; the byte is stored there (an event byte also in slot 3); the rendered answer restarts or grows by that byte's five characters |
| Protocol.ReceiveStep | lib/TD5580A/TD5580A.cpp:581-617 | the same step stated for the k-th byte of the input, including that the index stays below 15 |
| Protocol.RunAfterStart | lib/TD5580A/TD5580A.cpp:590-593 | once a start byte arrives, the earlier bytes no longer affect the index |
| Protocol.RunOfFrame | lib/TD5580A/TD5580A.cpp:590-603 | a frame (one start byte, then no other) is stored from slot 0 in full |
| Protocol.FrameFits | lib/TD5580A/TD5580A.cpp:597-603 | a frame of at most 15 bytes stays inside the buffer |
| Protocol.FitsAfterStart | lib/TD5580A/TD5580A.cpp:590-603 | bytes that fit, followed by a fitting run that opens with a start byte, still fit |
| Protocol.ReceivedAfterStart | lib/TD5580A/TD5580A.cpp:590-593 | a start byte restarts assembly: draining s then t (t opens with 7E) leaves what draining t leaves in the buffer s left |
| Protocol.FrameAssembly | lib/TD5580A/TD5580A.cpp:597-617 | draining one frame overwrites exactly its first length slots, keeps every later slot, and leaves in slot 3 the last event byte, or the frame's fourth byte if that came later |
| Protocol.SlotThreeIgnoresBefore | lib/TD5580A/TD5580A.cpp:597-617 | a frame of four or more bytes decides slot 3 by itself |
| Protocol.SlotThreeAt | lib/TD5580A/TD5580A.cpp:615-617 | slot 3 holds the fourth byte, or the latest event byte, when no event byte follows it |
| Protocol.LastFrameDecides | lib/TD5580A/TD5580A.cpp:581-617 | after any earlier bytes, a last frame of 7..15 bytes alone fills the first slots and decides the decode |
| Protocol.ReplySlotThree | lib/TD5580A/TD5580A.cpp:428-429 | a reply with no inner 7E is a frame. Slot 3 ends up with its type byte, or with its data byte when that is an event code |
| Protocol.ReplyRoundTrip | lib/TD5580A/TD5580A.cpp:428-429 | a reply `7E FF 06 RSP 00 00 DAT CK1 CK2 EF` with no 7E inside and no event byte in data or checksum decodes to the decode of (RSP, DAT), whatever came before |
| Protocol.EventDataOverridesType | lib/TD5580A/TD5580A.cpp:615-617 | a data byte in 0x3A..0x3F overrides the reply's type: such a reply decodes as that event's number |
| Protocol.VolumeReplyScenario | lib/TD5580A/TD5580A.cpp:426-537 | feeding `7E FF 06 43 00 00 1E FE BA EF` into a fresh buffer decodes to 0x1E |
| Protocol.MidStreamStartScenario | lib/TD5580A/TD5580A.cpp:590-593 | after any partial frame, a 7E restarts assembly from slot 0 and `7E FF 06 42 00 00 01 EF` decodes to 0x0B |
| Protocol.StaleTailScenario | lib/TD5580A/TD5580A.cpp:597-603 | a 7-byte answer after a 10-byte reply decodes with the new data, while slots 7..9 keep the old `FE BA EF` |
| Protocol.HexDigit | lib/TD5580A/TD5580A.cpp:558 | one lower-case hex digit, which reads back as its value |
| Protocol.Radix16 | lib/TD5580A/TD5580A.cpp:558 | Arduino's `String(b, HEX)`: one lower-case digit below 16, otherwise two with no leading zero. The digits read back as b |
| Protocol.ByteToHex | lib/TD5580A/TD5580A.cpp:547-561 | `sbyte2hex(b)` has 5 characters: `0X`, two hex digits that read back as b, and a space |
| Protocol.ByteToHexInjective | lib/TD5580A/TD5580A.cpp:547-561 | distinct bytes render differently |
| Protocol.HexString | lib/TD5580A/TD5580A.cpp:599-602 | the answer string is five characters per byte |
| Protocol.HexStringAt | lib/TD5580A/TD5580A.cpp:599-602 | characters 5i..5i+5 of the answer string render byte i |
| Controller.TD5580A.constructor | lib/TD5580A/TD5580A.h:143-148 | a fresh controller has a zero-filled 15-byte buffer that decodes to 0, and no stream |
| Controller.TD5580A.ShowDebug | lib/TD5580A/TD5580A.cpp:23-26 | sets the debug flag and nothing else |
| Controller.TD5580A.Begin | lib/TD5580A/TD5580A.cpp:33-36 | attaches the stream and nothing else |
| Controller.TD5580A.SendCommand | lib/TD5580A/TD5580A.cpp:352-395 | appends exactly `7E FF 06 cmd 00 d1 d2 EF` to the output, byte by byte, and reads nothing |
| Controller.TD5580A.SendCommandNoData | lib/TD5580A/TD5580A.cpp:339-341 | appends the frame of (cmd, 0, 0) |
| Controller.TD5580A.SendCommandData | lib/TD5580A/TD5580A.cpp:346-348 | appends the frame of (cmd, 0, d2) |
| Controller.TD5580A.PlayNext | lib/TD5580A/TD5580A.cpp:42-45 | sends the frame of (0x01, 0, 0) |
| Controller.TD5580A.PlayPrevious | lib/TD5580A/TD5580A.cpp:51-54 | sends the frame of (0x02, 0, 0) |
| Controller.TD5580A.Play | lib/TD5580A/TD5580A.cpp:61-64 | sends the frame of (0x03, 0, n) |
| Controller.TD5580A.VolUp | lib/TD5580A/TD5580A.cpp:70-73 | sends the frame of (0x04, 0, 0) |
| Controller.TD5580A.VolDown | lib/TD5580A/TD5580A.cpp:79-82 | sends the frame of (0x05, 0, 0) |
| Controller.TD5580A.SetVol | lib/TD5580A/TD5580A.cpp:89-92 | sends the frame of (0x06, 0, v), with no clamping |
| Controller.TD5580A.SetEq | lib/TD5580A/TD5580A.cpp:99-102 | as written, sends the frame of (0x06, 0, e), the volume frame |
| Controller.TD5580A.PlaySL | lib/TD5580A/TD5580A.cpp:109-112 | sends the frame of (0x08, 0, n) |
| Controller.TD5580A.SetSource | lib/TD5580A/TD5580A.cpp:119-122 | sends the frame of (0x09, 0, src) |
| Controller.TD5580A.SetSleep | lib/TD5580A/TD5580A.cpp:129-132 | sends the frame of (0x0A, 0, 0) |
| Controller.TD5580A.Reset | lib/TD5580A/TD5580A.cpp:141-144 | sends the frame of (0x0C, 0, 0) |
| Controller.TD5580A.Resume | lib/TD5580A/TD5580A.cpp:150-153 | `play()` sends the frame of (0x0D, 0, 0) |
| Controller.TD5580A.Pause | lib/TD5580A/TD5580A.cpp:159-162 | sends the frame of (0x0E, 0, 0) |
| Controller.TD5580A.PlayF | lib/TD5580A/TD5580A.cpp:170-173 | sends the frame of (0x0F, f, n) |
| Controller.TD5580A.PlayAllLoop | lib/TD5580A/TD5580A.cpp:182-185 | sends the frame of (0x11, 0, 0) |
| Controller.TD5580A.SetFolder | lib/TD5580A/TD5580A.cpp:192-195 | sends the frame of (0x12, 0, f) |
| Controller.TD5580A.InsertAdvert | lib/TD5580A/TD5580A.cpp:202-204 | sends the frame of (0x13, 0, n) |
| Controller.TD5580A.StopAdverts | lib/TD5580A/TD5580A.cpp:221-224 | sends the frame of (0x15, 0, 0) |
| Controller.TD5580A.Stop | lib/TD5580A/TD5580A.cpp:230-233 | sends the frame of (0x16, 0, 0) |
| Controller.TD5580A.LoopFolder | lib/TD5580A/TD5580A.cpp:240-243 | sends the frame of (0x17, f, 0), with the folder in data byte 1 |
| Controller.TD5580A.PlayShuffle | lib/TD5580A/TD5580A.cpp:249-252 | sends the frame of (0x18, 0, 0) |
| Controller.TD5580A.PlayL | lib/TD5580A/TD5580A.cpp:259-262 | sends (0x19, 0, 0) for on and (0x19, 0, 1) for off |
| Controller.TD5580A.SetDacHighImp | lib/TD5580A/TD5580A.cpp:270-272 | sends the frame of (0x1A, 0, n) |
| Controller.TD5580A.SetPowerOnVol | lib/TD5580A/TD5580A.cpp:279-281 | sends the frame of (0x1B, 0, v) |
| Controller.TD5580A.Sleep | lib/TD5580A/TD5580A.cpp:325-328 | sends the frame of (0x0A, 0, 0), the same frame as `setSleep` |
| Controller.TD5580A.Wakeup | lib/TD5580A/TD5580A.cpp:332-334 | sends the frame of (0x0B, 0, 0) |
| Controller.TD5580A.SAnswer | lib/TD5580A/TD5580A.cpp:567-640 | drains every waiting byte and writes nothing. The buffer becomes `Received` of its old contents and the bytes read. The answer is the hex rendering of the bytes since the last start byte. The index bound (`Fits`) is required because the code has no guard |
| Controller.TD5580A.StoreByte | lib/TD5580A/TD5580A.cpp:597-617 | stores one byte at the index and latches an event byte into slot 3 |
| Controller.TD5580A.MP3Answer | lib/TD5580A/TD5580A.cpp:426-538 | drains the stream, returns the decode of slots 3 and 6 of the assembled buffer, and clears slot 3 only. The result is at most 255, and the next decode with nothing new is 0 |
| Controller.TD5580A.QStatus | lib/TD5580A/TD5580A.cpp:290-293 | writes exactly the (0x42, 0, 0) frame, then answers the decode of the drained reply |
| Controller.TD5580A.QVolume | lib/TD5580A/TD5580A.cpp:297-300 | writes exactly the (0x43, 0, 0) frame, then answers the decode of the drained reply |
| Controller.TD5580A.QFTracks | lib/TD5580A/TD5580A.cpp:304-307 | writes exactly the (0x4E, 0, 0) frame, then answers the decode of the drained reply |
| Controller.TD5580A.QTTracks | lib/TD5580A/TD5580A.cpp:311-314 | writes exactly the (0x48, 0, 0) frame, then answers the decode of the drained reply |
| Controller.TD5580A.QTFolders | lib/TD5580A/TD5580A.cpp:318-321 | writes exactly the (0x4F, 0, 0) frame, then answers the decode of the drained reply |
| Controller.VolumeQueryClient | lib/TD5580A/TD5580A.cpp:297-300 | with the reply `7E FF 06 43 00 00 1E FE BA EF` waiting, `qVolume` writes `7E FF 06 43 00 00 00 EF` and returns 0x1E; a second decode returns 0 |
| Facade.Constrain | lib/DFPlayerMini/DFPlayerMini.cpp:53 | the result lies in lo..hi; it equals x exactly when x is in range, and is the nearer bound otherwise |
| Facade.Issues | lib/DFPlayerMini/DFPlayerMini.cpp:51-78 | the driver calls of one operation: none when offline. When online: `volume(constrain(v,0,30))` for `set_volume`; `loop(t)` for `loop_track` exactly when t > 0; `stop()` for `stop_playing`; `readState()` for `is_playing`. Never `begin` |
| Facade.SameVolumeCallIff | lib/DFPlayerMini/DFPlayerMini.cpp:51-56 | two volume requests to an online player reach the driver as the same call if and only if they are equal, both at or below 0, or both at or above 30 |
| Facade.OfflineIsSilent | lib/DFPlayerMini/DFPlayerMini.cpp:51-78 | any sequence of operations on an offline player makes no driver call |
| Facade.RunInRange | lib/DFPlayerMini/DFPlayerMini.cpp:51-63 | no sequence of operations sends a volume outside 0..30, a non-positive track, or a `begin`, and each operation sends at most one call |
| Facade.StartupInRange | lib/DFPlayerMini/DFPlayerMini.cpp:43-44 | the start-up calls `volume(20)` and `loop(1)` are in range |
| Facade.DFPlayerMini.constructor | lib/DFPlayerMini/DFPlayerMini.cpp:22-26 | a new player is offline, keeps the given pins (20 and 21 by default), and touches neither the port nor the driver |
| Facade.DFPlayerMini.Begin | lib/DFPlayerMini/DFPlayerMini.cpp:29-48 | opens the port once at 9600 baud 8N1 on the player's pins, then calls the driver's `begin`. It returns true and goes online exactly when that succeeds. On success it then issues `volume(20)` and `loop(1)`, in that order; on failure it issues nothing more and stays offline |
| Facade.DFPlayerMini.SetVolume | lib/DFPlayerMini/DFPlayerMini.cpp:51-56 | appends exactly Issues(online, set_volume(v)) to the driver's calls and keeps every call in range |
| Facade.DFPlayerMini.LoopTrack | lib/DFPlayerMini/DFPlayerMini.cpp:59-63 | appends exactly Issues(online, loop_track(t)) and keeps every call in range |
| Facade.DFPlayerMini.StopPlaying | lib/DFPlayerMini/DFPlayerMini.cpp:66-70 | appends exactly Issues(online, stop_playing) |
| Facade.DFPlayerMini.IsPlaying | lib/DFPlayerMini/DFPlayerMini.cpp:73-78 | true exactly when online and the driver's state is 1; reads the state only when online |
| Facade.DFPlayerMini.IsOnline | lib/DFPlayerMini/DFPlayerMini.cpp:81-83 | returns the flag and changes nothing |
| Facade.OfflineHandlers | src/main.cpp:10-113 | the firmware's global player, never started, reports offline and not playing, and a track request makes no driver or port call |
| Facade.StartedSession | lib/DFPlayerMini/DFPlayerMini.cpp:29-78 | a started player with pins 16/17 opens the port at 9600 8N1, issues `begin`, `volume(20)`, `loop(1)`, then `volume(30)` for a request of 45, and reports playing |

Only `Facade.DFPlayerMini.Begin` changes the online flag. Every other facade method may modify
only the driver.

## Left out

- The `delay` calls (20 ms and 1 s in `sendCommand`, 5 s in `begin`) are wall-clock waits and
  have no effect on state.
- Diagnostic printing is left out: the `Serial.print` calls in `sendCommand`, `sanswer` and
  `MP3Answer`, and the `mp3send` string built in `sendCommand`. The answer string of
  `sanswer` is modelled because it is the method's return value.
- `Stream::available`/`read`/`write` and `HardwareSerial::begin` are replaced by byte and call
  logs. The receive loop sees a fixed input sequence, so no bytes arrive while it drains.
- Controller.TD5580A.QStatus, QVolume, QFTracks, QTTracks and QTFolders: the reply must
  already be waiting in the stream's input when the query is called. The model has no timing,
  so it does not capture a reply that arrives while or after the query frame is sent.
- The stream pointer `serial` is uninitialised in the code until `begin`. The model starts it as
  `null`, and every controller operation requires `begin` to have run (`Ready()`).
- The DFRobot driver's internals, including what `begin` actually exchanges with the module,
  are not part of this model. Oracle fields answer `begin` and `readState`.
- The `DFPlayerMini` port defaults to `Serial1` (DFPlayerMini.h:20-26). In the model it is a
  required constructor argument; only the pins keep their defaults (20 and 21).
- The driver's `begin` takes the port (DFPlayerMini.cpp:37). The model's driver logs `begin`
  without recording which port it was given. The player always passes its own port.
- The driver is passed to the `DFPlayerMini` constructor rather than built inside it, so that
  the oracle can be set. The player is its only caller.
- Controller.TD5580A.SAnswer: requires `Fits`, that is, at most 15 bytes after any start byte
  (or after the start of the call). The code has no bound on the index, and a longer run writes
  past `ansbuf`. That behaviour is undefined and cannot be modelled.
- The HTTP, Wi-Fi, mDNS and SPIFFS glue (`src/main.cpp`, `lib/WebApp`) and the configuration
  headers are not part of this model. `Facade.OfflineHandlers` only records that the global
  player is never started.
- `lib/DFPlayerMini/Commands.h` is not part of this model. It repeats the code table of
  `TD5580A.h` and nothing shown uses it.
- `playF(byte)`, `playSL(byte, byte)`, `qPlaying()` and `shex2int` are declared in `TD5580A.h`
  but never defined, so there is nothing to model.
- `_showDebugMessages` is uninitialised in the code. The model starts it as false; it only
  switches printing.
- Integer widths: every byte is a `Byte` in 0..255, and the `uint16_t` result of the decoder is
  a `nat` proved to be at most 255. No arithmetic in the core can wrap.

## Findings

| source | as written | input that shows it | evidently intended | confidence | as-written member | corrected member |
|---|---|---|---|---|---|---|
| lib/TD5580A/TD5580A.cpp:99-102 | `setEq(e)` sends command `CMD_SET_VOL` (0x06) | `setEq(5)` writes `7E FF 06 06 00 00 05 EF`, the frame of `setVol(5)`, so it sets the volume to 5 | send `CMD_SET_EQ` (0x07), as the doc comment above the function and the header (TD5580A.h:27) say | high; not executed | Protocol.SetEqSendsVolumeFrame | Protocol.IntendedSameFrameIff |
