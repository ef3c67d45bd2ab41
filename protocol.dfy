/**
 * The pure side of the TD5580A serial protocol: the outbound command frame,
 * the table from named operations to (command, data1, data2), the receive
 * buffer as a function of the bytes received, the answer decoder and the hex
 * rendering used for diagnostics.
 */
module Protocol {
  import opened Codes

  datatype Option<T> = None | Some(value: T)

  // ---------------------------------------------------------------------------
  // Outbound frames
  // ---------------------------------------------------------------------------

  /** The three bytes of an outbound frame that vary from command to command. */
  datatype Request = Request(command: Byte, dat1: Byte, dat2: Byte)

  /** The 8-byte wire frame 7E FF 06 CMD 00 D1 D2 EF; no checksum is sent. */
  function CommandFrame(r: Request): (f: seq<Byte>)
    ensures |f| == 8
  {
    [StartByte, AddrByte, LenByte, r.command, NoFeedback, r.dat1, r.dat2, EndByte]
  }

  /** How the module reads an 8-byte frame: the variable bytes, if the envelope is exact. */
  function ParseCommandFrame(f: seq<Byte>): Option<Request>
  {
    if |f| == 8 && f[0] == StartByte && f[1] == AddrByte && f[2] == LenByte
       && f[4] == NoFeedback && f[7] == EndByte
    then Some(Request(f[3], f[5], f[6]))
    else None
  }

  /** Every request survives the trip through its frame. */
  lemma ParseEncode(r: Request)
    ensures ParseCommandFrame(CommandFrame(r)) == Some(r)
  {
  }

  /** Every frame the module accepts is the frame of the request it reads from it. */
  lemma EncodeParse(f: seq<Byte>)
    requires ParseCommandFrame(f).Some?
    ensures CommandFrame(ParseCommandFrame(f).value) == f
  {
    var g := CommandFrame(ParseCommandFrame(f).value);
    assert forall i | 0 <= i < 8 :: g[i] == f[i];
  }

  /** Two requests share a frame exactly when they are the same request. */
  lemma CommandFrameInjective(r1: Request, r2: Request)
    ensures CommandFrame(r1) == CommandFrame(r2) <==> r1 == r2
  {
    if CommandFrame(r1) == CommandFrame(r2) {
      ParseEncode(r1);
      ParseEncode(r2);
    }
  }

  // ---------------------------------------------------------------------------
  // The named operations of the controller and the requests they send
  // ---------------------------------------------------------------------------

  datatype Command =
    | PlayNext | PlayPrevious | Play(trackNum: Byte) | VolUp | VolDown
    | SetVol(volume: Byte) | SetEq(eq: Byte) | PlaySL(trackNum: Byte)
    | SetSource(src: Byte) | SetSleep | Reset | Resume | Pause
    | PlayF(folder: Byte, file: Byte) | PlayAllLoop | SetFolder(folder: Byte)
    | InsertAdvert(advert: Byte) | StopAdverts | Stop | LoopFolder(folder: Byte)
    | PlayShuffle | PlayL(on: bool) | SetDacHighImp(level: Byte)
    | SetPowerOnVol(volume: Byte) | Sleep | Wakeup
    | QueryStatus | QueryVolume | QueryFolderTracks | QueryTotalTracks | QueryFolders
  {
    /** The five operations that read an answer back. */
    predicate IsQuery() {
      QueryStatus? || QueryVolume? || QueryFolderTracks? || QueryTotalTracks? || QueryFolders?
    }
  }

  /**
   * The request each wrapper of the controller sends, as the code is written.
   * In particular `setEq` sends the volume command code.
   */
  function RequestOf(c: Command): (r: Request)
    ensures c.IsQuery() ==> r.dat1 == 0 && r.dat2 == 0
    ensures r.dat1 != 0 ==> c.PlayF? || c.LoopFolder?
    ensures r.command != CmdSetEq
  {
    match c
    case PlayNext => Request(CmdNext, 0, 0)
    case PlayPrevious => Request(CmdPrev, 0, 0)
    case Play(n) => Request(CmdPlayN, 0, n)
    case VolUp => Request(CmdVolUp, 0, 0)
    case VolDown => Request(CmdVolDown, 0, 0)
    case SetVol(v) => Request(CmdSetVol, 0, v)
    case SetEq(e) => Request(CmdSetVol, 0, e)
    case PlaySL(n) => Request(CmdPlaySLoop, 0, n)
    case SetSource(s) => Request(CmdSetSource, 0, s)
    case SetSleep => Request(CmdSleepMode, 0, 0)
    case Reset => Request(CmdReset, 0, 0)
    case Resume => Request(CmdPlay, 0, 0)
    case Pause => Request(CmdPause, 0, 0)
    case PlayF(f, n) => Request(CmdPlayFolderFile, f, n)
    case PlayAllLoop => Request(CmdPlayLoops, 0, 0)
    case SetFolder(f) => Request(CmdSetFolder, 0, f)
    case InsertAdvert(n) => Request(CmdPlayAdvert, 0, n)
    case StopAdverts => Request(CmdStopAdverts, 0, 0)
    case Stop => Request(CmdStopPlay, 0, 0)
    case LoopFolder(f) => Request(CmdFolderCycle, f, 0)
    case PlayShuffle => Request(CmdPlayShuffle, 0, 0)
    case PlayL(on) => Request(CmdSetSinglePlay, 0, if on then 0 else 1)
    case SetDacHighImp(n) => Request(CmdDacImpHigh, 0, n)
    case SetPowerOnVol(v) => Request(CmdPowerOnVolMem, 0, v)
    case Sleep => Request(CmdSleepMode, 0, 0)
    case Wakeup => Request(CmdWakeUp, 0, 0)
    case QueryStatus => Request(QryStatus, 0, 0)
    case QueryVolume => Request(QryVolume, 0, 0)
    case QueryFolderTracks => Request(CmdQueryFolderTracks, 0, 0)
    case QueryTotalTracks => Request(CmdQueryTotalTracks, 0, 0)
    case QueryFolders => Request(CmdQueryFolderCount, 0, 0)
  }

  /** True when a request carries no data bytes. */
  predicate NoData(r: Request) {
    r.dat1 == 0 && r.dat2 == 0
  }

  /**
   * The command table read from the module's side: which operation a request
   * asks for, following the header's code list (0x07 is equalisation).
   */
  function ReadRequest(r: Request): Option<Command>
  {
    var c := r.command;
    if c == CmdNext && NoData(r) then Some(PlayNext)
    else if c == CmdPrev && NoData(r) then Some(PlayPrevious)
    else if c == CmdPlayN && r.dat1 == 0 then Some(Play(r.dat2))
    else if c == CmdVolUp && NoData(r) then Some(VolUp)
    else if c == CmdVolDown && NoData(r) then Some(VolDown)
    else if c == CmdSetVol && r.dat1 == 0 then Some(SetVol(r.dat2))
    else if c == CmdSetEq && r.dat1 == 0 then Some(SetEq(r.dat2))
    else if c == CmdPlaySLoop && r.dat1 == 0 then Some(PlaySL(r.dat2))
    else if c == CmdSetSource && r.dat1 == 0 then Some(SetSource(r.dat2))
    else if c == CmdSleepMode && NoData(r) then Some(SetSleep)
    else if c == CmdWakeUp && NoData(r) then Some(Wakeup)
    else if c == CmdReset && NoData(r) then Some(Reset)
    else if c == CmdPlay && NoData(r) then Some(Resume)
    else if c == CmdPause && NoData(r) then Some(Pause)
    else if c == CmdPlayFolderFile then Some(PlayF(r.dat1, r.dat2))
    else if c == CmdPlayLoops && NoData(r) then Some(PlayAllLoop)
    else if c == CmdSetFolder && r.dat1 == 0 then Some(SetFolder(r.dat2))
    else if c == CmdPlayAdvert && r.dat1 == 0 then Some(InsertAdvert(r.dat2))
    else if c == CmdStopAdverts && NoData(r) then Some(StopAdverts)
    else if c == CmdStopPlay && NoData(r) then Some(Stop)
    else if c == CmdFolderCycle && r.dat2 == 0 then Some(LoopFolder(r.dat1))
    else if c == CmdPlayShuffle && NoData(r) then Some(PlayShuffle)
    else if c == CmdSetSinglePlay && r.dat1 == 0 && r.dat2 <= 1 then Some(PlayL(r.dat2 == 0))
    else if c == CmdDacImpHigh && r.dat1 == 0 then Some(SetDacHighImp(r.dat2))
    else if c == CmdPowerOnVolMem && r.dat1 == 0 then Some(SetPowerOnVol(r.dat2))
    else if c == QryStatus && NoData(r) then Some(QueryStatus)
    else if c == QryVolume && NoData(r) then Some(QueryVolume)
    else if c == CmdQueryFolderTracks && NoData(r) then Some(QueryFolderTracks)
    else if c == CmdQueryTotalTracks && NoData(r) then Some(QueryTotalTracks)
    else if c == CmdQueryFolderCount && NoData(r) then Some(QueryFolders)
    else None
  }

  /**
   * The operation the module sees when the controller issues c: `setEq(e)`
   * reaches it as `setVol(e)`, and `sleep` as `setSleep`; every other
   * operation is itself.
   */
  function Canonical(c: Command): (d: Command)
    ensures d != c <==> c.SetEq? || c == Sleep
    ensures !d.SetEq? && RequestOf(d) == RequestOf(c)
  {
    match c
    case SetEq(e) => SetVol(e)
    case Sleep => SetSleep
    case _ => c
  }

  /** The table read back from the module's side recovers every operation up to Canonical. */
  lemma ReadRequestOf(c: Command)
    ensures ReadRequest(RequestOf(c)) == Some(Canonical(c))
  {
  }


  /**
   * Two operations put the same frame on the wire exactly when they are the
   * same operation up to Canonical; so `setEq(e)` and `setVol(e)` cannot be
   * told apart on the wire.
   */
  lemma SameFrameIff(c1: Command, c2: Command)
    ensures CommandFrame(RequestOf(c1)) == CommandFrame(RequestOf(c2)) <==> Canonical(c1) == Canonical(c2)
  {
    CommandFrameInjective(RequestOf(c1), RequestOf(c2));
    ReadRequestOf(c1);
    ReadRequestOf(c2);
  }

  /** `setEq(e)` sends the frame of `setVol(e)`, as written. */
  lemma SetEqSendsVolumeFrame(e: Byte)
    ensures CommandFrame(RequestOf(SetEq(e))) == CommandFrame(RequestOf(SetVol(e)))
    ensures CommandFrame(RequestOf(SetEq(e)))[3] == CmdSetVol
  {
    SameFrameIff(SetEq(e), SetVol(e));
  }

  /** The request `setEq` evidently means to send: the equalisation code 0x07. */
  function IntendedRequestOf(c: Command): (r: Request)
    ensures c.SetEq? ==> r == Request(CmdSetEq, 0, c.eq)
    ensures !c.SetEq? ==> r == RequestOf(c)
  {
    if c.SetEq? then Request(CmdSetEq, 0, c.eq) else RequestOf(c)
  }

  /**
   * Whatever the module reads from a request is an operation whose intended
   * request is exactly that request (as written, `setEq` breaks this).
   */
  lemma ReadRequestSound(r: Request)
    requires ReadRequest(r).Some?
    ensures IntendedRequestOf(ReadRequest(r).value) == r
  {
    var c := ReadRequest(r).value;
    match c
    case SetEq(e) =>
    case PlayF(f, n) =>
    case LoopFolder(f) =>
    case PlayL(on) =>
    case _ =>
  }

  /** With the intended code only the two sleep wrappers share a frame. */
  lemma IntendedSameFrameIff(c1: Command, c2: Command)
    ensures CommandFrame(IntendedRequestOf(c1)) == CommandFrame(IntendedRequestOf(c2))
            <==> c1 == c2 || (c1 in {Sleep, SetSleep} && c2 in {Sleep, SetSleep})
  {
    var r1, r2 := IntendedRequestOf(c1), IntendedRequestOf(c2);
    CommandFrameInjective(r1, r2);
    ReadRequestOf(c1);
    ReadRequestOf(c2);
    if r1 == r2 {
      assert ReadRequest(r1) == ReadRequest(r2);
    }
    if c1 in {Sleep, SetSleep} && c2 in {Sleep, SetSleep} {
      assert r1 == r2;
    }
  }

  // ---------------------------------------------------------------------------
  // Decoding an answer
  // ---------------------------------------------------------------------------

  /** The type codes the decoder recognises. */
  predicate IsAnswerCode(code: Byte) {
    IsEventCode(code) || code == RspErrorResend || code == RspResponse
    || code == QryStatus || IsDataQuery(code)
  }

  /**
   * The numeric status of an answer, from its type code (slot 3) and data
   * byte (slot 6): events number 1..6 in code order, resend-error 7,
   * response 8, status stopped/playing/paused 0x0A/0x0B/0x0C, volume and the
   * counts the data byte itself; 0 means nothing recognised.
   */
  function DecodeAnswer(code: Byte, data: Byte): (r: nat)
    ensures r <= 255
    ensures IsEventCode(code) ==> r == code - EvDevInserted + 1
    ensures code == RspErrorResend ==> r == 7
    ensures code == RspResponse ==> r == 8
    ensures code == QryStatus && data <= 2 ==> r == 0x0A + data
    ensures IsDataQuery(code) ==> r == data
    ensures r == 0 <==> !IsAnswerCode(code) || (code == QryStatus && data > 2)
                        || (IsDataQuery(code) && data == 0)
  {
    match code
    case 0x3A => 1
    case 0x3B => 2
    case 0x3C => 3
    case 0x3D => 4
    case 0x3E => 5
    case 0x3F => 6
    case 0x40 => 7
    case 0x41 => 8
    case 0x42 => (if data == 0 then 0x0A else if data == 1 then 0x0B else if data == 2 then 0x0C else 0)
    case 0x43 => data
    case 0x48 => data
    case 0x4C => data
    case 0x4E => data
    case 0x4F => data
    case _ => 0
  }

  /** The decode of a receive buffer: its type slot and its data slot. */
  function AnswerOf(buf: seq<Byte>): (r: nat)
    requires |buf| == AnswerBufferSize
    ensures r <= 255
    ensures !IsAnswerCode(buf[3]) ==> r == 0
    ensures IsDataQuery(buf[3]) ==> r == buf[6]
  {
    DecodeAnswer(buf[3], buf[6])
  }

  /** Clearing the type slot, as the decoder does afterwards, makes the next decode 0. */
  lemma ClearedBufferDecodesZero(buf: seq<Byte>)
    requires |buf| == AnswerBufferSize
    ensures AnswerOf(buf[3 := 0]) == 0
  {
  }

  // ---------------------------------------------------------------------------
  // Assembling received bytes into the 15-byte buffer
  // ---------------------------------------------------------------------------

  /** The initial, zero-filled receive buffer. */
  function EmptyAnswerBuffer(): (buf: seq<Byte>)
    ensures |buf| == AnswerBufferSize && forall i | 0 <= i < |buf| :: buf[i] == 0
  {
    seq(AnswerBufferSize, _ => 0)
  }

  /**
   * The bytes received since the last start byte, or all of them when none
   * arrived: the frame being assembled. Its length is the write index.
   */
  function CurrentRun(s: seq<Byte>): (run: seq<Byte>)
    ensures |run| <= |s|
    ensures s != [] ==> run != []
  {
    if s == [] then []
    else if s[|s| - 1] == StartByte then [StartByte]
    else CurrentRun(s[..|s| - 1]) + [s[|s| - 1]]
  }

  /**
   * The run is the suffix of s that starts at the last start byte, or all of
   * s when no start byte arrived.
   */
  lemma {:induction false} CurrentRunIsSuffix(s: seq<Byte>)
    ensures CurrentRun(s) == s[|s| - |CurrentRun(s)|..]
    ensures CurrentRun(s) == s || IsFrame(CurrentRun(s))
    ensures s != [] && CurrentRun(s) == s ==> StartByte !in s[1..]
    decreases |s|
  {
    if s != [] && s[|s| - 1] != StartByte {
      var p := s[..|s| - 1];
      CurrentRunIsSuffix(p);
      assert s == p + [s[|s| - 1]];
    }
  }

  /**
   * The receiver's writes stay inside the 15-byte buffer: at no point have
   * more than 15 bytes arrived since the last start byte (or the start of
   * the call). The code does not check this.
   */
  predicate Fits(s: seq<Byte>)
    decreases |s|
  {
    s == [] || (|CurrentRun(s)| <= AnswerBufferSize && Fits(s[..|s| - 1]))
  }

  /** Every prefix of bytes that fit also fits. */
  lemma {:induction false} FitsPrefix(s: seq<Byte>, j: nat)
    requires Fits(s) && j <= |s|
    ensures Fits(s[..j])
    decreases |s|
  {
    if j < |s| {
      FitsPrefix(s[..|s| - 1], j);
      assert s[..|s| - 1][..j] == s[..j];
    } else {
      assert s[..j] == s;
    }
  }

  /** Bytes fit exactly when every prefix's run is at most 15 bytes long. */
  lemma {:induction false} FitsIff(s: seq<Byte>)
    ensures Fits(s) <==> forall k | 0 < k <= |s| :: |CurrentRun(s[..k])| <= AnswerBufferSize
    decreases |s|
  {
    if s != [] {
      var p := s[..|s| - 1];
      FitsIff(p);
      assert s[..|s|] == s;
      assert forall k | 0 < k <= |p| :: p[..k] == s[..k];
    }
  }

  /** Store one byte at index i; an event code is also copied into slot 3. */
  function Store(buf: seq<Byte>, i: nat, b: Byte): (r: seq<Byte>)
    requires i < |buf| == AnswerBufferSize
    ensures |r| == |buf| && r[i] == b
    ensures IsEventCode(b) ==> r[3] == b
    ensures i != 3 && !IsEventCode(b) ==> r[3] == buf[3]
  {
    var stored := buf[i := b];
    if IsEventCode(b) then stored[3 := b] else stored
  }

  /** Storing at index i leaves every slot other than i and 3 as it was. */
  lemma StoreKeepsOthers(buf: seq<Byte>, i: nat, b: Byte)
    requires i < |buf| == AnswerBufferSize
    ensures forall j | 0 <= j < |buf| && j != i && j != 3 :: Store(buf, i, b)[j] == buf[j]
  {
  }

  /**
   * The receive buffer after the bytes s were drained into buf, starting
   * from index 0: each byte goes to the index one less than the length of
   * the current run, i.e. a start byte goes to 0 and every other byte to the
   * slot after its predecessor.
   */
  function Received(buf: seq<Byte>, s: seq<Byte>): (r: seq<Byte>)
    requires |buf| == AnswerBufferSize && Fits(s)
    ensures |r| == AnswerBufferSize
    decreases |s|
  {
    if s == [] then buf
    else
      Store(Received(buf, s[..|s| - 1]), |CurrentRun(s)| - 1, s[|s| - 1])
  }

  /**
   * Draining s touches no slot at or past |s| except slot 3: the index never
   * gets further than the number of bytes read.
   */
  lemma {:induction false} ReceivedKeepsTail(buf: seq<Byte>, s: seq<Byte>)
    requires |buf| == AnswerBufferSize && Fits(s)
    ensures forall j | |s| <= j < AnswerBufferSize && j != 3 :: Received(buf, s)[j] == buf[j]
    decreases |s|
  {
    if s != [] {
      ReceivedKeepsTail(buf, s[..|s| - 1]);
      StoreKeepsOthers(Received(buf, s[..|s| - 1]), |CurrentRun(s)| - 1, s[|s| - 1]);
    }
  }

  /**
   * One more byte b: it is stored at index 0 if it is a start byte and
   * otherwise just after the current run, and the rendering of the run
   * restarts or grows by b's five characters accordingly.
   */
  lemma ReceiveOneByte(buf: seq<Byte>, s: seq<Byte>, b: Byte)
    requires |buf| == AnswerBufferSize && Fits(s + [b])
    ensures Fits(s)
    ensures |CurrentRun(s + [b])| == if b == StartByte then 1 else |CurrentRun(s)| + 1
    ensures Received(buf, s + [b]) == Store(Received(buf, s), |CurrentRun(s + [b])| - 1, b)
    ensures HexString(CurrentRun(s + [b]))
            == (if b == StartByte then "" else HexString(CurrentRun(s))) + ByteToHex(b)
  {
    assert (s + [b])[..|s|] == s;
    var run := CurrentRun(s + [b]);
    assert run[..|run| - 1] == if b == StartByte then [] else CurrentRun(s);
  }

  /**
   * The same step, stated for the k-th byte of an input that fits as a whole:
   * what the receive loop needs to move from `input[..k]` to `input[..k + 1]`.
   */
  lemma ReceiveStep(buf: seq<Byte>, input: seq<Byte>, k: nat)
    requires |buf| == AnswerBufferSize && Fits(input) && k < |input|
    ensures Fits(input[..k]) && Fits(input[..k + 1])
    ensures 0 < |CurrentRun(input[..k + 1])| <= AnswerBufferSize
    ensures |CurrentRun(input[..k + 1])|
            == if input[k] == StartByte then 1 else |CurrentRun(input[..k])| + 1
    ensures Received(buf, input[..k + 1])
            == Store(Received(buf, input[..k]), |CurrentRun(input[..k + 1])| - 1, input[k])
    ensures HexString(CurrentRun(input[..k + 1]))
            == (if input[k] == StartByte then "" else HexString(CurrentRun(input[..k])))
               + ByteToHex(input[k])
  {
    assert input[..k + 1] == input[..k] + [input[k]];
    FitsPrefix(input, k + 1);
    ReceiveOneByte(buf, input[..k], input[k]);
  }

  /** A frame as the receiver sees it: a start byte and then no other. */
  predicate IsFrame(f: seq<Byte>) {
    f != [] && f[0] == StartByte && forall i | 0 < i < |f| :: f[i] != StartByte
  }

  /** Once a start byte arrives, what came before it no longer affects the run. */
  lemma {:induction false} RunAfterStart(s: seq<Byte>, t: seq<Byte>)
    requires t != [] && t[0] == StartByte
    ensures CurrentRun(s + t) == CurrentRun(t)
    decreases |t|
  {
    if |t| > 1 {
      var t' := t[..|t| - 1];
      assert (s + t)[..|s + t| - 1] == s + t';
      RunAfterStart(s, t');
    }
  }

  /** The run of a whole frame is the frame. */
  lemma {:induction false} RunOfFrame(f: seq<Byte>)
    requires IsFrame(f)
    ensures CurrentRun(f) == f
    decreases |f|
  {
    if |f| > 1 {
      var f' := f[..|f| - 1];
      assert IsFrame(f');
      RunOfFrame(f');
    }
  }

  /** A frame of at most 15 bytes fits the buffer. */
  lemma {:induction false} FrameFits(f: seq<Byte>)
    requires IsFrame(f) && |f| <= AnswerBufferSize
    ensures Fits(f)
    decreases |f|
  {
    RunOfFrame(f);
    if |f| > 1 {
      assert IsFrame(f[..|f| - 1]);
      FrameFits(f[..|f| - 1]);
    }
  }

  /** Bytes that fit, followed by a fitting run that opens with a start byte, still fit. */
  lemma {:induction false} FitsAfterStart(s: seq<Byte>, t: seq<Byte>)
    requires t != [] && t[0] == StartByte
    requires Fits(s) && Fits(t)
    ensures Fits(s + t)
    decreases |t|
  {
    RunAfterStart(s, t);
    var st := s + t;
    if |t| == 1 {
      assert st[..|st| - 1] == s;
    } else {
      var t' := t[..|t| - 1];
      assert st[..|st| - 1] == s + t';
      FitsAfterStart(s, t');
    }
  }

  /**
   * A start byte restarts assembly from slot 0: draining s and then t (which
   * opens with a start byte) leaves the buffer that draining t leaves in the
   * buffer s left behind.
   */
  lemma {:induction false} ReceivedAfterStart(buf: seq<Byte>, s: seq<Byte>, t: seq<Byte>)
    requires |buf| == AnswerBufferSize
    requires t != [] && t[0] == StartByte
    requires Fits(s) && Fits(t)
    ensures Fits(s + t)
    ensures Received(buf, s + t) == Received(Received(buf, s), t)
    decreases |t|
  {
    FitsAfterStart(s, t);
    var st := s + t;
    RunAfterStart(s, t);
    if |t| == 1 {
      assert st[..|st| - 1] == s;
    } else {
      var t' := t[..|t| - 1];
      assert st[..|st| - 1] == s + t';
      ReceivedAfterStart(buf, s, t');
    }
  }

  /**
   * Slot 3 after a frame f was drained from index 0: the last event byte of
   * f, unless f's own fourth byte (stored at index 3) came after it; with
   * neither, whatever slot 3 held before.
   */
  function SlotThree(f: seq<Byte>, before: Byte): Byte
    decreases |f|
  {
    if f == [] then before
    else if IsEventCode(f[|f| - 1]) || |f| == 4 then f[|f| - 1]
    else SlotThree(f[..|f| - 1], before)
  }

  /**
   * Draining one frame of at most 15 bytes writes the frame over the first
   * |f| slots, keeps every later slot, and leaves SlotThree in slot 3.
   */
  lemma {:induction false} FrameAssembly(buf: seq<Byte>, f: seq<Byte>)
    requires |buf| == AnswerBufferSize
    requires IsFrame(f) && |f| <= AnswerBufferSize
    ensures Fits(f)
    ensures Received(buf, f) == (f + buf[|f|..])[3 := SlotThree(f, buf[3])]
    decreases |f|
  {
    FrameFits(f);
    RunOfFrame(f);
    var f' := f[..|f| - 1];
    if |f| == 1 {
      assert f' == [];
    } else {
      assert IsFrame(f');
      FrameAssembly(buf, f');
      var prev := Received(buf, f');
      assert prev == (f' + buf[|f'|..])[3 := SlotThree(f', buf[3])];
      var b := f[|f| - 1];
      var want := (f + buf[|f|..])[3 := SlotThree(f, buf[3])];
      var got := Store(prev, |f| - 1, b);
      assert |got| == |want|;
      forall j | 0 <= j < AnswerBufferSize
        ensures got[j] == want[j]
      {
        if j != 3 && j != |f| - 1 {
          assert got[j] == prev[j];
        }
      }
    }
  }

  /** SlotThree never looks past the fourth byte at what came before. */
  lemma {:induction false} SlotThreeIgnoresBefore(f: seq<Byte>, x: Byte, y: Byte)
    requires |f| >= 4
    ensures SlotThree(f, x) == SlotThree(f, y)
    decreases |f|
  {
    if |f| > 4 && !IsEventCode(f[|f| - 1]) {
      SlotThreeIgnoresBefore(f[..|f| - 1], x, y);
    }
  }

  /**
   * Slot 3 holds f[j] when f[j] is the fourth byte or an event code and no
   * event code follows it.
   */
  lemma {:induction false} SlotThreeAt(f: seq<Byte>, j: nat, before: Byte)
    requires 3 <= j < |f|
    requires j == 3 || IsEventCode(f[j])
    requires forall i | j < i < |f| :: !IsEventCode(f[i])
    ensures SlotThree(f, before) == f[j]
    decreases |f|
  {
    if j < |f| - 1 {
      SlotThreeAt(f[..|f| - 1], j, before);
    }
  }

  /**
   * After a start byte, only the last frame matters to the decoder: however
   * the buffer started and whatever arrived before, a last frame of 7 to 15
   * bytes decodes from its own type and data bytes.
   */
  lemma LastFrameDecides(buf: seq<Byte>, s: seq<Byte>, f: seq<Byte>)
    requires |buf| == AnswerBufferSize && Fits(s)
    requires IsFrame(f) && 7 <= |f| <= AnswerBufferSize
    ensures Fits(s + f)
    ensures Received(buf, s + f)[..|f|] == f[3 := SlotThree(f, 0)]
    ensures AnswerOf(Received(buf, s + f)) == DecodeAnswer(SlotThree(f, 0), f[6])
  {
    FrameAssembly(Received(buf, s), f);
    ReceivedAfterStart(buf, s, f);
    SlotThreeIgnoresBefore(f, Received(buf, s)[3], 0);
    var r := Received(buf, s + f);
    assert r[..|f|] == f[3 := SlotThree(f, 0)];
  }

  /** The reply layout 7E FF 06 RSP 00 00 DAT CK1 CK2 EF. */
  function ReplyFrame(code: Byte, data: Byte, ck1: Byte, ck2: Byte): (f: seq<Byte>)
    ensures |f| == 10
  {
    [StartByte, AddrByte, LenByte, code, 0, 0, data, ck1, ck2, EndByte]
  }

  /**
   * A reply without an inner start byte is a frame; slot 3 ends up with its
   * type byte, unless the data byte is an event code, which wins.
   */
  lemma ReplySlotThree(code: Byte, data: Byte, ck1: Byte, ck2: Byte)
    requires code != StartByte && data != StartByte && ck1 != StartByte && ck2 != StartByte
    ensures IsFrame(ReplyFrame(code, data, ck1, ck2)) && ReplyFrame(code, data, ck1, ck2)[6] == data
    ensures !IsEventCode(data) && !IsEventCode(ck1) && !IsEventCode(ck2)
            ==> SlotThree(ReplyFrame(code, data, ck1, ck2), 0) == code
    ensures IsEventCode(data) && !IsEventCode(ck1) && !IsEventCode(ck2)
            ==> SlotThree(ReplyFrame(code, data, ck1, ck2), 0) == data
  {
    var f := ReplyFrame(code, data, ck1, ck2);
    assert IsFrame(f);
    if !IsEventCode(ck1) && !IsEventCode(ck2) {
      if IsEventCode(data) {
        SlotThreeAt(f, 6, 0);
      } else {
        SlotThreeAt(f, 3, 0);
      }
    }
  }

  /**
   * A reply whose type, data and checksum bytes are not the start byte, and
   * whose data and checksum bytes are not event codes, decodes to the
   * decode of its own type and data bytes, whatever preceded it.
   */
  lemma ReplyRoundTrip(buf: seq<Byte>, s: seq<Byte>, code: Byte, data: Byte, ck1: Byte, ck2: Byte)
    requires |buf| == AnswerBufferSize && Fits(s)
    requires code != StartByte && data != StartByte && ck1 != StartByte && ck2 != StartByte
    requires !IsEventCode(data) && !IsEventCode(ck1) && !IsEventCode(ck2)
    ensures Fits(s + ReplyFrame(code, data, ck1, ck2))
    ensures AnswerOf(Received(buf, s + ReplyFrame(code, data, ck1, ck2))) == DecodeAnswer(code, data)
  {
    ReplySlotThree(code, data, ck1, ck2);
    LastFrameDecides(buf, s, ReplyFrame(code, data, ck1, ck2));
  }

  /**
   * The latch in action: a data byte in 0x3A..0x3F overrides the reply's
   * type code, so for instance a track count of 58 decodes as event 1.
   */
  lemma EventDataOverridesType(buf: seq<Byte>, s: seq<Byte>, code: Byte, data: Byte, ck1: Byte, ck2: Byte)
    requires |buf| == AnswerBufferSize && Fits(s)
    requires code != StartByte && ck1 != StartByte && ck2 != StartByte
    requires IsEventCode(data) && !IsEventCode(ck1) && !IsEventCode(ck2)
    ensures Fits(s + ReplyFrame(code, data, ck1, ck2))
    ensures AnswerOf(Received(buf, s + ReplyFrame(code, data, ck1, ck2))) == data - EvDevInserted + 1
  {
    ReplySlotThree(code, data, ck1, ck2);
    LastFrameDecides(buf, s, ReplyFrame(code, data, ck1, ck2));
  }

  /** The volume reply 7E FF 06 43 00 00 1E FE BA EF, on a fresh buffer, decodes to 30. */
  lemma VolumeReplyScenario()
    ensures Fits(ReplyFrame(QryVolume, 0x1E, 0xFE, 0xBA))
    ensures AnswerOf(Received(EmptyAnswerBuffer(), ReplyFrame(QryVolume, 0x1E, 0xFE, 0xBA))) == 0x1E
  {
    ReplyRoundTrip(EmptyAnswerBuffer(), [], QryVolume, 0x1E, 0xFE, 0xBA);
    assert [] + ReplyFrame(QryVolume, 0x1E, 0xFE, 0xBA) == ReplyFrame(QryVolume, 0x1E, 0xFE, 0xBA);
  }

  /**
   * A start byte mid-stream: after a partial frame, the 8-byte status frame
   * 7E FF 06 42 00 00 01 EF decodes as "playing" (0x0B) from its own bytes.
   */
  lemma MidStreamStartScenario(buf: seq<Byte>, partial: seq<Byte>)
    requires |buf| == AnswerBufferSize && Fits(partial)
    ensures Fits(partial + [StartByte, AddrByte, LenByte, QryStatus, 0, 0, 1, EndByte])
    ensures AnswerOf(Received(buf, partial + [StartByte, AddrByte, LenByte, QryStatus, 0, 0, 1, EndByte])) == 0x0B
  {
    var f := [StartByte, AddrByte, LenByte, QryStatus, 0, 0, 1, EndByte];
    assert IsFrame(f);
    LastFrameDecides(buf, partial, f);
    SlotThreeAt(f, 3, 0);
  }

  /**
   * Slots past a short frame are not cleared: a 7-byte volume answer
   * after a full reply decodes with the new data, but slots 7..9 keep the
   * old reply's checksum and end bytes.
   */
  lemma StaleTailScenario(d1: Byte, d2: Byte)
    requires d1 != StartByte && d2 != StartByte && !IsEventCode(d1) && !IsEventCode(d2)
    ensures Fits(ReplyFrame(QryVolume, d1, 0xFE, 0xBA) + [StartByte, AddrByte, LenByte, QryVolume, 0, 0, d2])
    ensures var r := Received(EmptyAnswerBuffer(), ReplyFrame(QryVolume, d1, 0xFE, 0xBA) + [StartByte, AddrByte, LenByte, QryVolume, 0, 0, d2]);
            AnswerOf(r) == d2 && r[7..10] == [0xFE, 0xBA, EndByte]
  {
    var first := ReplyFrame(QryVolume, d1, 0xFE, 0xBA);
    var second := [StartByte, AddrByte, LenByte, QryVolume, 0, 0, d2];
    assert IsFrame(first) && IsFrame(second);
    FrameAssembly(EmptyAnswerBuffer(), first);
    FrameAssembly(Received(EmptyAnswerBuffer(), first), second);
    FrameFits(first);
    FrameFits(second);
    ReceivedAfterStart(EmptyAnswerBuffer(), first, second);
    SlotThreeAt(second, 3, 0);
    var mid := Received(EmptyAnswerBuffer(), first);
    SlotThreeIgnoresBefore(second, mid[3], 0);
    assert mid[7] == 0xFE && mid[8] == 0xBA && mid[9] == EndByte;
    var r := Received(mid, second);
    assert r[7] == mid[7] && r[8] == mid[8] && r[9] == mid[9];
  }

  // ---------------------------------------------------------------------------
  // Hex rendering of bytes (diagnostic strings)
  // ---------------------------------------------------------------------------

  predicate IsHexDigit(c: char) {
    '0' <= c <= '9' || 'a' <= c <= 'f'
  }

  function DigitValue(c: char): int
    requires IsHexDigit(c)
  {
    if c <= '9' then c as int - '0' as int else c as int - 'a' as int + 10
  }

  /** One lower-case base-16 digit. */
  function HexDigit(n: int): (c: char)
    requires 0 <= n < 16
    ensures IsHexDigit(c) && DigitValue(c) == n
  {
    if n < 10 then (48 + n) as char else (87 + n) as char
  }

  /** Arduino's `String(b, HEX)`: lower-case base-16 digits without leading zeros. */
  function Radix16(b: Byte): (s: string)
    ensures |s| == (if b < 16 then 1 else 2)
    ensures forall i | 0 <= i < |s| :: IsHexDigit(s[i])
    ensures |s| == 1 ==> DigitValue(s[0]) == b
    ensures |s| == 2 ==> s[0] != '0' && 16 * DigitValue(s[0]) + DigitValue(s[1]) == b
  {
    if b < 16 then [HexDigit(b)] else [HexDigit(b / 16), HexDigit(b % 16)]
  }

  /**
   * `sbyte2hex`: "0X", the byte as two hex digits (a leading "0" below 16),
   * then a space; the two digits read back as the byte.
   */
  function ByteToHex(b: Byte): (s: string)
    ensures |s| == 5 && s[..2] == "0X" && s[4] == ' '
    ensures IsHexDigit(s[2]) && IsHexDigit(s[3]) && 16 * DigitValue(s[2]) + DigitValue(s[3]) == b
  {
    "0X" + (if b < 16 then "0" else "") + Radix16(b) + " "
  }

  /** Distinct bytes render differently. */
  lemma ByteToHexInjective(a: Byte, b: Byte)
    ensures ByteToHex(a) == ByteToHex(b) <==> a == b
  {
    if ByteToHex(a) == ByteToHex(b) {
      assert ByteToHex(a)[2] == ByteToHex(b)[2] && ByteToHex(a)[3] == ByteToHex(b)[3];
    }
  }

  /** The bytes of s rendered one after another, five characters each. */
  function HexString(s: seq<Byte>): (r: string)
    ensures |r| == 5 * |s|
  {
    if s == [] then "" else HexString(s[..|s| - 1]) + ByteToHex(s[|s| - 1])
  }

  /** A slice inside the left operand of a concatenation is a slice of that operand. */
  lemma SliceOfLeft(a: string, b: string, lo: nat, hi: nat)
    requires lo <= hi <= |a|
    ensures (a + b)[lo..hi] == a[lo..hi]
  {
  }

  /** The i-th five characters of HexString(s) render s[i]. */
  lemma {:induction false} HexStringAt(s: seq<Byte>, i: nat)
    requires i < |s|
    ensures HexString(s)[5 * i..5 * i + 5] == ByteToHex(s[i])
    decreases |s|
  {
    var p := s[..|s| - 1];
    var hp, last := HexString(p), ByteToHex(s[|s| - 1]);
    assert HexString(s) == hp + last;
    if i < |p| {
      HexStringAt(p, i);
      SliceOfLeft(hp, last, 5 * i, 5 * i + 5);
    } else {
      assert (hp + last)[|hp|..] == last;
    }
  }
}
