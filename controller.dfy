/**
 * The TD5580A controller object: it owns a serial stream and a 15-byte
 * receive buffer, writes command frames byte by byte, drains the module's
 * answers into the buffer and decodes them.
 */
module Controller {
  import opened Codes
  import opened Protocol

  /**
   * The serial link as two byte logs: everything the controller has written,
   * and the bytes the module has sent that are not read yet.
   */
  class SerialStream {
    var written: seq<Byte>
    var incoming: seq<Byte>

    constructor (incoming: seq<Byte>)
      ensures written == [] && this.incoming == incoming
    {
      written := [];
      this.incoming := incoming;
    }

    /** `available()`: how many bytes are waiting. */
    function Available(): nat
      reads this
    {
      |incoming|
    }

    /** `read()` of a waiting byte. */
    method Read() returns (b: Byte)
      requires incoming != []
      modifies this
      ensures b == old(incoming)[0] && incoming == old(incoming)[1..]
      ensures written == old(written)
    {
      b := incoming[0];
      incoming := incoming[1..];
    }

    /** `write(b)`. */
    method Write(b: Byte)
      modifies this
      ensures written == old(written) + [b] && incoming == old(incoming)
    {
      written := written + [b];
    }

    /** The module putting bytes on the line. */
    method Deliver(bytes: seq<Byte>)
      modifies this
      ensures incoming == old(incoming) + bytes && written == old(written)
    {
      incoming := incoming + bytes;
    }
  }

  /** The call appended exactly `frame` to the output of s and read nothing. */
  twostate predicate Sent(s: SerialStream, frame: seq<Byte>)
    reads s
  {
    s.written == old(s.written) + frame && s.incoming == old(s.incoming)
  }

  /** The call sent exactly the frame of the operation c. */
  twostate predicate Issued(s: SerialStream, c: Command)
    reads s
  {
    Sent(s, CommandFrame(RequestOf(c)))
  }

  /**
   * The call drained every waiting byte of s into buf, answered the decode
   * of the result and then cleared the type slot.
   */
  twostate predicate Answered(buf: array<Byte>, s: SerialStream, r: nat)
    requires buf.Length == AnswerBufferSize && Fits(old(s.incoming))
    reads buf, s
  {
    var got := Received(old(buf[..]), old(s.incoming));
    && r == AnswerOf(got)
    && buf[..] == got[3 := 0]
    && s.incoming == []
  }

  class TD5580A {
    var serial: SerialStream?
    var showDebugMessages: bool
    const ansbuf: array<Byte>

    ghost predicate Valid()
      reads this
    {
      ansbuf.Length == AnswerBufferSize
    }

    /** Constructed and attached to a stream with `begin`. */
    ghost predicate Ready()
      reads this
    {
      Valid() && serial != null
    }

    /** A fresh controller: zeroed receive buffer, no stream yet. */
    constructor ()
      ensures Valid() && fresh(ansbuf)
      ensures ansbuf[..] == EmptyAnswerBuffer() && AnswerOf(ansbuf[..]) == 0
      ensures serial == null && !showDebugMessages
    {
      ansbuf := new Byte[AnswerBufferSize](_ => 0);
      serial := null;
      showDebugMessages := false;
    }

    /** `showDebug`: only switches diagnostic printing. */
    method ShowDebug(on: bool)
      modifies this`showDebugMessages
      ensures showDebugMessages == on
    {
      showDebugMessages := on;
    }

    /** `begin`: attach the stream. */
    method Begin(s: SerialStream)
      modifies this`serial
      ensures serial == s
    {
      serial := s;
    }

    // -------------------------------------------------------------------------
    // Sending
    // -------------------------------------------------------------------------

    /** Fill the 8-byte frame and write it byte by byte. */
    method SendCommand(command: Byte, dat1: Byte, dat2: Byte)
      requires Ready()
      modifies serial
      ensures Sent(serial, CommandFrame(Request(command, dat1, dat2)))
    {
      var sendBuf := new Byte[8](_ => 0);
      sendBuf[0] := StartByte;
      sendBuf[1] := AddrByte;
      sendBuf[2] := LenByte;
      sendBuf[3] := command;
      sendBuf[4] := NoFeedback;
      sendBuf[5] := dat1;
      sendBuf[6] := dat2;
      sendBuf[7] := EndByte;
      ghost var frame := CommandFrame(Request(command, dat1, dat2));
      assert sendBuf[..] == frame;
      for i := 0 to 8
        modifies serial
        invariant serial.written == old(serial.written) + frame[..i]
        invariant serial.incoming == old(serial.incoming)
      {
        serial.Write(sendBuf[i]);
      }
    }

    /** One-byte command: both data bytes zero. */
    method SendCommandNoData(command: Byte)
      requires Ready()
      modifies serial
      ensures Sent(serial, CommandFrame(Request(command, 0, 0)))
    {
      SendCommand(command, 0, 0);
    }

    /** Command with one data byte: it goes in the second data slot. */
    method SendCommandData(command: Byte, dat2: Byte)
      requires Ready()
      modifies serial
      ensures Sent(serial, CommandFrame(Request(command, 0, dat2)))
    {
      SendCommand(command, 0, dat2);
    }

    method PlayNext()
      requires Ready()
      modifies serial
      ensures Issued(serial, Command.PlayNext)
    {
      SendCommandNoData(CmdNext);
    }

    method PlayPrevious()
      requires Ready()
      modifies serial
      ensures Issued(serial, Command.PlayPrevious)
    {
      SendCommandNoData(CmdPrev);
    }

    /** `play(track_num)`. */
    method Play(trackNum: Byte)
      requires Ready()
      modifies serial
      ensures Issued(serial, Command.Play(trackNum))
    {
      SendCommandData(CmdPlayN, trackNum);
    }

    method VolUp()
      requires Ready()
      modifies serial
      ensures Issued(serial, Command.VolUp)
    {
      SendCommandNoData(CmdVolUp);
    }

    method VolDown()
      requires Ready()
      modifies serial
      ensures Issued(serial, Command.VolDown)
    {
      SendCommandNoData(CmdVolDown);
    }

    method SetVol(volume: Byte)
      requires Ready()
      modifies serial
      ensures Issued(serial, Command.SetVol(volume))
    {
      SendCommandData(CmdSetVol, volume);
    }

    /** `setEq` as written: it sends the volume command code 0x06. */
    method SetEq(eq: Byte)
      requires Ready()
      modifies serial
      ensures Issued(serial, Command.SetEq(eq))
      ensures Sent(serial, CommandFrame(Request(CmdSetVol, 0, eq)))
    {
      SendCommandData(CmdSetVol, eq);
    }

    method PlaySL(trackNum: Byte)
      requires Ready()
      modifies serial
      ensures Issued(serial, Command.PlaySL(trackNum))
    {
      SendCommandData(CmdPlaySLoop, trackNum);
    }

    method SetSource(src: Byte)
      requires Ready()
      modifies serial
      ensures Issued(serial, Command.SetSource(src))
    {
      SendCommandData(CmdSetSource, src);
    }

    method SetSleep()
      requires Ready()
      modifies serial
      ensures Issued(serial, Command.SetSleep)
    {
      SendCommandNoData(CmdSleepMode);
    }

    method Reset()
      requires Ready()
      modifies serial
      ensures Issued(serial, Command.Reset)
    {
      SendCommandNoData(CmdReset);
    }

    /** `play()` without a track: resume playback. */
    method Resume()
      requires Ready()
      modifies serial
      ensures Issued(serial, Command.Resume)
    {
      SendCommandNoData(CmdPlay);
    }

    method Pause()
      requires Ready()
      modifies serial
      ensures Issued(serial, Command.Pause)
    {
      SendCommandNoData(CmdPause);
    }

    /** `playF(f, n)`: folder in the first data byte, file in the second. */
    method PlayF(folder: Byte, file: Byte)
      requires Ready()
      modifies serial
      ensures Issued(serial, Command.PlayF(folder, file))
    {
      SendCommand(CmdPlayFolderFile, folder, file);
    }

    method PlayAllLoop()
      requires Ready()
      modifies serial
      ensures Issued(serial, Command.PlayAllLoop)
    {
      SendCommandNoData(CmdPlayLoops);
    }

    method SetFolder(folder: Byte)
      requires Ready()
      modifies serial
      ensures Issued(serial, Command.SetFolder(folder))
    {
      SendCommandData(CmdSetFolder, folder);
    }

    method InsertAdvert(advert: Byte)
      requires Ready()
      modifies serial
      ensures Issued(serial, Command.InsertAdvert(advert))
    {
      SendCommandData(CmdPlayAdvert, advert);
    }

    method StopAdverts()
      requires Ready()
      modifies serial
      ensures Issued(serial, Command.StopAdverts)
    {
      SendCommandNoData(CmdStopAdverts);
    }

    method Stop()
      requires Ready()
      modifies serial
      ensures Issued(serial, Command.Stop)
    {
      SendCommandNoData(CmdStopPlay);
    }

    /** `loopFolder(f)`: the folder goes in the FIRST data byte. */
    method LoopFolder(folder: Byte)
      requires Ready()
      modifies serial
      ensures Issued(serial, Command.LoopFolder(folder))
    {
      SendCommand(CmdFolderCycle, folder, 0);
    }

    method PlayShuffle()
      requires Ready()
      modifies serial
      ensures Issued(serial, Command.PlayShuffle)
    {
      SendCommandNoData(CmdPlayShuffle);
    }

    /** `playL(on)`: data 0 turns single-track loop on, 1 turns it off. */
    method PlayL(on: bool)
      requires Ready()
      modifies serial
      ensures Issued(serial, Command.PlayL(on))
      ensures Sent(serial, CommandFrame(Request(CmdSetSinglePlay, 0, if on then 0 else 1)))
    {
      if on {
        SendCommand(CmdSetSinglePlay, 0, 0);
      } else {
        SendCommand(CmdSetSinglePlay, 0, 1);
      }
    }

    method SetDacHighImp(level: Byte)
      requires Ready()
      modifies serial
      ensures Issued(serial, Command.SetDacHighImp(level))
    {
      SendCommandData(CmdDacImpHigh, level);
    }

    method SetPowerOnVol(volume: Byte)
      requires Ready()
      modifies serial
      ensures Issued(serial, Command.SetPowerOnVol(volume))
    {
      SendCommandData(CmdPowerOnVolMem, volume);
    }

    /** `sleep`: the same frame as `setSleep`. */
    method Sleep()
      requires Ready()
      modifies serial
      ensures Issued(serial, Command.Sleep) && Issued(serial, Command.SetSleep)
    {
      SendCommandNoData(CmdSleepMode);
    }

    method Wakeup()
      requires Ready()
      modifies serial
      ensures Issued(serial, Command.Wakeup)
    {
      SendCommandNoData(CmdWakeUp);
    }

    // -------------------------------------------------------------------------
    // Receiving and decoding
    // -------------------------------------------------------------------------

    /**
     * `sanswer`: drain every waiting byte into `ansbuf`. A start byte resets
     * the index to 0; each byte is stored at the index, which then advances;
     * an event code is also copied into slot 3. Returns the hex rendering of
     * the bytes since the last start byte.
     */
    method SAnswer() returns (answer: string)
      requires Ready() && Fits(serial.incoming)
      modifies serial, ansbuf
      ensures ansbuf[..] == Received(old(ansbuf[..]), old(serial.incoming))
      ensures serial.incoming == [] && serial.written == old(serial.written)
      ensures answer == HexString(CurrentRun(old(serial.incoming)))
    {
      answer := "";
      var iansidx := 0;
      ghost var buf0, input := ansbuf[..], serial.incoming;
      ghost var k := 0;
      while serial.Available() > 0
        invariant k <= |input| && serial.incoming == input[k..]
        invariant serial.written == old(serial.written)
        invariant Fits(input[..k]) && iansidx == |CurrentRun(input[..k])|
        invariant ansbuf[..] == Received(buf0, input[..k])
        invariant answer == HexString(CurrentRun(input[..k]))
        decreases |serial.incoming|
      {
        var b := serial.Read();
        ReceiveStep(buf0, input, k);
        k := k + 1;
        if b == StartByte { iansidx := 0; answer := ""; }
        StoreByte(iansidx, b);
        answer := answer + ByteToHex(b);
        iansidx := iansidx + 1;
      }
      assert input[..k] == input;
    }

    /** One byte into the receive buffer, as the loop body of `SAnswer` stores it. */
    method StoreByte(i: nat, b: Byte)
      requires Valid() && i < AnswerBufferSize
      modifies ansbuf
      ensures ansbuf[..] == Store(old(ansbuf[..]), i, b)
    {
      ansbuf[i] := b;
      if EvDevInserted <= b <= EvSendInitParms { ansbuf[3] := b; }
    }

    method MP3Answer() returns (r: nat)
      requires Ready() && Fits(serial.incoming)
      modifies serial, ansbuf
      ensures Answered(ansbuf, serial, r) && serial.written == old(serial.written)
      ensures r <= 255 && ansbuf[3] == 0 && AnswerOf(ansbuf[..]) == 0
    {
      var answer := SAnswer();
      r := DecodeAnswer(ansbuf[3], ansbuf[6]);
      ansbuf[3] := 0;
    }

    /** `qStatus`: send the status query, then decode what arrived. */
    method QStatus() returns (r: nat)
      requires Ready() && Fits(serial.incoming)
      modifies serial, ansbuf
      ensures serial.written == old(serial.written) + CommandFrame(RequestOf(QueryStatus))
      ensures Answered(ansbuf, serial, r)
    {
      SendCommandNoData(QryStatus);
      r := MP3Answer();
    }

    /** `qVolume`. */
    method QVolume() returns (r: nat)
      requires Ready() && Fits(serial.incoming)
      modifies serial, ansbuf
      ensures serial.written == old(serial.written) + CommandFrame(RequestOf(QueryVolume))
      ensures Answered(ansbuf, serial, r)
    {
      SendCommandNoData(QryVolume);
      r := MP3Answer();
    }

    /** `qFTracks`. */
    method QFTracks() returns (r: nat)
      requires Ready() && Fits(serial.incoming)
      modifies serial, ansbuf
      ensures serial.written == old(serial.written) + CommandFrame(RequestOf(QueryFolderTracks))
      ensures Answered(ansbuf, serial, r)
    {
      SendCommandNoData(CmdQueryFolderTracks);
      r := MP3Answer();
    }

    /** `qTTracks`: code 0x48, which the decoder reads as a file count. */
    method QTTracks() returns (r: nat)
      requires Ready() && Fits(serial.incoming)
      modifies serial, ansbuf
      ensures serial.written == old(serial.written) + CommandFrame(RequestOf(QueryTotalTracks))
      ensures Answered(ansbuf, serial, r)
    {
      SendCommandNoData(CmdQueryTotalTracks);
      r := MP3Answer();
    }

    /** `qTFolders`. */
    method QTFolders() returns (r: nat)
      requires Ready() && Fits(serial.incoming)
      modifies serial, ansbuf
      ensures serial.written == old(serial.written) + CommandFrame(RequestOf(QueryFolders))
      ensures Answered(ansbuf, serial, r)
    {
      SendCommandNoData(CmdQueryFolderCount);
      r := MP3Answer();
    }
  }

  /**
   * A client: the module has answered a volume query with
   * 7E FF 06 43 00 00 1E FE BA EF; `qVolume` writes one query frame and
   * reports 30, and a second decode with nothing new reports 0.
   */
  method VolumeQueryClient() returns (volume: nat, again: nat, sent: seq<Byte>)
    ensures volume == 0x1E && again == 0
    ensures sent == [0x7E, 0xFF, 0x06, 0x43, 0x00, 0x00, 0x00, 0xEF]
  {
    var link := new SerialStream([]);
    var mp3 := new TD5580A();
    mp3.Begin(link);
    link.Deliver(ReplyFrame(QryVolume, 0x1E, 0xFE, 0xBA));
    VolumeReplyScenario();
    assert link.incoming == ReplyFrame(QryVolume, 0x1E, 0xFE, 0xBA);
    volume := mp3.QVolume();
    sent := link.written;
    again := mp3.MP3Answer();
  }
}
