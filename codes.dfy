/**
 * The command and response codes of the TD5580A / DFPlayer serial protocol,
 * and the fixed bytes of its frame envelope, as the library header defines them.
 */
module Codes {

  /** An 8-bit unsigned value, the Arduino `byte`. */
  type Byte = b: int | 0 <= b < 256

  // Frame envelope
  const StartByte: Byte := 0x7E   // HEAD
  const AddrByte: Byte := 0xFF    // ADDR
  const LenByte: Byte := 0x06     // LEN
  const NoFeedback: Byte := 0x00  // ACK: no feedback requested
  const EndByte: Byte := 0xEF     // END

  /** Number of bytes in the receive buffer `ansbuf`. */
  const AnswerBufferSize: nat := 15

  // Control commands
  const CmdNext: Byte := 0x01
  const CmdPrev: Byte := 0x02
  const CmdPlayN: Byte := 0x03
  const CmdVolUp: Byte := 0x04
  const CmdVolDown: Byte := 0x05
  const CmdSetVol: Byte := 0x06
  const CmdSetEq: Byte := 0x07
  const CmdPlaySLoop: Byte := 0x08
  const CmdSetSource: Byte := 0x09
  const CmdSleepMode: Byte := 0x0A
  const CmdWakeUp: Byte := 0x0B
  const CmdReset: Byte := 0x0C
  const CmdPlay: Byte := 0x0D
  const CmdPause: Byte := 0x0E
  const CmdPlayFolderFile: Byte := 0x0F
  const CmdPlayLoops: Byte := 0x11
  const CmdSetFolder: Byte := 0x12
  const CmdPlayAdvert: Byte := 0x13
  const CmdStopAdverts: Byte := 0x15
  const CmdStopPlay: Byte := 0x16
  const CmdFolderCycle: Byte := 0x17
  const CmdPlayShuffle: Byte := 0x18
  const CmdSetSinglePlay: Byte := 0x19
  const CmdDacImpHigh: Byte := 0x1A
  const CmdPowerOnVolMem: Byte := 0x1B

  // Device events, reported unprompted by the module
  const EvDevInserted: Byte := 0x3A
  const EvDevUnplugged: Byte := 0x3B
  const EvUdiskCompleted: Byte := 0x3C
  const EvTfSdCompleted: Byte := 0x3D
  const EvFlashCompleted: Byte := 0x3E
  const EvSendInitParms: Byte := 0x3F

  // Status and query responses
  const RspErrorResend: Byte := 0x40
  const RspResponse: Byte := 0x41
  const QryStatus: Byte := 0x42
  const QryVolume: Byte := 0x43
  const QryTotalFilesTfc: Byte := 0x48
  const QryTrackSdCard: Byte := 0x4C
  const CmdQueryFolderTracks: Byte := 0x4E
  const CmdQueryTotalTracks: Byte := 0x48
  const CmdQueryFolderCount: Byte := 0x4F

  /** The six device-event codes; the receiver latches any such byte into slot 3. */
  predicate IsEventCode(b: Byte) {
    EvDevInserted <= b <= EvSendInitParms
  }

  /** The response codes whose answer is the data byte itself. */
  predicate IsDataQuery(b: Byte) {
    b == QryVolume || b == QryTotalFilesTfc || b == QryTrackSdCard
    || b == CmdQueryFolderTracks || b == CmdQueryFolderCount
  }

  /**
   * Facts the header fixes: volume and equalisation are distinct codes, the
   * total-tracks query shares its code with the TF/SD file-count response, and
   * the event codes are exactly the six named constants.
   */
  lemma HeaderFacts()
    ensures CmdSetVol != CmdSetEq
    ensures CmdQueryTotalTracks == QryTotalFilesTfc && IsDataQuery(CmdQueryTotalTracks)
    ensures forall b: Byte :: IsEventCode(b) <==>
      b == EvDevInserted || b == EvDevUnplugged || b == EvUdiskCompleted
      || b == EvTfSdCompleted || b == EvFlashCompleted || b == EvSendInitParms
    ensures !IsEventCode(StartByte) && !IsEventCode(AddrByte) && !IsEventCode(LenByte)
    ensures !IsEventCode(NoFeedback) && !IsEventCode(EndByte)
  {
  }
}
