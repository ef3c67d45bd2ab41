/**
 * The `DFPlayerMini` facade: a thin guard around the DFRobot driver that
 * latches an online flag in `begin` and forwards the playback operations to
 * the driver only while that flag is set.
 *
 * The third-party driver and the ESP32 serial port are not modelled in their
 * workings: each is an object that records the calls it receives, and the
 * driver answers `begin` and `readState` from oracle fields the environment
 * sets.
 */
module Facade {

  /** Baud rate the facade opens the port at. */
  const PlayerBaud: int := 9600
  /** Volume set right after a successful `begin`. */
  const DefaultVolume: int := 20
  /** Track looped right after a successful `begin`. */
  const DefaultTrack: int := 1
  /** Bounds `set_volume` constrains its argument to. */
  const MinVolume: int := 0
  const MaxVolume: int := 30
  /** `readState` value the facade reads as "playing". */
  const PlayingState: int := 1
  /** Default ESP32 pins: rx is wired to the player's TX, tx to its RX. */
  const DefaultRxPin: int := 20
  const DefaultTxPin: int := 21

  /** A call the facade makes on the driver. */
  datatype DriverCall = Begin | Volume(level: int) | Loop(track: int) | Stop | ReadState

  /** Character framing of the serial port; the facade always asks for 8N1. */
  datatype Framing = Serial8N1

  /** One `begin` call on the hardware serial port. */
  datatype PortConfig = PortConfig(baud: int, framing: Framing, rxPin: int, txPin: int)

  /** The ESP32 hardware serial port, seen through the configurations it is given. */
  class HardwareSerial {
    var configs: seq<PortConfig>

    constructor()
      ensures configs == []
    {
      configs := [];
    }

    method Begin(baud: int, framing: Framing, rxPin: int, txPin: int)
      modifies this
      ensures configs == old(configs) + [PortConfig(baud, framing, rxPin, txPin)]
    {
      configs := configs + [PortConfig(baud, framing, rxPin, txPin)];
    }
  }

  /**
   * The DFRobot driver, seen through the calls it receives. `beginSucceeds`
   * and `state` stand for what the module would answer.
   */
  class PlayerDriver {
    var calls: seq<DriverCall>
    var beginSucceeds: bool
    var state: int

    constructor(beginSucceeds: bool, state: int)
      ensures calls == [] && this.beginSucceeds == beginSucceeds && this.state == state
    {
      calls := [];
      this.beginSucceeds := beginSucceeds;
      this.state := state;
    }

    method Begin(port: HardwareSerial) returns (ok: bool)
      modifies this
      ensures calls == old(calls) + [DriverCall.Begin] && ok == beginSucceeds
      ensures beginSucceeds == old(beginSucceeds) && state == old(state)
    {
      calls := calls + [DriverCall.Begin];
      ok := beginSucceeds;
    }

    method Volume(level: int)
      modifies this
      ensures calls == old(calls) + [DriverCall.Volume(level)]
      ensures beginSucceeds == old(beginSucceeds) && state == old(state)
    {
      calls := calls + [DriverCall.Volume(level)];
    }

    method Loop(track: int)
      modifies this
      ensures calls == old(calls) + [DriverCall.Loop(track)]
      ensures beginSucceeds == old(beginSucceeds) && state == old(state)
    {
      calls := calls + [DriverCall.Loop(track)];
    }

    method Stop()
      modifies this
      ensures calls == old(calls) + [DriverCall.Stop]
      ensures beginSucceeds == old(beginSucceeds) && state == old(state)
    {
      calls := calls + [DriverCall.Stop];
    }

    method ReadState() returns (s: int)
      modifies this
      ensures calls == old(calls) + [DriverCall.ReadState] && s == state
      ensures beginSucceeds == old(beginSucceeds) && state == old(state)
    {
      calls := calls + [DriverCall.ReadState];
      s := state;
    }
  }

  /** Arduino's `constrain`: x clamped into lo..hi. */
  function Constrain(x: int, lo: int, hi: int): (r: int)
    requires lo <= hi
    ensures lo <= r <= hi
    ensures r == x <==> lo <= x <= hi
    ensures x < lo ==> r == lo
    ensures hi < x ==> r == hi
  {
    if x < lo then lo else if x > hi then hi else x
  }

  /** The operations a client can ask of a player once it is constructed. */
  datatype Op = SetVolume(volume: int) | LoopTrack(track: int) | StopPlaying | IsPlaying

  /** The driver calls one operation makes, given the online flag at the time. */
  function Issues(online: bool, op: Op): (r: seq<DriverCall>)
    ensures !online ==> r == []
    ensures |r| <= 1 && DriverCall.Begin !in r
    ensures op.LoopTrack? ==> (r != [] <==> online && op.track > 0)
    ensures r != [] && op.LoopTrack? ==> r == [DriverCall.Loop(op.track)]
    ensures online && op.SetVolume? ==> r == [DriverCall.Volume(Constrain(op.volume, MinVolume, MaxVolume))]
    ensures online && op.StopPlaying? ==> r == [DriverCall.Stop]
    ensures online && op.IsPlaying? ==> r == [DriverCall.ReadState]
  {
    if !online then []
    else
      match op
      case SetVolume(v) => [DriverCall.Volume(Constrain(v, MinVolume, MaxVolume))]
      case LoopTrack(t) => if t > 0 then [DriverCall.Loop(t)] else []
      case StopPlaying => [DriverCall.Stop]
      case IsPlaying => [DriverCall.ReadState]
  }

  /** The driver calls a sequence of operations makes; none of them changes the flag. */
  function Run(online: bool, ops: seq<Op>): seq<DriverCall>
  {
    if ops == [] then [] else Issues(online, ops[0]) + Run(online, ops[1..])
  }

  /**
   * Two volume requests to an online player reach the driver as the same
   * call exactly when they are equal, or both at or below 0, or both at or
   * above 30.
   */
  lemma SameVolumeCallIff(v1: int, v2: int)
    ensures Issues(true, SetVolume(v1)) == Issues(true, SetVolume(v2))
            <==> v1 == v2 || (v1 <= MinVolume && v2 <= MinVolume) || (v1 >= MaxVolume && v2 >= MaxVolume)
  {
  }

  /**
   * The calls the facade can make on the driver: volumes within 0..30 and
   * positive tracks only.
   */
  predicate InRange(call: DriverCall) {
    match call
    case Volume(v) => MinVolume <= v <= MaxVolume
    case Loop(t) => t > 0
    case _ => true
  }

  predicate AllInRange(calls: seq<DriverCall>) {
    forall i | 0 <= i < |calls| :: InRange(calls[i])
  }

  /** A player that was never brought online makes no driver call, whatever it is asked. */
  lemma {:induction false} OfflineIsSilent(ops: seq<Op>)
    ensures Run(false, ops) == []
    decreases |ops|
  {
    if ops != [] {
      OfflineIsSilent(ops[1..]);
    }
  }

  /** No sequence of operations sends an out-of-range volume or a non-positive track. */
  lemma {:induction false} RunInRange(online: bool, ops: seq<Op>)
    ensures AllInRange(Run(online, ops))
    ensures DriverCall.Begin !in Run(online, ops)
    ensures |Run(online, ops)| <= |ops|
    decreases |ops|
  {
    if ops != [] {
      RunInRange(online, ops[1..]);
      var r := Run(online, ops);
      assert r == Issues(online, ops[0]) + Run(online, ops[1..]);
    }
  }

  /** The calls a successful `begin` makes: the default volume, then the default track. */
  lemma StartupInRange()
    ensures AllInRange([DriverCall.Begin, DriverCall.Volume(DefaultVolume), DriverCall.Loop(DefaultTrack)])
  {
  }

  /** Sequences of in-range calls compose. */
  lemma AllInRangeConcat(a: seq<DriverCall>, b: seq<DriverCall>)
    requires AllInRange(a) && AllInRange(b)
    ensures AllInRange(a + b)
  {
    forall i | 0 <= i < |a + b|
      ensures InRange((a + b)[i])
    {
      if i >= |a| {
        assert (a + b)[i] == b[i - |a|];
      }
    }
  }

  /** The guarded player facade. */
  class DFPlayerMini {
    const esp32Rx: int
    const esp32Tx: int
    var isOnline: bool
    const serial: HardwareSerial
    const driver: PlayerDriver

    /**
     * Every call this player has made on its driver is in range, provided the
     * driver started from calls in range (a fresh driver has none).
     */
    ghost predicate Valid()
      reads this, driver
    {
      AllInRange(driver.calls)
    }

    /** A new player is offline and has touched neither the port nor the driver. */
    constructor(driver: PlayerDriver, serial: HardwareSerial,
                esp32Rx: int := DefaultRxPin, esp32Tx: int := DefaultTxPin)
      ensures this.driver == driver && this.serial == serial
      ensures this.esp32Rx == esp32Rx && this.esp32Tx == esp32Tx
      ensures !isOnline
      ensures AllInRange(driver.calls) ==> Valid()
    {
      this.esp32Rx := esp32Rx;
      this.esp32Tx := esp32Tx;
      this.serial := serial;
      this.driver := driver;
      isOnline := false;
    }

    /**
     * Opens the port at 9600 baud 8N1 on the configured pins, then starts the
     * driver; online, with volume 20 and track 1 looping, exactly when the
     * driver's `begin` succeeds. The five-second boot wait is not modelled.
     */
    method Begin() returns (ok: bool)
      requires Valid()
      modifies this, serial, driver
      ensures Valid()
      ensures serial.configs == old(serial.configs) + [PortConfig(PlayerBaud, Serial8N1, esp32Rx, esp32Tx)]
      ensures ok == old(driver.beginSucceeds) && isOnline == ok
      ensures driver.calls == old(driver.calls) + [DriverCall.Begin]
                + (if ok then [DriverCall.Volume(DefaultVolume), DriverCall.Loop(DefaultTrack)] else [])
      ensures driver.beginSucceeds == old(driver.beginSucceeds) && driver.state == old(driver.state)
    {
      serial.Begin(PlayerBaud, Serial8N1, esp32Rx, esp32Tx);
      var started := driver.Begin(serial);
      if !started {
        isOnline := false;
        StartupInRange();
        AllInRangeConcat(old(driver.calls), [DriverCall.Begin]);
        return false;
      }
      driver.Volume(DefaultVolume);
      driver.Loop(DefaultTrack);
      isOnline := true;
      StartupInRange();
      AllInRangeConcat(old(driver.calls),
        [DriverCall.Begin, DriverCall.Volume(DefaultVolume), DriverCall.Loop(DefaultTrack)]);
      return true;
    }

    /** When online, sets the volume clamped to 0..30; when offline, does nothing. */
    method SetVolume(volume: int)
      requires Valid()
      modifies driver
      ensures Valid()
      ensures driver.calls == old(driver.calls) + Issues(isOnline, Op.SetVolume(volume))
      ensures driver.beginSucceeds == old(driver.beginSucceeds) && driver.state == old(driver.state)
    {
      if isOnline {
        var vol := Constrain(volume, MinVolume, MaxVolume);
        driver.Volume(vol);
        AllInRangeConcat(old(driver.calls), [DriverCall.Volume(vol)]);
      }
    }

    /** When online and the track is positive, loops that track; otherwise does nothing. */
    method LoopTrack(track: int)
      requires Valid()
      modifies driver
      ensures Valid()
      ensures driver.calls == old(driver.calls) + Issues(isOnline, Op.LoopTrack(track))
      ensures driver.beginSucceeds == old(driver.beginSucceeds) && driver.state == old(driver.state)
    {
      if isOnline && track > 0 {
        driver.Loop(track);
        AllInRangeConcat(old(driver.calls), [DriverCall.Loop(track)]);
      }
    }

    /** When online, stops playback; when offline, does nothing. */
    method StopPlaying()
      requires Valid()
      modifies driver
      ensures Valid()
      ensures driver.calls == old(driver.calls) + Issues(isOnline, Op.StopPlaying)
      ensures driver.beginSucceeds == old(driver.beginSucceeds) && driver.state == old(driver.state)
    {
      if isOnline {
        driver.Stop();
        AllInRangeConcat(old(driver.calls), [DriverCall.Stop]);
      }
    }

    /** Playing exactly when online and the driver reports state 1; asks the driver only when online. */
    method IsPlaying() returns (playing: bool)
      requires Valid()
      modifies driver
      ensures Valid()
      ensures playing <==> isOnline && driver.state == PlayingState
      ensures driver.calls == old(driver.calls) + Issues(isOnline, Op.IsPlaying)
      ensures driver.beginSucceeds == old(driver.beginSucceeds) && driver.state == old(driver.state)
    {
      if isOnline {
        var s := driver.ReadState();
        AllInRangeConcat(old(driver.calls), [DriverCall.ReadState]);
        return s == PlayingState;
      }
      return false;
    }

    /** The online flag; reads only. */
    method IsOnline() returns (online: bool)
      ensures online == isOnline
    {
      return isOnline;
    }
  }

  /**
   * The firmware's global player is built with the default pins and never
   * started: it reports offline, and even a direct track request or playing
   * query reaches neither the port nor the driver.
   */
  method OfflineHandlers(track: int) returns (online: bool, playing: bool, calls: seq<DriverCall>, configs: seq<PortConfig>)
    ensures !online && !playing && calls == [] && configs == []
  {
    var port := new HardwareSerial();
    var driver := new PlayerDriver(true, PlayingState);
    var player := new DFPlayerMini(driver, port);
    assert player.esp32Rx == DefaultRxPin && player.esp32Tx == DefaultTxPin;
    online := player.IsOnline();
    player.LoopTrack(track);
    playing := player.IsPlaying();
    OfflineIsSilent([Op.LoopTrack(track), Op.IsPlaying]);
    calls, configs := driver.calls, port.configs;
  }

  /**
   * A started player with a driver that answers: `begin` issues the start-up
   * calls, after which a volume of 45 reaches the driver as 30.
   */
  method StartedSession() returns (ok: bool, playing: bool, calls: seq<DriverCall>, configs: seq<PortConfig>)
    ensures ok && playing
    ensures configs == [PortConfig(9600, Serial8N1, 16, 17)]
    ensures calls == [DriverCall.Begin, DriverCall.Volume(20), DriverCall.Loop(1),
                      DriverCall.Volume(30), DriverCall.ReadState]
  {
    var port := new HardwareSerial();
    var driver := new PlayerDriver(true, PlayingState);
    var player := new DFPlayerMini(driver, port, 16, 17);
    ok := player.Begin();
    player.SetVolume(45);
    playing := player.IsPlaying();
    calls, configs := driver.calls, port.configs;
  }
}
