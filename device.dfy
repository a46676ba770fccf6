/** The simulated Control Unit's mutable state (`ControlUnitState`, mock.py). */
module Device {
  import opened Base

  /** A pending lap-timing event: a car crossed a sector line at a race-clock instant. */
  datatype TimerEvent = TimerEvent(address: int, timestamp: int, sector: int)

  /**
   * The race clock read at wall-clock instant `now` (milliseconds). Before the first
   * reset there is no epoch and the stored value is returned as it is; afterwards the
   * elapsed time is added and the sum wraps at 2^32.
   */
  function ClockReading(base: int, epoch: Option<int>, now: int): (t: int)
    ensures epoch.Some? ==> 0 <= t < Modulus32
    ensures epoch.Some? ==> (t - (base + now - epoch.value)) % Modulus32 == 0
    ensures epoch.None? ==> t == base
  {
    match epoch
    case None => base
    case Some(e) => (base + (now - e)) % Modulus32
  }

  /** Reading the clock at the instant of a reset gives zero; later readings count up from it and wrap. */
  lemma ClockAfterReset(resetAt: int, elapsed: nat)
    ensures ClockReading(0, Some(resetAt), resetAt) == 0
    ensures ClockReading(0, Some(resetAt), resetAt + elapsed) == elapsed % Modulus32
    ensures elapsed < Modulus32 ==> ClockReading(0, Some(resetAt), resetAt + elapsed) == elapsed
  {
  }

  /** The clock wraps without error: one millisecond after 2^32 - 1 it reads 0. */
  lemma ClockWraps(base: int, epoch: int)
    requires base == Modulus32 - 1
    ensures ClockReading(base, Some(epoch), epoch) == Modulus32 - 1
    ensures ClockReading(base, Some(epoch), epoch + 1) == 0
  {
  }

  /** One register per controller slot in each per-controller table. */
  ghost predicate WellSized(fuel: seq<int>, speed: seq<int>, brake: seq<int>, position: seq<int>, pit: seq<bool>) {
    |fuel| == Slots && |speed| == Slots && |brake| == Slots &&
    |position| == Slots && |pit| == Slots
  }

  /** Every mutable field of the device, as one value. */
  datatype DeviceView = DeviceView(
    fuel: seq<int>, speed: seq<int>, brake: seq<int>, position: seq<int>,
    start: int, mode: int, pit: seq<bool>, display: int, isPaused: bool,
    timestamp: int, startTime: Option<int>, timerEvents: seq<TimerEvent>)
  {
    ghost predicate Valid() {
      WellSized(fuel, speed, brake, position, pit)
    }
  }

  class ControlUnitState {
    // per-controller registers, one slot per address 0..7
    var fuel: seq<int>
    var speed: seq<int>
    var brake: seq<int>
    var position: seq<int>
    // race state
    var start: int
    var mode: int
    var pit: seq<bool>
    var display: int
    var isPaused: bool
    // timing: stored base value and, once reset, the wall-clock epoch
    var timestamp: int
    var startTime: Option<int>
    const version: string
    // pending timer events, oldest first
    var timerEvents: seq<TimerEvent>

    ghost predicate Valid()
      reads this
    {
      WellSized(fuel, speed, brake, position, pit)
    }

    function View(): DeviceView
      reads this
    {
      DeviceView(fuel, speed, brake, position, start, mode, pit, display, isPaused,
                 timestamp, startTime, timerEvents)
    }

    /** A fresh device: full tanks, middle speed and brake, lights off, clock at zero. */
    constructor (version: string)
      ensures Valid() && this.version == version
      ensures fuel == seq(8, _ => 15) && speed == seq(8, _ => 8) && brake == seq(8, _ => 8)
      ensures position == seq(8, _ => 0) && pit == seq(8, _ => false)
      ensures start == 0 && mode == 0 && display == 8 && !isPaused
      ensures timestamp == 0 && startTime == None && timerEvents == []
    {
      fuel := seq(8, _ => 15);
      speed := seq(8, _ => 8);
      brake := seq(8, _ => 8);
      position := seq(8, _ => 0);
      start := 0;
      mode := 0;
      pit := seq(8, _ => false);
      display := 8;
      isPaused := false;
      timestamp := 0;
      startTime := None;
      this.version := version;
      timerEvents := [];
    }

    /** `get_timestamp`: the race clock at wall-clock instant `now`. */
    method GetTimestamp(now: int) returns (t: int)
      ensures t == ClockReading(timestamp, startTime, now)
      ensures startTime.Some? ==> 0 <= t < Modulus32
    {
      match startTime
      case None => t := timestamp;
      case Some(e) =>
        var elapsed := now - e;
        t := (timestamp + elapsed) % Modulus32;
    }

    /** `reset_timer`: zero the base and restart the epoch at `now`; nothing else changes. */
    method ResetTimer(now: int)
      modifies this`timestamp, this`startTime
      ensures timestamp == 0 && startTime == Some(now)
      ensures ClockReading(timestamp, startTime, now) == 0
    {
      timestamp := 0;
      startTime := Some(now);
    }

    /** `add_timer_event`: append an event; without an explicit timestamp the current clock is used. */
    method AddTimerEvent(address: int, sector: int, stamp: Option<int>, now: int)
      modifies this`timerEvents
      ensures timerEvents == old(timerEvents) + [TimerEvent(address,
        if stamp.Some? then stamp.value else ClockReading(timestamp, startTime, now), sector)]
    {
      var ts: int;
      if stamp.Some? {
        ts := stamp.value;
      } else {
        ts := GetTimestamp(now);
      }
      timerEvents := timerEvents + [TimerEvent(address, ts, sector)];
    }

    /** `has_timer_event`. */
    method HasTimerEvent() returns (b: bool)
      ensures b <==> |timerEvents| > 0
    {
      b := timerEvents != [];
    }

    /** `get_timer_event`: remove and return the oldest event, or nothing when the queue is empty. */
    method GetTimerEvent() returns (e: Option<TimerEvent>)
      modifies this`timerEvents
      ensures old(timerEvents) == [] ==> e == None && timerEvents == []
      ensures old(timerEvents) != [] ==>
        e == Some(old(timerEvents)[0]) && timerEvents == old(timerEvents)[1..]
    {
      if timerEvents == [] {
        e := None;
      } else {
        e := Some(timerEvents[0]);
        timerEvents := timerEvents[1..];
      }
    }
  }
}
