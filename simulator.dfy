/**
 * The race simulator (`RaceSimulator`, mock.py): per-car lap schedules that turn into
 * sector-1 timer events. Times are integer milliseconds of the race clock; the random lap
 * duration is a parameter `draw` giving each car some positive number of milliseconds.
 */
module Simulator {
  import opened Base
  import opened Device

  type Pos = n: int | n > 0 witness 1

  /** A car's next finish-line crossing: a race-clock instant, or never (a stopped car). */
  datatype Due = At(ms: int) | Never

  /** `_calculate_lap_time`: a car at speed 0 never completes a lap; any other car takes its draw. */
  function LapTime(speed: int, draw: Pos): (d: Due)
    ensures d == Never <==> speed == 0
    ensures d.At? ==> d.ms > 0
  {
    if speed == 0 then Never else At(draw)
  }

  /** An instant plus a lap duration; infinity absorbs. */
  function After(t: int, lap: Due): (d: Due)
    ensures lap == Never ==> d == Never
    ensures lap.At? ==> d.At? && d.ms - t == lap.ms
  {
    match lap
    case Never => Never
    case At(l) => At(t + l)
  }

  /**
   * The schedule a resumed car gets at race-clock instant `now`: a schedule that has not
   * yet passed (or is infinite) is kept; a missing or passed one becomes `now` plus a lap.
   */
  function Resumed(next: map<int, Due>, car: int, now: int, lap: Due): (d: Due)
    requires lap.At? ==> lap.ms > 0
    ensures d.At? ==> d.ms >= now
    ensures car in next && !(next[car].At? && next[car].ms < now) ==> d == next[car]
    ensures (car !in next || (next[car].At? && next[car].ms < now)) ==>
      d == After(now, lap) && (d == Never <==> lap == Never)
  {
    if car !in next || (next[car].At? && next[car].ms < now) then After(now, lap) else next[car]
  }

  /** Resuming twice at the same instant gives the same schedule as resuming once. */
  lemma ResumedIdempotent(next: map<int, Due>, car: int, now: int, lap: Due)
    requires lap.At? ==> lap.ms > 0
    ensures Resumed(next[car := Resumed(next, car, now, lap)], car, now, lap) == Resumed(next, car, now, lap)
  {
  }

  /** Whether `car` is active and its scheduled crossing has arrived at race-clock time `now`. */
  predicate IsDue(active: set<int>, next: map<int, Due>, car: int, now: int)
  {
    car in active && car in next && next[car].At? && now >= next[car].ms
  }

  /** The events one tick emits for the due cars among addresses `0..n-1`, in address order. */
  function DueEvents(active: set<int>, next: map<int, Due>, now: int, n: nat): (es: seq<TimerEvent>)
    ensures |es| <= n
    ensures forall i :: 0 <= i < |es| ==>
      0 <= es[i].address < n && IsDue(active, next, es[i].address, now) &&
      es[i].timestamp == next[es[i].address].ms % Modulus32 && es[i].sector == 1
    ensures forall i, j :: 0 <= i < j < |es| ==> es[i].address < es[j].address
  {
    if n == 0 then []
    else
      DueEvents(active, next, now, n - 1) +
      (if IsDue(active, next, n - 1, now)
       then [TimerEvent(n - 1, next[n - 1].ms % Modulus32, 1)] else [])
  }

  /** Every due car among the first `n` addresses contributes an event: nothing due is skipped. */
  lemma {:induction false} DueEventsComplete(active: set<int>, next: map<int, Due>, now: int, n: nat, car: int)
    requires 0 <= car < n && IsDue(active, next, car, now)
    ensures exists i :: (0 <= i < |DueEvents(active, next, now, n)| &&
                         DueEvents(active, next, now, n)[i].address == car)
  {
    var es0 := DueEvents(active, next, now, n - 1);
    var es := DueEvents(active, next, now, n);
    if car == n - 1 {
      assert es == es0 + [TimerEvent(n - 1, next[n - 1].ms % Modulus32, 1)];
      assert es[|es0|].address == car;
    } else {
      assert es[..|es0|] == es0;
      DueEventsComplete(active, next, now, n - 1, car);
      var i :| 0 <= i < |es0| && es0[i].address == car;
      assert es[i] == es0[i];
    }
  }

  /** Fuel consumption: one unit per lap, never below empty. */
  function Burn(f: int): (r: int)
    ensures f > 0 ==> r == f - 1
    ensures f <= 0 ==> r == 0
  {
    if f - 1 < 0 then 0 else f - 1
  }

  class RaceSimulator {
    const state: ControlUnitState
    var running: bool
    var activeCars: set<int>
    var nextLap: map<int, Due>

    constructor (state: ControlUnitState)
      ensures this.state == state && !running && activeCars == {} && nextLap == map[]
    {
      this.state := state;
      running := false;
      activeCars := {};
      nextLap := map[];
    }

    /**
     * `start`: race the listed cars (default 0 and 1) and set the race phase. A fresh start
     * resets the clock and gives each listed car one lap from zero; a resume keeps every
     * schedule still ahead of the current clock and re-plans missing or passed ones.
     */
    method Start(cars: Option<seq<int>>, resume: bool, now: int, draw: int -> Pos)
      requires state.Valid()
      requires cars.Some? ==> forall i :: 0 <= i < |cars.value| ==> 0 <= cars.value[i] < Slots
      modifies this, state`start, state`timestamp, state`startTime
      ensures state.Valid() && running && state.start == 9
      ensures var cs := if cars.Some? then cars.value else [0, 1];
        activeCars == (set i | 0 <= i < |cs| :: cs[i]) &&
        nextLap.Keys == old(nextLap).Keys + activeCars &&
        (forall c :: c in old(nextLap) && c !in cs ==> nextLap[c] == old(nextLap)[c]) &&
        (!resume ==> (state.timestamp == 0 && state.startTime == Some(now) &&
                      forall i :: 0 <= i < |cs| ==> nextLap[cs[i]] == LapTime(state.speed[cs[i]], draw(cs[i])))) &&
        (resume ==> (state.timestamp == old(state.timestamp) && state.startTime == old(state.startTime) &&
                     forall i :: 0 <= i < |cs| ==>
                       nextLap[cs[i]] == Resumed(old(nextLap), cs[i], ClockReading(state.timestamp, state.startTime, now),
                                                 LapTime(state.speed[cs[i]], draw(cs[i])))))
    {
      var cs := if cars.Some? then cars.value else [0, 1];
      activeCars := set i | 0 <= i < |cs| :: cs[i];
      running := true;
      state.start := 9;
      if !resume {
        state.ResetTimer(now);
        ScheduleFresh(cs, draw);
      } else {
        var current := state.GetTimestamp(now);
        ScheduleResumed(cs, current, draw);
      }
    }

    /** The fresh-start loop: every listed car gets one lap from zero. */
    method ScheduleFresh(cs: seq<int>, draw: int -> Pos)
      requires state.Valid() && forall i :: 0 <= i < |cs| ==> 0 <= cs[i] < Slots
      modifies this`nextLap
      ensures nextLap.Keys == old(nextLap).Keys + set i | 0 <= i < |cs| :: cs[i]
      ensures forall c :: c in old(nextLap) && c !in cs ==> nextLap[c] == old(nextLap)[c]
      ensures forall i :: 0 <= i < |cs| ==> nextLap[cs[i]] == LapTime(state.speed[cs[i]], draw(cs[i]))
    {
      for i := 0 to |cs|
        invariant nextLap.Keys == old(nextLap).Keys + set j | 0 <= j < i :: cs[j]
        invariant forall c :: c in old(nextLap) && c !in cs[..i] ==> nextLap[c] == old(nextLap)[c]
        invariant forall j :: 0 <= j < i ==> nextLap[cs[j]] == LapTime(state.speed[cs[j]], draw(cs[j]))
      {
        nextLap := nextLap[cs[i] := LapTime(state.speed[cs[i]], draw(cs[i]))];
      }
      assert cs[..|cs|] == cs;
    }

    /** The resume loop: keep schedules still ahead of `current`, re-plan missing or passed ones. */
    method ScheduleResumed(cs: seq<int>, current: int, draw: int -> Pos)
      requires state.Valid() && forall i :: 0 <= i < |cs| ==> 0 <= cs[i] < Slots
      modifies this`nextLap
      ensures nextLap.Keys == old(nextLap).Keys + set i | 0 <= i < |cs| :: cs[i]
      ensures forall c :: c in old(nextLap) && c !in cs ==> nextLap[c] == old(nextLap)[c]
      ensures forall i :: 0 <= i < |cs| ==>
        nextLap[cs[i]] == Resumed(old(nextLap), cs[i], current, LapTime(state.speed[cs[i]], draw(cs[i])))
    {
      for i := 0 to |cs|
        invariant nextLap.Keys == old(nextLap).Keys + set j | 0 <= j < i :: cs[j]
        invariant forall c :: c in old(nextLap) && c !in cs[..i] ==> nextLap[c] == old(nextLap)[c]
        invariant forall j :: 0 <= j < i ==>
          nextLap[cs[j]] == Resumed(old(nextLap), cs[j], current, LapTime(state.speed[cs[j]], draw(cs[j])))
      {
        var car := cs[i];
        if car !in nextLap || (nextLap[car].At? && nextLap[car].ms < current) {
          nextLap := nextLap[car := After(current, LapTime(state.speed[car], draw(car)))];
        }
      }
      assert cs[..|cs|] == cs;
    }

    /** `stop`: end the loop; the start-light phase and the schedules are left as they are. */
    method Stop()
      modifies this`running
      ensures !running
    {
      running := false;
    }

    /**
     * One pass of the `_run` loop at wall-clock instant `now`: every active car whose
     * crossing is due emits `(car, due mod 2^32, 1)`, in address order, is rescheduled one
     * lap after its due time and, with fuel mode on (mode bit 0), burns one unit of fuel.
     * Cars not due and the rest of the state are unchanged. A stopped simulator does nothing.
     */
    method Tick(now: int, draw: int -> Pos)
      requires state.Valid()
      modifies this`nextLap, state`timerEvents, state`fuel
      ensures state.Valid()
      ensures !running ==> (nextLap == old(nextLap) && state.timerEvents == old(state.timerEvents) &&
                            state.fuel == old(state.fuel))
      ensures running ==> (
        var clock := ClockReading(state.timestamp, state.startTime, now);
        state.timerEvents == old(state.timerEvents) + DueEvents(activeCars, old(nextLap), clock, Slots) &&
        nextLap.Keys == old(nextLap).Keys &&
        (forall c :: c in nextLap ==>
          nextLap[c] == if 0 <= c < Slots && IsDue(activeCars, old(nextLap), c, clock)
                        then After(old(nextLap)[c].ms, LapTime(state.speed[c], draw(c)))
                        else old(nextLap)[c]) &&
        (forall c :: 0 <= c < Slots ==>
          state.fuel[c] == if IsDue(activeCars, old(nextLap), c, clock) && state.mode % 2 == 1
                           then Burn(old(state.fuel)[c]) else old(state.fuel)[c]))
    {
      if !running {
        return;
      }
      var clock := state.GetTimestamp(now);
      ghost var next0 := nextLap;
      for car := 0 to Slots
        invariant state.Valid()
        invariant state.timerEvents == old(state.timerEvents) + DueEvents(activeCars, next0, clock, car)
        invariant nextLap.Keys == next0.Keys
        invariant forall c :: c in nextLap ==>
          nextLap[c] == if 0 <= c < car && IsDue(activeCars, next0, c, clock)
                        then After(next0[c].ms, LapTime(state.speed[c], draw(c)))
                        else next0[c]
        invariant forall c :: 0 <= c < Slots ==>
          state.fuel[c] == if c < car && IsDue(activeCars, next0, c, clock) && state.mode % 2 == 1
                           then Burn(old(state.fuel)[c]) else old(state.fuel)[c]
      {
        assert car in nextLap ==> nextLap[car] == next0[car];
        if car in activeCars && car in nextLap && nextLap[car].At? && clock >= nextLap[car].ms {
          assert DueEvents(activeCars, next0, clock, car + 1) ==
            DueEvents(activeCars, next0, clock, car) + [TimerEvent(car, nextLap[car].ms % Modulus32, 1)];
          CrossLine(car, now, draw);
        }
      }
    }

    /**
     * A due car crosses the line: it emits `(car, due mod 2^32, 1)`, is rescheduled one lap
     * after its due time and, with fuel mode on, burns one unit of fuel.
     */
    method CrossLine(car: nat, now: int, draw: int -> Pos)
      requires state.Valid() && car < Slots && car in nextLap && nextLap[car].At?
      modifies this`nextLap, state`timerEvents, state`fuel
      ensures state.Valid()
      ensures state.timerEvents == old(state.timerEvents) + [TimerEvent(car, old(nextLap)[car].ms % Modulus32, 1)]
      ensures nextLap == old(nextLap)[car := After(old(nextLap)[car].ms, LapTime(state.speed[car], draw(car)))]
      ensures state.fuel == if state.mode % 2 == 1 then old(state.fuel)[car := Burn(old(state.fuel)[car])]
                            else old(state.fuel)
    {
      var t := nextLap[car].ms;
      state.AddTimerEvent(car, 1, Some(t % Modulus32), now);
      nextLap := nextLap[car := After(t, LapTime(state.speed[car], draw(car)))];
      if state.mode % 2 == 1 {
        state.fuel := state.fuel[car := Burn(state.fuel[car])];
      }
    }
  }
}
