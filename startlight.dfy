/**
 * The start-light countdown (`StartLightSequence`, mock.py). The background thread is
 * modelled as a step machine: `Step` runs the code between two consecutive sleeps, and
 * `stage` records which sleep the thread is in.
 */
module StartLight {
  import opened Base
  import opened Device

  // start-light phases
  const Off: int := 0
  const Green: int := 7
  const Race: int := 9

  /** The phases one uninterrupted run writes, in order: off, five reds, all red, green, race. */
  const Countdown: seq<int> := [0, 1, 2, 3, 4, 5, 6, 7, 9]

  /** The background thread: gone, or asleep before segment `next` (0..7) of the sequence. */
  datatype Stage = Idle | Sleeping(next: nat)

  /** The sequencer's fields at one instant. */
  datatype SequencerView = SequencerView(running: bool, stage: Stage, onRaceStart: bool, callbacks: nat)

  class StartLightSequence {
    const state: ControlUnitState
    var running: bool
    var stage: Stage
    var onRaceStart: bool  // whether a race-start callback was given
    var callbacks: nat     // how many times the callback has been invoked

    /** Between calls, the thread is alive exactly while the sequence is running. */
    ghost predicate Valid()
      reads this
    {
      (running <==> stage.Sleeping?) && (stage.Sleeping? ==> stage.next <= 7)
    }

    function Snapshot(): SequencerView
      reads this
    {
      SequencerView(running, stage, onRaceStart, callbacks)
    }

    constructor (state: ControlUnitState)
      ensures Valid() && this.state == state
      ensures !running && stage == Idle && !onRaceStart && callbacks == 0
    {
      this.state := state;
      running := false;
      stage := Idle;
      onRaceStart := false;
      callbacks := 0;
    }

    /** `start`: a no-op while running; otherwise writes phase 0 and launches the thread. */
    method Start(callback: bool)
      requires Valid()
      modifies this, state`start
      ensures Valid() && callbacks == old(callbacks)
      ensures old(running) ==> (running == old(running) && stage == old(stage) &&
                                onRaceStart == old(onRaceStart) && state.start == old(state.start))
      ensures !old(running) ==> (running && stage == Sleeping(0) &&
                                 onRaceStart == callback && state.start == Off)
    {
      if running {
        return;
      }
      onRaceStart := callback;
      running := true;
      state.start := Off;
      stage := Sleeping(0);
    }

    /**
     * The thread wakes from its current sleep and runs until the next one (or until it
     * exits). Every segment first checks the cancellation flag; a cancelled thread exits
     * without writing. Segment 6 turns the light green, resets the clock and calls the
     * callback; segment 7 writes the race phase and ends the run.
     */
    method Step(now: int) returns (wrote: Option<int>)
      requires stage.Sleeping? ==> stage.next <= 7
      modifies this`running, this`stage, this`callbacks, state`start, state`timestamp, state`startTime
      ensures stage.Sleeping? ==> stage.next <= 7
      ensures old(stage) == Idle ==> wrote == None && unchanged(this, state)
      ensures old(stage).Sleeping? && !old(running) ==>
        wrote == None && stage == Idle && unchanged(state) && running == old(running) &&
        callbacks == old(callbacks)
      ensures old(stage).Sleeping? && old(running) ==>
        wrote == Some(Countdown[old(stage).next + 1]) && state.start == wrote.value
      ensures old(stage).Sleeping? && old(running) && old(stage).next < 6 ==>
        stage == Sleeping(old(stage).next + 1) && running && callbacks == old(callbacks) &&
        state.timestamp == old(state.timestamp) && state.startTime == old(state.startTime)
      ensures old(stage) == Sleeping(6) && old(running) ==>
        stage == Sleeping(7) && running && state.timestamp == 0 && state.startTime == Some(now) &&
        callbacks == old(callbacks) + (if onRaceStart then 1 else 0)
      ensures old(stage) == Sleeping(7) && old(running) ==>
        stage == Idle && !running && callbacks == old(callbacks) &&
        state.timestamp == old(state.timestamp) && state.startTime == old(state.startTime)
    {
      match stage
      case Idle =>
        wrote := None;
      case Sleeping(k) =>
        if !running {
          stage := Idle;
          return None;
        }
        if k < 6 {
          state.start := k + 1;
          stage := Sleeping(k + 1);
        } else if k == 6 {
          state.start := Green;
          state.ResetTimer(now);
          if onRaceStart {
            callbacks := callbacks + 1;
          }
          stage := Sleeping(7);
        } else {
          state.start := Race;
          running := false;
          stage := Idle;
        }
        wrote := Some(state.start);
    }

    /**
     * `stop`: clear the flag and join the thread, which wakes, sees the flag and exits
     * without writing another phase. This is the join finishing within its one-second
     * timeout, as it does with the default intervals (1 s red, 0.5 s green).
     */
    method Stop(now: int)
      requires Valid()
      modifies this`running, this`stage, this`callbacks, state`start, state`timestamp, state`startTime
      ensures Valid() && !running && stage == Idle
      ensures unchanged(state) && callbacks == old(callbacks)
    {
      running := false;
      if stage.Sleeping? {
        var w := Step(now);
      }
    }
  }

  /**
   * One whole life of the sequence started from rest: `start`, then the thread's segments
   * one by one, with a `stop` arriving while the thread sleeps before segment `stopBefore`
   * (8 or more: never). The phases written are exactly the first `stopBefore + 1` of the
   * countdown; the clock is reset and the callback called once only when green was reached.
   */
  method RunSequence(s: StartLightSequence, callback: bool, now: int, stopBefore: nat)
    returns (written: seq<int>)
    requires s.Valid() && !s.running
    modifies s, s.state`start, s.state`timestamp, s.state`startTime
    ensures s.Valid() && !s.running
    ensures written == Countdown[..if stopBefore < 8 then stopBefore + 1 else 9]
    ensures s.state.start == written[|written| - 1]
    ensures s.callbacks == old(s.callbacks) + (if callback && stopBefore >= 7 then 1 else 0)
    ensures stopBefore >= 7 ==> s.state.timestamp == 0 && s.state.startTime == Some(now)
    ensures stopBefore < 7 ==>
      s.state.timestamp == old(s.state.timestamp) && s.state.startTime == old(s.state.startTime)
  {
    s.Start(callback);
    written := [Off];
    var k := 0;
    while s.running
      invariant s.Valid()
      invariant s.running ==> s.stage == Sleeping(k) && k < 8 && k <= stopBefore
      invariant !s.running ==> k == (if stopBefore < 8 then stopBefore else 8)
      invariant written == Countdown[..k + 1]
      invariant s.state.start == written[|written| - 1]
      invariant s.onRaceStart == callback
      invariant s.callbacks == old(s.callbacks) + (if callback && k >= 7 then 1 else 0)
      invariant k >= 7 ==> s.state.timestamp == 0 && s.state.startTime == Some(now)
      invariant k < 7 ==>
        s.state.timestamp == old(s.state.timestamp) && s.state.startTime == old(s.state.startTime)
      decreases 8 - k, s.running
    {
      if k == stopBefore {
        s.Stop(now);
      } else {
        var w := s.Step(now);
        written := written + [w.value];
        k := k + 1;
      }
    }
  }
}
