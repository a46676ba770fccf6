# carreralib mock Control Unit, TCP front end and race dashboard, in Dafny

carreralib talks to a Carrera Digital 124/132 Control Unit (CU). This project models three parts of it.

- **The simulated Control Unit** (`src/carreralib/mock.py`):
  - the device state, with eight controller slots of fuel, speed, brake, position and pit flags;
  - the start-light phase, the mode bitmask and the display count;
  - a wrapping 32-bit millisecond clock and a FIFO queue of timer events;
  - the start-light countdown sequencer;
  - the race simulator that emits a finish-line event whenever a car's next lap falls due;
  - `MockConnection`, which answers the CU's one-letter commands (`?` poll, `0` version, `J` set word, `T` button press, `=` reset, and echoes for everything else) through a reply queue.
- **The TCP front end** (`src/carreralib/server.py`, `ClientHandler`):
  - it cuts a byte stream into frames `"`…`$` or `"`…`#`;
  - it hands each message to the mock;
  - it sends the reply back framed as `"`…`$`.
- **The race dashboard's bookkeeping** (`src/carreralib/webapp/app.py`, `RaceManager`):
  - an eight-row car table updated from poll results (laps, last and best lap, fuel, pit);
  - the standings that number the cars 1..8;
  - the reset of the table;
  - the start/resume decision.

Modules, one per part of the program:

| module | file | models |
|---|---|---|
| `Base` | base.dfy | bytes, `Option`, protocol characters, Python's `s[:m]` |
| `Device` | device.dfy | `ControlUnitState`, its clock and timer-event queue |
| `StartLight` | startlight.dfy | `StartLightSequence` as a step machine |
| `Simulator` | simulator.dfy | `RaceSimulator`: start, stop and one pass of its loop |
| `Dispatcher` | dispatcher.dfy | `MockConnection`: send/recv, command handlers, pit mask, set-word and button effects |
| `Framing` | framing.dfy | the frame splitter of `_process_buffer` as a function, with its stream lemmas |
| `Server` | server.dfy | `ClientHandler`: the buffer loop and the reply framing |
| `Dashboard` | dashboard.dfy | `RaceManager`: timer events, status copy, standings, reset, start |

How the things the program cannot decide itself become inputs:

- **Time.** Every operation that reads the wall clock takes `now`, in integer milliseconds.
- **Lap times.** The random lap time is an arbitrary positive draw per car, `draw: int -> Pos`.
- **The binary codec.** `protocol.pack` and `protocol.unpack` are a `Codec` of functions that the model is parameterised by.
- **Threads.** They are steps the caller drives: `StartLightSequence.Step` is one segment after a sleep, and `RaceSimulator.Tick` is one pass of the `_run` loop.
- **The dashboard's Control Unit client.** Its poll result is a `PollResult` value.

Python's `& 0xFFFFFFFF` is written as `% Modulus32`. This agrees with Python for every integer, negative ones included.

## Model

| member | source | states |
|---|---|---|
| Device.ClockReading | src/carreralib/mock.py:141-146 | before any reset the clock reads the stored timestamp; after a reset it reads stored + elapsed, reduced into [0, 2^32) and congruent to it |
| Device.ClockAfterReset | src/carreralib/mock.py:141-151 | right after a reset the clock reads 0, and it then reads the elapsed milliseconds modulo 2^32 |
| Device.ClockWraps | src/carreralib/mock.py:146 | the clock wraps from 2^32-1 to 0 one millisecond later |
| Device.ControlUnitState.constructor | src/carreralib/mock.py:117-139 | fuel 15, speed and brake 8, positions 0 and pit flags clear in all eight slots; phase 0, mode 0, display 8, not paused, clock 0 and unstarted, empty event queue |
| Device.ControlUnitState.GetTimestamp | src/carreralib/mock.py:141-146 | returns the clock reading for `now` and changes nothing |
| Device.ControlUnitState.ResetTimer | src/carreralib/mock.py:148-151 | stored timestamp 0 and epoch `now`, so the clock reads 0; nothing else changes |
| Device.ControlUnitState.AddTimerEvent | src/carreralib/mock.py:153-157 | appends one event at the back of the queue, stamped with the given timestamp or, without one, with the current clock reading |
| Device.ControlUnitState.HasTimerEvent | src/carreralib/mock.py:159-161 | true exactly when the queue is non-empty |
| Device.ControlUnitState.GetTimerEvent | src/carreralib/mock.py:163-168 | removes and returns the oldest event, or returns none and changes nothing on an empty queue |
| StartLight.StartLightSequence.constructor | src/carreralib/mock.py:40-53 | not running, no pending segment, no callback |
| StartLight.StartLightSequence.Start | src/carreralib/mock.py:55-68 | a no-op while running; otherwise records the callback, marks the sequence running, writes phase 0 and schedules the first segment |
| StartLight.StartLightSequence.Step | src/carreralib/mock.py:81-111 | one segment after a sleep: a cancelled sequence writes nothing; segments 0..5 write red phases 1..6; segment 6 writes green (7), resets the clock and fires the callback; segment 7 writes 9 and ends the sequence |
| StartLight.StartLightSequence.Stop | src/carreralib/mock.py:70-75 | the sequence ends without writing anything more to the device |
| StartLight.RunSequence | src/carreralib/mock.py:81-111 | a countdown cancelled before segment k writes exactly the first k+1 phases of 0,1,2,3,4,5,6,7,9 and leaves the last one shown; the clock is reset and the callback fired exactly when it reaches green |
| Simulator.LapTime | src/carreralib/mock.py:247-256 | speed 0 means the car is never due; any other speed gives a positive lap time |
| Simulator.After | src/carreralib/mock.py:239 | the next lap falls one lap time after the crossing, and never for a car that is never due |
| Simulator.Resumed | src/carreralib/mock.py:210-214 | on resume, a schedule not yet passed is kept; a missing or passed one becomes now + lap; the result is never in the past |
| Simulator.ResumedIdempotent | src/carreralib/mock.py:210-214 | resuming twice at the same instant schedules the same as resuming once |
| Simulator.DueEvents | src/carreralib/mock.py:230-236 | the events of one pass are in increasing address order, each for an active car that is due, stamped with its due time modulo 2^32, sector 1 |
| Simulator.DueEventsComplete | src/carreralib/mock.py:230-236 | every active car whose lap is due gets an event in the pass |
| Simulator.Burn | src/carreralib/mock.py:242-243 | fuel drops by one and never below zero |
| Simulator.RaceSimulator.constructor | src/carreralib/mock.py:174-188 | not running, no active cars, no schedule |
| Simulator.RaceSimulator.Start | src/carreralib/mock.py:190-217 | the given cars, or cars 0 and 1 by default, become active; phase 9; a fresh start resets the clock and schedules each car one lap from zero; a resume reschedules each car as `Resumed` does |
| Simulator.RaceSimulator.ScheduleFresh | src/carreralib/mock.py:204-208 | each listed car gets its own lap time; other cars keep their schedule |
| Simulator.RaceSimulator.ScheduleResumed | src/carreralib/mock.py:209-214 | each listed car gets `Resumed` at the current clock reading; other cars keep their schedule |
| Simulator.RaceSimulator.Stop | src/carreralib/mock.py:219-223 | the simulator stops and the device is untouched |
| Simulator.RaceSimulator.Tick | src/carreralib/mock.py:227-243 | one pass: queues exactly `DueEvents`, moves each due car's next lap one lap later, burns one unit of its fuel in fuel mode, changes nothing else; a stopped simulator does nothing |
| Simulator.RaceSimulator.CrossLine | src/carreralib/mock.py:230-243 | a due car emits `(car, due mod 2^32, 1)`, is rescheduled one lap after its due time and, in fuel mode, burns one unit of fuel; nothing else changes |
| Dispatcher.Encode | src/carreralib/mock.py:339-356 | an echo is the frame itself; a timer reply starts with `?`, a status reply with `?:`, a version reply with `0` |
| Dispatcher.PitMask | src/carreralib/mock.py:350 | the pit mask of eight flags fits in eight bits |
| Dispatcher.PitMaskBit | src/carreralib/mock.py:350 | bit i of the pit mask is set exactly when car i is in the pit lane |
| Dispatcher.WordAddrRoundTrip | src/carreralib/mock.py:362-364 | the word id and controller address packed as word + 32·address decode back to themselves |
| Dispatcher.Setword | src/carreralib/mock.py:358-387 | a set-word keeps the device well sized and changes only speed, brake, fuel and position; the clock, the phase, the mode, the pause flag, the display, the pit flags and the timer queue stay as they were |
| Dispatcher.SetwordWritesOneSlot | src/carreralib/mock.py:367-372 | words 0, 1 and 2 write speed, brake and fuel of exactly the addressed controller and nothing else |
| Dispatcher.SetwordPosition | src/carreralib/mock.py:373-377 | word 6 with value 9 clears all eight positions whatever the address; other values write only the addressed position |
| Dispatcher.SetwordOtherWordsInert | src/carreralib/mock.py:378-384 | any other word id, 17 and 18 among them, leaves the device unchanged |
| Dispatcher.Press | src/carreralib/mock.py:394-414 | only start/enter (2) and pace/esc (1) change anything, and a countdown is launched only by start/enter with the lights off and the race not paused |
| Dispatcher.PauseThenResume | src/carreralib/mock.py:394-407 | start/enter during a race, with or without a countdown still pending, pauses it (phase 0, paused, countdown cancelled) and a second press resumes it at once (phase 9, no countdown) |
| Dispatcher.PressDuringCountdown | src/carreralib/mock.py:394-403 | start/enter while a phase 1..7 is shown changes nothing |
| Dispatcher.EscapeCancels | src/carreralib/mock.py:409-414 | pace/esc cancels a running countdown to phase 0, unpaused, and does nothing otherwise |
| Dispatcher.PressEffect | src/carreralib/mock.py:389-420 | a press leaves the sequencer as it is, stops it back to idle, or, when none is running, launches it at its first sleep with this connection's callback |
| Dispatcher.PressEffectFollowsPress | src/carreralib/mock.py:394-414 | phase, pause flag and whether the countdown runs move exactly as `Press` says; no other device field changes and the callback count is kept |
| Dispatcher.StartPressLaunches | src/carreralib/mock.py:394-402 | start/enter at phase 0, not paused, with no countdown running starts the sequencer at its first segment with the given callback |
| Dispatcher.Dispatch | src/carreralib/mock.py:312-337 | every command keeps eight slots in each per-controller register |
| Dispatcher.DispatchReplies | src/carreralib/mock.py:312-337 | a reply exactly for a non-empty command; its encoding is never empty; every tag but `?` and `0` is answered with the command itself |
| Dispatcher.DispatchEchoesInert | src/carreralib/mock.py:329-337 | `:`, `G`, `E` and unknown tags are echoed and change neither the device nor the sequencer |
| Dispatcher.PollsDrainQueue | src/carreralib/mock.py:339-346 | k polls against a queue of at least k events remove its first k events and report them in queue order, each with address + 1 |
| Dispatcher.MockConnection.constructor | src/carreralib/mock.py:262-277 | an empty reply queue and a new, idle sequencer on the shared device |
| Dispatcher.MockConnection.Send | src/carreralib/mock.py:293-310 | the four argument errors in the source's order and with no effect; otherwise the command is the selected slice, and the device, the sequencer and the reply queued (none for an empty slice) are exactly those `Dispatch` gives for it |
| Dispatcher.MockConnection.Recv | src/carreralib/mock.py:283-291 | an empty queue times out; otherwise the oldest reply is removed and returned, cut to `maxlength` as Python's slice does |
| Dispatcher.MockConnection.Close | src/carreralib/mock.py:279-281 | the sequencer stops and the device is untouched |
| Dispatcher.MockConnection.HandleCommand | src/carreralib/mock.py:312-337 | the new device, the new sequencer and the reply are exactly `Dispatch` of the command |
| Dispatcher.MockConnection.HandlePoll | src/carreralib/mock.py:339-352 | a pending event is removed and reported with address + 1; with none, a status of fuel, phase, mode, pit mask and display, and the queue unchanged |
| Dispatcher.MockConnection.HandleSetword | src/carreralib/mock.py:358-387 | a decodable frame changes the device as `Setword` says, an undecodable one changes nothing; the frame is echoed |
| Dispatcher.MockConnection.HandlePress | src/carreralib/mock.py:389-420 | the device and the sequencer (running flag, segment, callback) become exactly `PressEffect` of the decoded button; the frame is echoed |
| Dispatcher.MockConnection.HandleReset | src/carreralib/mock.py:422-425 | the clock is reset and nothing else changes; the frame is echoed |
| Framing.FindQuote | src/carreralib/server.py:155 | the first `"` of the buffer, with none before it, or none at all |
| Framing.FindEnd | src/carreralib/server.py:164-169 | the first `$` or `#`, with none before it, or none at all |
| Framing.Split | src/carreralib/server.py:151-179 | the frames of a buffer: what is kept for the next read is never longer than the buffer |
| Framing.SplitAtStart | src/carreralib/server.py:160-179 | from a start marker: no message is cut exactly when the whole buffer is kept for the next read |
| Framing.SplitWireLength | src/carreralib/server.py:151-179 | the messages cut out, each counted with its two markers, and the bytes kept never add up to more than the buffer |
| Framing.SplitWellFormed | src/carreralib/server.py:151-179 | the messages contain no end byte; what is kept is a suffix of the buffer, empty or an open frame starting with `"` and holding no end byte |
| Framing.NoStartClears | src/carreralib/server.py:155-158 | a buffer without `"` yields no message and is cleared |
| Framing.PrefixDiscarded | src/carreralib/server.py:160-162 | bytes before the first `"` do not change what the buffer yields |
| Framing.ScanEnd | src/carreralib/server.py:164-169 | the scan returns the index of the first `$` or `#`, or -1 when there is none, exactly as `FindEnd` finds it |
| Framing.FindEndAppend | src/carreralib/server.py:164-172 | more data does not move an end byte already found; without one, the search continues into the new data |
| Framing.Frame | src/carreralib/server.py:193 | a reply frame is `"`, the message and the end byte |
| Framing.RoundTrip | src/carreralib/server.py:174-179 | a framed message without end bytes is cut back out exactly, leaving nothing |
| Framing.FrameThen | src/carreralib/server.py:174-179 | a complete frame is cut off the front, and what follows it is split independently |
| Framing.FramesRoundTrip | src/carreralib/server.py:151-179 | any sequence of framed messages is split back into exactly those messages |
| Framing.SplitStreams | src/carreralib/server.py:151-179 | splitting data that arrives in two reads gives the same messages and the same remainder as splitting it all at once |
| Framing.SplitClosed | src/carreralib/server.py:171-179 | a buffer starting with `"` and holding an end byte yields the bytes between them first, then the rest is split on |
| Framing.SplitOpen | src/carreralib/server.py:171-172 | a frame without an end byte is kept whole, waiting for more data |
| Server.ClientHandler.constructor | src/carreralib/server.py:123-132 | an empty buffer and a new mock on the shared device |
| Server.ClientHandler.ProcessBuffer | src/carreralib/server.py:151-179 | dispatches exactly the messages `Split` cuts from the buffer, in order; keeps exactly its remainder, empty or one open frame; the device, the sequencer and the bytes sent are `Serve` of those messages |
| Server.ClientHandler.ServeAll | src/carreralib/server.py:153-179 | the loop: from a buffer that splits into `ms` and a rest, every message of `ms` is dispatched in order along the trace, the session ends at the trace's last state, and exactly the rest, empty or one open frame, is kept |
| Server.ClientHandler.TakeFrame | src/carreralib/server.py:154-176 | one pass of the loop: removes and returns the first complete message as `Split` does, or keeps the buffer as `Split` leaves it |
| Server.ClientHandler.HandleMessage | src/carreralib/server.py:181-197 | the device, the sequencer and the bytes sent become exactly `Serve1` of the message: dispatched, and its reply written back framed |
| Server.ClientHandler.ServeNextFrame | src/carreralib/server.py:154-179 | one pass of the loop: with the buffer holding messages `ms[k..]`, either nothing is left to serve, or `ms[k]` is cut off, dispatched, and the session moves to the next one of the trace |
| Server.ReplyFrames | src/carreralib/server.py:190-194 | at most one frame: `"` + reply + `$` for a non-empty reply, nothing otherwise |
| Server.Serve1 | src/carreralib/server.py:181-197 | handling one message keeps eight slots in each per-controller register |
| Server.Serve | src/carreralib/server.py:151-197 | handling messages one after the other keeps eight slots in each per-controller register |
| Server.ServeCons | src/carreralib/server.py:153-179 | serving a message and then the rest is serving them all |
| Server.Sessions | src/carreralib/server.py:153-179 | serving a list passes through a trace of sessions, one step per message, and ends in `Serve` of the list |
| Server.ServeAnswersEach | src/carreralib/server.py:181-197 | what was sent is kept; exactly one reply frame `"`…`$` is added per non-empty message and none per empty one |
| Server.ServeEchoes | src/carreralib/server.py:181-197 | commands that are echoed come back as their own frames, in arrival order |
| Server.TwoFramesTwoReplies | src/carreralib/server.py:151-197 | two echoed commands in one read are answered with two frames, in order |
| Dashboard.CreditLap | src/carreralib/webapp/app.py:237-246 | one more lap and the crossing remembered; a first crossing leaves the lap times alone; otherwise the last lap is the time since the previous crossing and the best lap becomes the smaller of it and the old best, an old best of 0 meaning none |
| Dashboard.BestLapIsShortestGap | src/carreralib/webapp/app.py:237-246 | from a fresh row, crossings at increasing positive instants give one lap each, the last lap as the last gap, and the best lap as the shortest gap between consecutive crossings |
| Dashboard.Rank | src/carreralib/webapp/app.py:224 | the standings list the rows 0..n-1, each of them |
| Dashboard.RankSorted | src/carreralib/webapp/app.py:224 | the standings list each row once, each ahead of every later one by more laps, an earlier last crossing, or the table order on a tie |
| Dashboard.RankReadsKeys | src/carreralib/webapp/app.py:224 | the standings depend on laps and last crossings only, so numbering the positions does not change them |
| Dashboard.Position | src/carreralib/webapp/app.py:225-226 | the position of a car is between 1 and 8 and is its place in the standings |
| Dashboard.PositionsArePermutation | src/carreralib/webapp/app.py:224-226 | no two cars share a position, and each of positions 1..8 is held |
| Dashboard.PositionOrder | src/carreralib/webapp/app.py:224-226 | car i is above car j exactly when it has more laps, or equal laps and an earlier last crossing, or both equal and a smaller address |
| Dashboard.RaceManager.constructor | src/carreralib/webapp/app.py:30-55 | not connected, every row fresh (position i+1, fuel 15, zero laps and times, not in pit), flags cleared |
| Dashboard.RaceManager.ResetRaceData | src/carreralib/webapp/app.py:98-113 | every row back to its fresh state; pace car, last start light and race-started cleared |
| Dashboard.RaceManager.ProcessTimerEvent | src/carreralib/webapp/app.py:231-246 | a finish-line event for a car in the table credits that car as `CreditLap` does and leaves the others; an unknown address or another sector changes nothing |
| Dashboard.RaceManager.StartRace | src/carreralib/webapp/app.py:115-129 | fails without a connection or when the start command raises, changing nothing; otherwise the race is marked started, and under the simulator cars 0 to 3 are started again, resumed exactly when the race had started before and the last known light was 0 |
| Dashboard.RaceManager.CopyStatus | src/carreralib/webapp/app.py:213-216 | copies each car's fuel and pit flag from the snapshot; the copy stops at the eighth car or at the first fuel entry without a pit flag (after its fuel is copied); nothing else changes |
| Dashboard.RaceManager.AssignPositions | src/carreralib/webapp/app.py:223-226 | every car's position is its place in the standings; nothing else changes |
| Dashboard.RaceManager.GetStatus | src/carreralib/webapp/app.py:195-229 | while connected, a status snapshot updates the last known light, fuel and pit flags and is reported; a timer event is credited; then positions are numbered and the first six cars of the standings returned |

## Left out

- Threads, `time.sleep` and daemon flags: concurrency is out of scope. The sequencer and the simulator loop are steps the caller drives. Interleavings of the simulator thread with the server or the dashboard are not modelled.
- StartLight.StartLightSequence.Stop: `join(timeout=1.0)` is taken to finish, so the stopped thread writes nothing more (`unchanged(state)`). That holds when the sequencer's sleeps are at most 1 s, as with the defaults `red_interval=1.0` and `green_duration=0.5` (mock.py:40). With a longer interval the join can time out while the thread still sleeps. A later `start()` then sets the flag again, and the old thread resumes writing phases next to the new one (mock.py:61-65, 74, 88, 93, 106). The model has one sequencer thread and does not capture this.
- Sockets, selectors, `ControlUnitServer`, the accept loop and `ClientHandler.handle`/`_close`: these are I/O. `ProcessBuffer` starts from the buffer after `extend`, and replies are a `sent` list.
- `protocol.pack`/`unpack` and their checksums: `protocol.py` is not part of this model. The model is parameterised by a `Codec` of functions. An unpack failure is `None`, which covers both `ProtocolError` and `ValueError`.
- Dispatcher.MockConnection.Recv: the one-second blocking wait is not modelled. An empty queue times out at once, because no other thread can fill it in the model.
- Simulator.LapTime: the float formula base·(1 − speed/30)·(1 + U(−v, v)) is replaced by an arbitrary positive millisecond draw per car. Only "speed 0 is never due" and "positive otherwise" are kept. The truncation of `int(next_time * 1000)` is not modelled, because times are integer milliseconds throughout.
- Simulator.RaceSimulator.Start: car addresses are required to be in 0..7. Python would also accept negative list indexes for `speed[car]` and `fuel[car]`.
- Simulator.RaceSimulator.Tick: it visits cars in increasing address order. This is CPython's iteration order for a set of small integers, which the language does not promise.
- The wall clock: every reading is the parameter `now`.
- The mock's `_on_race_start` callback: it is always `None` in the source, and the sequencer only records whether one was given.
- `_handle_version` encodes the version string with `.encode()`; the model keeps the version as a string inside the reply.
- `RaceManager.connect`, `disconnect`, `poll`, `pause_race`, `stop_race`, `deploy_pace_car`, `recall_pace_car`: these call into the `ControlUnit` client (`cu.py`), which is not part of this model. Their only table effect is the reset, which `ResetRaceData` states. The poll result enters `GetStatus` as a `PollResult`, and an exception raised by the client's poll is `NoResult`.
- Dashboard.RaceManager.StartRace: a raising `cu.start()` is the input `clientFails`. The simulator call is returned as the decision `simulate` (cars 0 to 3 and the resume flag) rather than performed.
- Dashboard.CreditLap: a lap time of exactly 0 (two crossings at the same instant) is stored as best lap 0, which later laps then overwrite, as in the source. `BestLapIsShortestGap` therefore assumes strictly increasing timestamps. Wrap-around of the 32-bit clock during a race yields a negative lap time, as in the source.
- FastAPI routes, the WebSocket loop, templates and the command-line entry points: these are user interface.
- tests/test_mock.py:349-360 expects phase 0 after the simulator stops. `RaceSimulator.stop` never writes the phase, and the model follows the code.
- Dispatcher.MockConnection.constructor: the model is always given a device; the source builds a fresh `ControlUnitState` when none is passed, which is the same as passing a new one.
