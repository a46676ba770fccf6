/**
 * The command dispatcher of the simulated Control Unit (`MockConnection`, mock.py): one
 * reply per non-empty frame, chosen by the frame's first byte. The byte codec is not part
 * of this model; it enters as a `Codec` of function values, and replies are a datatype.
 */
module Dispatcher {
  import opened Base
  import opened Device
  import opened StartLight

  /** A reply before packing. */
  datatype Reply =
    | TimerReply(address: int, timestamp: int, sector: int)
    | StatusReply(fuel: seq<int>, start: int, mode: int, pitmask: int, display: int)
    | VersionReply(version: string)
    | Echo(data: bytes)

  /** The decoded fields of a set-word (`J`) frame: `word | address << 5`, the value, the repeat count. */
  datatype SetwordFields = SetwordFields(wordAddr: int, value: int, repeat: int)

  /**
   * The external pack/unpack helper: decoding of a frame without its trailing checksum
   * byte (`None` is a decode error) and packing of a reply's fields after its literal
   * leading tag characters.
   */
  datatype Codec = Codec(
    unpackSetword: bytes -> Option<SetwordFields>,
    unpackPress: bytes -> Option<int>,
    packFields: Reply -> bytes)

  /** The bytes of a reply: an echo is the frame itself, a packed reply starts with its tag characters. */
  function Encode(codec: Codec, r: Reply): (b: bytes)
    ensures r.Echo? ==> b == r.data
    ensures r.TimerReply? ==> |b| > 0 && b[0] == Question
    ensures r.StatusReply? ==> |b| > 1 && b[0] == Question && b[1] == Colon
    ensures r.VersionReply? ==> |b| > 0 && b[0] == Zero
  {
    match r
    case Echo(d) => d
    case TimerReply(_, _, _) => [Question] + codec.packFields(r)
    case StatusReply(_, _, _, _, _) => [Question, Colon] + codec.packFields(r)
    case VersionReply(_) => [Zero] + codec.packFields(r)
  }

  function Pow2(i: nat): (p: nat)
    ensures p > 0
  {
    if i == 0 then 1 else 2 * Pow2(i - 1)
  }

  /** The pit bitmask of a status reply: bit `i` stands for controller `i`. */
  function PitMask(pit: seq<bool>): (m: nat)
    ensures m < Pow2(|pit|)
  {
    if pit == [] then 0 else (if pit[0] then 1 else 0) + 2 * PitMask(pit[1..])
  }

  /** Bit `i` of `m`, counting from the least significant. */
  predicate BitSet(m: nat, i: nat)
  {
    if i == 0 then m % 2 == 1 else BitSet(m / 2, i - 1)
  }

  /** Bit `i` of the pit mask is set exactly when controller `i` is in the pit lane. */
  lemma {:induction false} PitMaskBit(pit: seq<bool>, i: nat)
    requires i < |pit|
    ensures BitSet(PitMask(pit), i) <==> pit[i]
  {
    var b := if pit[0] then 1 else 0;
    var m := PitMask(pit[1..]);
    assert PitMask(pit) == b + 2 * m;
    if i > 0 {
      PitMaskBit(pit[1..], i - 1);
      assert pit[1..][i - 1] == pit[i];
      assert (b + 2 * m) / 2 == m;
    }
  }

  /** The word id of a set-word address byte (`& 0x1F`). */
  function WordOf(wordAddr: int): (w: int)
    ensures 0 <= w < 32
  {
    wordAddr % 32
  }

  /** The controller address of a set-word address byte (`(x >> 5) & 0x07`). */
  function AddressOf(wordAddr: int): (a: int)
    ensures 0 <= a < Slots
  {
    (wordAddr / 32) % 8
  }

  /** Decoding the address byte `word | address << 5` recovers the word id and the controller. */
  lemma WordAddrRoundTrip(word: int, address: int)
    requires 0 <= word < 32 && 0 <= address < Slots
    ensures WordOf(word + 32 * address) == word
    ensures AddressOf(word + 32 * address) == address
  {
    assert (word + 32 * address) / 32 == address;
  }

  /**
   * The effect of a decoded set-word frame on the device: word 0, 1 and 2 write speed,
   * brake and fuel of the addressed controller; word 6 writes its position, and value 9
   * clears every position; all other words (17 and 18 among them) change nothing.
   */
  function Setword(v: DeviceView, wordAddr: int, value: int): (r: DeviceView)
    requires v.Valid()
    ensures r.Valid()
    ensures r == v.(speed := r.speed, brake := r.brake, fuel := r.fuel, position := r.position)
  {
    var word := WordOf(wordAddr);
    var address := AddressOf(wordAddr);
    if word == 0 then v.(speed := v.speed[address := value])
    else if word == 1 then v.(brake := v.brake[address := value])
    else if word == 2 then v.(fuel := v.fuel[address := value])
    else if word == 6 then
      (if value == 9 then v.(position := seq(Slots, _ => 0))
       else v.(position := v.position[address := value]))
    else v
  }

  /** Setting speed, brake or fuel writes exactly the addressed slot of that register. */
  lemma SetwordWritesOneSlot(v: DeviceView, word: int, address: int, value: int)
    requires v.Valid() && 0 <= word <= 2 && 0 <= address < Slots
    ensures var r := Setword(v, word + 32 * address, value);
      r.Valid() &&
      (word == 0 ==> r == v.(speed := v.speed[address := value])) &&
      (word == 1 ==> r == v.(brake := v.brake[address := value])) &&
      (word == 2 ==> r == v.(fuel := v.fuel[address := value]))
  {
    WordAddrRoundTrip(word, address);
  }

  /** Position word: value 9 clears all eight slots whatever the address; other values write one slot. */
  lemma SetwordPosition(v: DeviceView, address: int, value: int)
    requires v.Valid() && 0 <= address < Slots
    ensures var r := Setword(v, 6 + 32 * address, value);
      r.Valid() &&
      (value == 9 ==> r == v.(position := [0, 0, 0, 0, 0, 0, 0, 0])) &&
      (value != 9 ==> r == v.(position := v.position[address := value]))
  {
    WordAddrRoundTrip(6, address);
  }

  /** Every word id other than 0, 1, 2 and 6 leaves the device as it was. */
  lemma SetwordOtherWordsInert(v: DeviceView, word: int, address: int, value: int)
    requires v.Valid() && 0 <= word < 32 && word != 0 && word != 1 && word != 2 && word != 6
    requires 0 <= address < Slots
    ensures Setword(v, word + 32 * address, value) == v
  {
    WordAddrRoundTrip(word, address);
  }

  /** The part of the device and sequencer a button press looks at and changes. */
  datatype LightState = LightState(phase: int, paused: bool, counting: bool)

  /**
   * The effect of a decoded `T` frame. Start/enter (2): off and paused resumes the race,
   * off and not paused launches the countdown (phase 0; a running countdown is left alone),
   * racing pauses. Pace/esc (1) cancels a running countdown. Anything else does nothing.
   * This is the abstract state machine of the buttons, on phase, pause flag and countdown
   * alone; `PressEffect` acts on the whole device and sequencer and is proved to follow it
   * (`PressEffectFollowsPress`).
   */
  function Press(button: Option<int>, s: LightState): (r: LightState)
    ensures r != s ==> button == Some(1) || button == Some(2)
    ensures r.counting && !s.counting ==> button == Some(2) && s.phase == Off && !s.paused
  {
    if button == Some(2) then
      if s.phase == Off then
        if s.paused then s.(phase := Race, paused := false)
        else s.(counting := true)
      else if s.phase == Race then LightState(Off, true, false)
      else s
    else if button == Some(1) && s.counting then LightState(Off, false, false)
    else s
  }

  /**
   * Start/enter pauses a running race and a second press resumes it instantly, no countdown.
   * This holds also while a countdown is still pending, as when the simulator shows the race
   * phase right after a start press; the pause cancels that countdown.
   */
  lemma PauseThenResume(s: LightState)
    requires s.phase == Race
    ensures Press(Some(2), s) == LightState(Off, true, false)
    ensures Press(Some(2), Press(Some(2), s)) == LightState(Race, false, false)
  {
  }

  /** Start/enter during the countdown (phases 1 to 7) is ignored. */
  lemma PressDuringCountdown(s: LightState)
    requires 1 <= s.phase <= 7
    ensures Press(Some(2), s) == s
  {
  }

  /** Pace/esc cancels a running countdown to a clean, unpaused off state and is otherwise inert. */
  lemma EscapeCancels(s: LightState)
    ensures s.counting ==> Press(Some(1), s) == LightState(Off, false, false)
    ensures !s.counting ==> Press(Some(1), s) == s
  {
  }

  /**
   * The effect of a decoded `T` frame on the device and the sequencer. Start/enter (2):
   * off and paused resumes the race at once; off and not paused starts the countdown (a
   * running one is left alone); racing stops the countdown and pauses. Pace/esc (1) stops a
   * running countdown and turns the lights off, unpaused. Anything else changes nothing.
   */
  function PressEffect(button: Option<int>, v: DeviceView, q: SequencerView, callback: bool): (r: (DeviceView, SequencerView))
    ensures r.1 == q || r.1 == q.(running := false, stage := Idle) ||
      (!q.running && r.1 == SequencerView(true, Sleeping(0), callback, q.callbacks))
  {
    var stopped := q.(running := false, stage := Idle);
    if button == Some(2) then
      if v.start == Off then
        if v.isPaused then (v.(start := Race, isPaused := false), q)
        else if q.running then (v, q)
        else (v, SequencerView(true, Sleeping(0), callback, q.callbacks))
      else if v.start == Race then (v.(start := Off, isPaused := true), stopped)
      else (v, q)
    else if button == Some(1) && q.running then (v.(start := Off, isPaused := false), stopped)
    else (v, q)
  }

  /**
   * `PressEffect` moves phase, pause flag and countdown exactly as `Press` says, touches no
   * other part of the device and never fires the race-start callback.
   */
  lemma PressEffectFollowsPress(button: Option<int>, v: DeviceView, q: SequencerView, callback: bool)
    ensures var e := PressEffect(button, v, q, callback);
      LightState(e.0.start, e.0.isPaused, e.1.running) == Press(button, LightState(v.start, v.isPaused, q.running)) &&
      e.0 == v.(start := e.0.start, isPaused := e.0.isPaused) && e.1.callbacks == q.callbacks
  {
  }

  /**
   * Start/enter with the lights off, not paused and no countdown running launches the
   * countdown from its first sleep with the connection's callback; a countdown already
   * running, or any stopped one, keeps or ends as `Press` says.
   */
  lemma StartPressLaunches(v: DeviceView, q: SequencerView, callback: bool)
    requires v.start == Off && !v.isPaused && !q.running
    ensures PressEffect(Some(2), v, q, callback) == (v, SequencerView(true, Sleeping(0), callback, q.callbacks))
  {
  }

  /** Everything one command does: the device and sequencer afterwards, and the reply. */
  datatype Effect = Effect(device: DeviceView, sequencer: SequencerView, reply: Option<Reply>)

  /**
   * `_handle_command` with its handlers, as a function of the device and sequencer before
   * the command: `?` pops the oldest timer event or reports the status, `0` the version,
   * `J`, `T` and `=` act and echo, every other first byte is echoed untouched.
   */
  function Dispatch(codec: Codec, version: string, v: DeviceView, q: SequencerView, callback: bool,
                    data: bytes, now: int): (e: Effect)
    requires v.Valid()
    ensures e.device.Valid()
  {
    if data == [] then Effect(v, q, None)
    else if data[0] == Question then
      if v.timerEvents != [] then
        var ev := v.timerEvents[0];
        Effect(v.(timerEvents := v.timerEvents[1..]), q, Some(TimerReply(ev.address + 1, ev.timestamp, ev.sector)))
      else Effect(v, q, Some(StatusReply(v.fuel, v.start, v.mode, PitMask(v.pit), v.display)))
    else if data[0] == Zero then Effect(v, q, Some(VersionReply(version)))
    else if data[0] == LetterJ then
      var f := codec.unpackSetword(data[..|data| - 1]);
      Effect(if f.Some? then Setword(v, f.value.wordAddr, f.value.value) else v, q, Some(Echo(data)))
    else if data[0] == LetterT then
      var pe := PressEffect(codec.unpackPress(data[..|data| - 1]), v, q, callback);
      Effect(pe.0, pe.1, Some(Echo(data)))
    else if data[0] == Equals then Effect(v.(timestamp := 0, startTime := Some(now)), q, Some(Echo(data)))
    else Effect(v, q, Some(Echo(data)))
  }

  /**
   * Exactly the non-empty commands get a reply, its bytes are never empty, and every
   * command but `?` and `0` is answered with itself.
   */
  lemma DispatchReplies(codec: Codec, version: string, v: DeviceView, q: SequencerView, callback: bool,
                        data: bytes, now: int)
    requires v.Valid()
    ensures var e := Dispatch(codec, version, v, q, callback, data, now);
      (e.reply == None <==> data == []) &&
      (data != [] ==> |Encode(codec, e.reply.value)| > 0) &&
      (data != [] && data[0] != Question && data[0] != Zero ==> e.reply == Some(Echo(data)))
  {
  }

  /**
   * The ignore command `:`, the firmware-update commands `G` and `E`, and every tag the
   * dispatcher does not know are echoed and change neither the device nor the sequencer.
   */
  lemma DispatchEchoesInert(codec: Codec, version: string, v: DeviceView, q: SequencerView, callback: bool,
                            data: bytes, now: int)
    requires v.Valid() && data != []
    requires data[0] == Colon || data[0] == LetterG || data[0] == LetterE ||
             (data[0] != Question && data[0] != Zero && data[0] != LetterJ && data[0] != LetterT &&
              data[0] != Equals)
    ensures Dispatch(codec, version, v, q, callback, data, now) == Effect(v, q, Some(Echo(data)))
  {
  }

  /** The device, the sequencer and the replies after a run of commands. */
  datatype Trace = Trace(device: DeviceView, sequencer: SequencerView, replies: seq<Reply>)

  /** The same non-empty command `data` sent `k` times in a row. */
  function Repeated(codec: Codec, version: string, v: DeviceView, q: SequencerView, callback: bool,
                    data: bytes, now: int, k: nat): (t: Trace)
    requires v.Valid() && data != []
    ensures t.device.Valid()
    decreases k
  {
    if k == 0 then Trace(v, q, [])
    else
      var t := Repeated(codec, version, v, q, callback, data, now, k - 1);
      var e := Dispatch(codec, version, t.device, t.sequencer, callback, data, now);
      Trace(e.device, e.sequencer, t.replies + [e.reply.value])
  }

  /** A poll drains pending timer events one per command, oldest first, before any status is reported. */
  lemma {:induction false} PollsDrainQueue(codec: Codec, version: string, v: DeviceView, q: SequencerView,
                                           callback: bool, data: bytes, now: int, k: nat)
    requires v.Valid() && data != [] && data[0] == Question && k <= |v.timerEvents|
    ensures var e := Repeated(codec, version, v, q, callback, data, now, k);
      e.device == v.(timerEvents := v.timerEvents[k..]) && e.sequencer == q &&
      |e.replies| == k &&
      forall i :: 0 <= i < k ==>
        e.replies[i] == TimerReply(v.timerEvents[i].address + 1, v.timerEvents[i].timestamp, v.timerEvents[i].sector)
    decreases k
  {
    if k > 0 {
      PollsDrainQueue(codec, version, v, q, callback, data, now, k - 1);
    }
  }

  datatype SendError = OffsetNegative | BufferShorterThanOffset | SizeNegative | BufferShorterThanEnd

  datatype Received = Data(data: bytes) | Timeout

  class MockConnection {
    const state: ControlUnitState
    const startLight: StartLightSequence
    const codec: Codec
    var onRaceStart: bool
    var responses: seq<Reply>

    ghost predicate Valid()
      reads this, state, startLight
    {
      state.Valid() && startLight.Valid() && startLight.state == state
    }

    constructor (state: ControlUnitState, codec: Codec)
      requires state.Valid()
      ensures Valid() && this.state == state && this.codec == codec
      ensures fresh(startLight) && !startLight.running && startLight.callbacks == 0
      ensures responses == [] && !onRaceStart
    {
      this.state := state;
      this.codec := codec;
      startLight := new StartLightSequence(state);
      onRaceStart := false;
      responses := [];
    }

    /**
     * `send`: check offset and size, take the addressed slice as one frame and queue at
     * most one reply; exactly one when the slice is non-empty.
     */
    method Send(buf: bytes, offset: int, size: Option<int>, now: int) returns (err: Option<SendError>)
      requires Valid()
      modifies this`responses, state, startLight
      ensures Valid()
      ensures offset < 0 ==> err == Some(OffsetNegative)
      ensures 0 <= offset && |buf| < offset ==> err == Some(BufferShorterThanOffset)
      ensures 0 <= offset <= |buf| && size.Some? && size.value < 0 ==> err == Some(SizeNegative)
      ensures 0 <= offset <= |buf| && size.Some? && 0 <= size.value && offset + size.value > |buf| ==>
        err == Some(BufferShorterThanEnd)
      ensures 0 <= offset <= |buf| && (size.None? || (0 <= size.value && offset + size.value <= |buf|)) ==>
        err == None
      ensures err.Some? ==> responses == old(responses) && unchanged(state, startLight)
      ensures err.None? ==>
        var end := if size.Some? then offset + size.value else |buf|;
        var e := Dispatch(codec, state.version, old(state.View()), old(startLight.Snapshot()), onRaceStart,
                          buf[offset..end], now);
        0 <= offset <= end <= |buf| &&
        state.View() == e.device && startLight.Snapshot() == e.sequencer &&
        responses == old(responses) + (if e.reply.Some? then [e.reply.value] else [])
    {
      var n := |buf|;
      var sz: int;
      if offset < 0 {
        return Some(OffsetNegative);
      } else if n < offset {
        return Some(BufferShorterThanOffset);
      } else if size.None? {
        sz := n - offset;
      } else if size.value < 0 {
        return Some(SizeNegative);
      } else if offset + size.value > n {
        return Some(BufferShorterThanEnd);
      } else {
        sz := size.value;
      }
      var data := buf[offset..offset + sz];
      var response := HandleCommand(data, now);
      if response.Some? {
        responses := responses + [response.value];
      }
      err := None;
    }

    /** `recv` without blocking: the oldest queued reply, encoded and cut to `maxLength`. */
    method Recv(maxLength: Option<int>) returns (r: Received)
      modifies this`responses
      ensures old(responses) == [] ==> r == Timeout && responses == []
      ensures old(responses) != [] ==>
        responses == old(responses)[1..] &&
        r == Data(if maxLength.Some? && |Encode(codec, old(responses)[0])| > maxLength.value
                  then PyPrefix(Encode(codec, old(responses)[0]), maxLength.value)
                  else Encode(codec, old(responses)[0]))
    {
      if responses == [] {
        return Timeout;
      }
      var response := Encode(codec, responses[0]);
      responses := responses[1..];
      if maxLength.Some? && |response| > maxLength.value {
        response := PyPrefix(response, maxLength.value);
      }
      r := Data(response);
    }

    /** `close`: stop a running countdown. */
    method Close(now: int)
      requires Valid()
      modifies startLight, state
      ensures Valid() && !startLight.running && startLight.callbacks == old(startLight.callbacks)
      ensures unchanged(state)
    {
      startLight.Stop(now);
    }

    /**
     * `_handle_command`: the empty frame gets no reply; `?` polls, `0` reports the version,
     * `J`, `T` and `=` act and echo, and every other first byte is echoed untouched.
     */
    method HandleCommand(data: bytes, now: int) returns (r: Option<Reply>)
      requires Valid()
      modifies state, startLight
      ensures Valid()
      ensures Effect(state.View(), startLight.Snapshot(), r) ==
        Dispatch(codec, state.version, old(state.View()), old(startLight.Snapshot()), onRaceStart, data, now)
    {
      if data == [] {
        return None;
      }
      var cmd := data[0];
      var reply: Reply;
      if cmd == Question {
        reply := HandlePoll();
      } else if cmd == Zero {
        reply := VersionReply(state.version);
      } else if cmd == LetterJ {
        reply := HandleSetword(data);
      } else if cmd == LetterT {
        reply := HandlePress(data, now);
      } else if cmd == Equals {
        reply := HandleReset(data, now);
      } else {
        // ':', 'G', 'E' and unknown tags are echoed without effect
        reply := Echo(data);
      }
      r := Some(reply);
    }

    /**
     * `_handle_poll`: a pending timer event takes priority and is removed, reported with a
     * 1-based address; only an empty queue yields the status snapshot, which changes nothing.
     */
    method HandlePoll() returns (r: Reply)
      requires Valid()
      modifies state`timerEvents
      ensures Valid()
      ensures old(state.timerEvents) != [] ==>
        var e := old(state.timerEvents)[0];
        r == TimerReply(e.address + 1, e.timestamp, e.sector) &&
        state.View() == old(state.View()).(timerEvents := old(state.timerEvents)[1..])
      ensures old(state.timerEvents) == [] ==>
        r == StatusReply(state.fuel, state.start, state.mode, PitMask(state.pit), state.display) &&
        state.View() == old(state.View())
    {
      var event := state.GetTimerEvent();
      if event.Some? {
        r := TimerReply(event.value.address + 1, event.value.timestamp, event.value.sector);
      } else {
        r := StatusReply(state.fuel, state.start, state.mode, PitMask(state.pit), state.display);
      }
    }

    /** `_handle_setword`: apply the decoded word, or nothing on a decode error; echo either way. */
    method HandleSetword(data: bytes) returns (r: Reply)
      requires Valid() && data != []
      modifies state
      ensures Valid() && r == Echo(data)
      ensures var f := codec.unpackSetword(data[..|data| - 1]);
        state.View() == if f.Some? then Setword(old(state.View()), f.value.wordAddr, f.value.value)
                        else old(state.View())
    {
      var fields := codec.unpackSetword(data[..|data| - 1]);
      if fields.Some? {
        var word := WordOf(fields.value.wordAddr);
        var address := AddressOf(fields.value.wordAddr);
        var value := fields.value.value;
        if word == 0 {
          state.speed := state.speed[address := value];
        } else if word == 1 {
          state.brake := state.brake[address := value];
        } else if word == 2 {
          state.fuel := state.fuel[address := value];
        } else if word == 6 {
          if value == 9 {
            state.position := seq(Slots, _ => 0);
          } else {
            state.position := state.position[address := value];
          }
        }
        // words 17 and 18 (lap display nibbles) and unknown words: no state change
      }
      r := Echo(data);
    }

    /** `_handle_press`: the button state machine of `Press`; echo either way. */
    method HandlePress(data: bytes, now: int) returns (r: Reply)
      requires Valid() && data != []
      modifies state, startLight
      ensures Valid() && r == Echo(data)
      ensures (state.View(), startLight.Snapshot()) ==
        PressEffect(codec.unpackPress(data[..|data| - 1]), old(state.View()), old(startLight.Snapshot()), onRaceStart)
    {
      var button := codec.unpackPress(data[..|data| - 1]);
      if button == Some(2) {
        if state.start == Off {
          if state.isPaused {
            state.start := Race;
            state.isPaused := false;
          } else {
            startLight.Start(onRaceStart);
          }
        } else if state.start == Race {
          startLight.Stop(now);
          state.start := Off;
          state.isPaused := true;
        }
      } else if button == Some(1) {
        if startLight.running {
          startLight.Stop(now);
          state.start := Off;
          state.isPaused := false;
        }
      }
      r := Echo(data);
    }

    /** `_handle_reset`: restart the race clock at zero; echo. */
    method HandleReset(data: bytes, now: int) returns (r: Reply)
      requires Valid()
      modifies state`timestamp, state`startTime
      ensures Valid() && r == Echo(data)
      ensures state.View() == old(state.View()).(timestamp := 0, startTime := Some(now))
    {
      state.ResetTimer(now);
      r := Echo(data);
    }
  }
}
