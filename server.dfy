/**
 * One TCP client session of the Control Unit server (`ClientHandler`, server.py): a byte
 * buffer of partial input, frame extraction, and the framed reply written back. The socket
 * is replaced by `sent`, the list of byte strings written to it.
 */
module Server {
  import opened Base
  import opened Device
  import opened Dispatcher
  import opened Framing
  import opened StartLight

  /** How many of the messages are non-empty, that is, get a reply. */
  function Answered(ms: seq<bytes>): (n: nat)
    ensures n <= |ms|
  {
    if ms == [] then 0 else (if ms[0] != [] then 1 else 0) + Answered(ms[1..])
  }

  /** A reply on the wire: start marker, a non-empty response, `$`. */
  predicate IsReplyFrame(w: bytes)
  {
    |w| >= 3 && w[0] == Quote && w[|w| - 1] == Dollar
  }

  /** What a client session has done so far: the device, the sequencer, the bytes written back. */
  datatype Session = Session(device: DeviceView, sequencer: SequencerView, sent: seq<bytes>)

  /** The bytes written back for a reply: `"` + reply + `$` when the reply is non-empty, otherwise nothing. */
  function ReplyFrames(codec: Codec, r: Option<Reply>): (ws: seq<bytes>)
    ensures |ws| <= 1
  {
    if r.Some? && Encode(codec, r.value) != [] then [Frame(Encode(codec, r.value), Dollar)] else []
  }

  /** `_handle_message` as a function: dispatch the message and write its reply back. */
  function Serve1(codec: Codec, version: string, callback: bool, s: Session, m: bytes, now: int): (r: Session)
    requires s.device.Valid()
    ensures r.device.Valid()
  {
    var e := Dispatch(codec, version, s.device, s.sequencer, callback, m, now);
    Session(e.device, e.sequencer, s.sent + ReplyFrames(codec, e.reply))
  }

  /** The messages `ms` handled one after the other. */
  function Serve(codec: Codec, version: string, callback: bool, s: Session, ms: seq<bytes>, now: int): (r: Session)
    requires s.device.Valid()
    ensures r.device.Valid()
    decreases |ms|
  {
    if ms == [] then s
    else Serve(codec, version, callback, Serve1(codec, version, callback, s, ms[0], now), ms[1..], now)
  }

  /** Serving a message and then the rest is serving them all. */
  lemma ServeCons(codec: Codec, version: string, callback: bool, s: Session, m: bytes, ms: seq<bytes>, now: int)
    requires s.device.Valid()
    ensures Serve(codec, version, callback, s, [m] + ms, now) ==
      Serve(codec, version, callback, Serve1(codec, version, callback, s, m, now), ms, now)
  {
    assert ([m] + ms)[1..] == ms;
  }

  /** Step `i` of a trace: serving message `ms[i]` takes session `ts[i]` to `ts[i + 1]`. */
  /** A prefix of `ms` grows by the next message. */
  lemma PrefixGrows(ms: seq<bytes>, k: nat)
    requires k < |ms|
    ensures ms[..k + 1] == ms[..k] + [ms[k]]
  {
  }

  ghost predicate StepAt(codec: Codec, version: string, callback: bool, now: int, ms: seq<bytes>,
                         ts: seq<Session>, i: nat)
    requires i < |ms| && |ts| == |ms| + 1
  {
    ts[i].device.Valid() && ts[i + 1] == Serve1(codec, version, callback, ts[i], ms[i], now)
  }

  /** `ts` lists the sessions along the way: `ts[i]` is `s` once the first `i` messages of `ms` are served. */
  ghost predicate IsTrace(codec: Codec, version: string, callback: bool, now: int, s: Session, ms: seq<bytes>,
                          ts: seq<Session>)
  {
    |ts| == |ms| + 1 && ts[0] == s &&
    forall i: nat :: i < |ms| ==> StepAt(codec, version, callback, now, ms, ts, i)
  }

  /** Serving the messages passes through the sessions of a trace and ends in its last one. */
  lemma {:induction false} Sessions(codec: Codec, version: string, callback: bool, s: Session, ms: seq<bytes>, now: int)
    returns (ts: seq<Session>)
    requires s.device.Valid()
    ensures IsTrace(codec, version, callback, now, s, ms, ts)
    ensures ts[|ms|] == Serve(codec, version, callback, s, ms, now)
    decreases |ms|
  {
    if ms == [] {
      ts := [s];
    } else {
      var later := Sessions(codec, version, callback, Serve1(codec, version, callback, s, ms[0], now), ms[1..], now);
      ts := [s] + later;
      forall i: nat | i < |ms| ensures StepAt(codec, version, callback, now, ms, ts, i) {
        if i > 0 {
          assert StepAt(codec, version, callback, now, ms[1..], later, i - 1);
          assert ts[i] == later[i - 1] && ts[i + 1] == later[i] && ms[i] == ms[1..][i - 1];
        }
      }
    }
  }

  /**
   * A session answers every non-empty message with exactly one reply frame, appended after
   * what was already written, and ignores empty messages.
   */
  lemma {:induction false} ServeAnswersEach(codec: Codec, version: string, callback: bool, s: Session,
                                            ms: seq<bytes>, now: int)
    requires s.device.Valid()
    ensures var r := Serve(codec, version, callback, s, ms, now);
      |r.sent| == |s.sent| + Answered(ms) && r.sent[..|s.sent|] == s.sent &&
      forall k :: |s.sent| <= k < |r.sent| ==> IsReplyFrame(r.sent[k])
    decreases |ms|
  {
    if ms != [] {
      var t := Serve1(codec, version, callback, s, ms[0], now);
      DispatchReplies(codec, version, s.device, s.sequencer, callback, ms[0], now);
      ServeAnswersEach(codec, version, callback, t, ms[1..], now);
      var r := Serve(codec, version, callback, t, ms[1..], now);
      assert r.sent[..|s.sent|] == r.sent[..|t.sent|][..|s.sent|];
      forall k | |s.sent| <= k < |t.sent| ensures IsReplyFrame(r.sent[k]) {
        assert r.sent[k] == r.sent[..|t.sent|][k];
      }
    }
  }

  /** A command that is echoed: not empty, and not a poll or a version request. */
  predicate Echoed(m: bytes)
  {
    m != [] && m[0] != Question && m[0] != Zero
  }

  /** Echoed commands are written back as their own frames, in the order they arrived, whatever they do to the device. */
  lemma {:induction false} ServeEchoes(codec: Codec, version: string, callback: bool, s: Session,
                                       ms: seq<bytes>, now: int)
    requires s.device.Valid()
    requires forall k :: 0 <= k < |ms| ==> Echoed(ms[k])
    ensures Serve(codec, version, callback, s, ms, now).sent ==
      s.sent + seq(|ms|, k requires 0 <= k < |ms| => Frame(ms[k], Dollar))
    decreases |ms|
  {
    if ms != [] {
      var t := Serve1(codec, version, callback, s, ms[0], now);
      DispatchReplies(codec, version, s.device, s.sequencer, callback, ms[0], now);
      ServeEchoes(codec, version, callback, t, ms[1..], now);
      assert seq(|ms|, k requires 0 <= k < |ms| => Frame(ms[k], Dollar)) ==
        [Frame(ms[0], Dollar)] + seq(|ms| - 1, k requires 0 <= k < |ms| - 1 => Frame(ms[1..][k], Dollar));
    }
  }

  /**
   * Two framed commands arriving in one read get their two replies, in order: the buffer
   * `"`a`$"`b`$` is answered as `"`a`$` then `"`b`$` for echoed commands a and b.
   */
  lemma TwoFramesTwoReplies(codec: Codec, version: string, callback: bool, s: Session, a: bytes, b: bytes, now: int)
    requires s.device.Valid() && Echoed(a) && Echoed(b) && NoEnd(a) && NoEnd(b)
    ensures Split(Frame(a, Dollar) + Frame(b, Dollar)) == Framed([a, b], [])
    ensures Serve(codec, version, callback, s, Split(Frame(a, Dollar) + Frame(b, Dollar)).messages, now).sent ==
      s.sent + [Frame(a, Dollar), Frame(b, Dollar)]
  {
    FrameThen(a, Dollar, Frame(b, Dollar));
    RoundTrip(b, Dollar);
    ServeEchoes(codec, version, callback, s, [a, b], now);
  }

  class ClientHandler {
    const mock: MockConnection
    var buffer: bytes
    var sent: seq<bytes>
    ghost var dispatched: seq<bytes>  // every message handed to the dispatcher, in order

    ghost predicate Valid()
      reads this, mock, mock.state, mock.startLight
    {
      mock.Valid() && mock.responses == []
    }

    /** The part of the session that commands change: device, sequencer, bytes written back. */
    function Current(): Session
      reads this, mock, mock.state, mock.startLight
    {
      Session(mock.state.View(), mock.startLight.Snapshot(), sent)
    }

    constructor (state: ControlUnitState, codec: Codec)
      requires state.Valid()
      ensures Valid() && mock.state == state && mock.codec == codec && fresh(mock)
      ensures buffer == [] && sent == [] && dispatched == []
    {
      mock := new MockConnection(state, codec);
      buffer := [];
      sent := [];
      dispatched := [];
    }

    /**
     * `_process_buffer`: dispatch every complete frame of the buffer, in order, and keep
     * only an unfinished frame. The device, the sequencer and the bytes written back are
     * those of serving the messages `Split` cuts from the buffer, one after the other.
     */
    method ProcessBuffer(now: int)
      requires Valid()
      modifies this, mock`responses, mock.state, mock.startLight
      ensures Valid()
      ensures buffer == Split(old(buffer)).rest
      ensures buffer == [] || (buffer[0] == Quote && NoEnd(buffer))
      ensures dispatched == old(dispatched) + Split(old(buffer)).messages
      ensures Current() ==
        Serve(mock.codec, mock.state.version, mock.onRaceStart,
              old(Current()),
              Split(old(buffer)).messages, now)
    {
      ghost var ms, rest := Split(buffer).messages, Split(buffer).rest;
      ghost var ts := Sessions(mock.codec, mock.state.version, mock.onRaceStart, Current(), ms, now);
      ServeAll(now, ms, ts, rest);
    }

    /**
     * The `_process_buffer` loop: with the buffer splitting into `ms` and `rest`, serve the
     * messages one pass at a time along the trace `ts`, until only `rest` is left.
     */
    method ServeAll(now: int, ghost ms: seq<bytes>, ghost ts: seq<Session>, ghost rest: bytes)
      requires Valid() && |ts| == |ms| + 1
      requires IsTrace(mock.codec, mock.state.version, mock.onRaceStart, now, ts[0], ms, ts)
      requires Split(buffer).messages == ms && Split(buffer).rest == rest && Current() == ts[0]
      modifies this, mock`responses, mock.state, mock.startLight
      ensures Valid() && buffer == rest && (buffer == [] || (buffer[0] == Quote && NoEnd(buffer)))
      ensures dispatched == old(dispatched) + ms && Current() == ts[|ms|]
    {
      ghost var k := 0;
      while true
        invariant Valid()
        invariant k <= |ms| && Split(buffer).messages == ms[k..] && Split(buffer).rest == rest
        invariant dispatched == old(dispatched) + ms[..k]
        invariant Current() == ts[k]
        decreases |buffer|
      {
        var message := ServeNextFrame(now, ms, ts, k);
        if message.None? {
          assert ms[..k] == ms;
          return;
        }
        PrefixGrows(ms, k);
        k := k + 1;
      }
    }

    /**
     * One pass of the `_process_buffer` loop: take the next frame off the buffer and, when
     * it was complete, hand its message to `HandleMessage`. With the buffer holding the
     * messages from `ms[k]` on, the session moves from `ts[k]` to `ts[k + 1]`.
     */
    method ServeNextFrame(now: int, ghost ms: seq<bytes>, ghost ts: seq<Session>, ghost k: nat)
      returns (message: Option<bytes>)
      requires Valid() && k <= |ms| && |ts| == |ms| + 1
      requires IsTrace(mock.codec, mock.state.version, mock.onRaceStart, now, ts[0], ms, ts)
      requires Split(buffer).messages == ms[k..] && Current() == ts[k]
      modifies this, mock`responses, mock.state, mock.startLight
      ensures Valid() && Split(buffer).rest == Split(old(buffer)).rest
      ensures message.None? ==>
        k == |ms| && buffer == Split(old(buffer)).rest &&
        (buffer == [] || (buffer[0] == Quote && NoEnd(buffer))) &&
        dispatched == old(dispatched) && Current() == old(Current())
      ensures message.Some? ==>
        k < |ms| && message.value == ms[k] && Split(buffer).messages == ms[k + 1..] &&
        |buffer| < |old(buffer)| && dispatched == old(dispatched) + [ms[k]] && Current() == ts[k + 1]
    {
      SplitWellFormed(buffer);
      message := TakeFrame();
      if message.None? {
        assert |ms[k..]| == 0;
        if buffer != [] {
          SplitOpen(buffer);
        }
        return;
      }
      assert ms[k..][0] == ms[k] && ms[k..][1..] == ms[k + 1..];
      assert StepAt(mock.codec, mock.state.version, mock.onRaceStart, now, ms, ts, k);
      HandleMessage(message.value, now);
    }

    /**
     * One pass of the `_process_buffer` loop up to the dispatch: without a start marker the
     * buffer is cleared; bytes before it are dropped; the scan for the first `$` or `#`
     * either finds none (the unfinished frame stays) or cuts the message off the buffer.
     */
    method TakeFrame() returns (message: Option<bytes>)
      modifies this`buffer
      ensures message.None? ==> Split(old(buffer)) == Framed([], buffer)
      ensures message.Some? ==>
        Split(old(buffer)) == Framed([message.value] + Split(buffer).messages, Split(buffer).rest) &&
        |buffer| + 2 + |message.value| <= |old(buffer)|
    {
      var start := FindQuote(buffer);
      if start.None? {
        NoStartClears(buffer);
        buffer := [];
        return None;
      }
      if start.value > 0 {
        assert buffer == buffer[..start.value] + buffer[start.value..];
        PrefixDiscarded(buffer[..start.value], buffer[start.value..]);
        buffer := buffer[start.value..];
      }
      var end := ScanEnd(buffer);
      if end == -1 {
        SplitOpen(buffer);
        return None;
      }
      SplitClosed(buffer, end);
      message := Some(buffer[1..end]);
      buffer := buffer[end + 1..];
    }

    /**
     * `_handle_message`: pass the message to the dispatcher and write the reply back as
     * `"` + reply + `$`; an empty message gets no reply.
     */
    method HandleMessage(message: bytes, now: int)
      requires Valid()
      modifies this`sent, this`dispatched, mock`responses, mock.state, mock.startLight
      ensures Valid()
      ensures dispatched == old(dispatched) + [message]
      ensures Current() ==
        Serve1(mock.codec, mock.state.version, mock.onRaceStart,
               old(Current()), message, now)
    {
      dispatched := dispatched + [message];
      var err := mock.Send(message, 0, None, now);
      assert message[0..|message|] == message;
      var response := mock.Recv(None);
      match response
      case Timeout =>
      case Data(d) =>
        if d != [] {
          sent := sent + [[Quote] + d + [Dollar]];
        }
    }
  }
}
