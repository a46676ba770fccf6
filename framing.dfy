/**
 * Frame extraction of the TCP transport (`ClientHandler._process_buffer`, server.py), as a
 * pure reference definition: a frame starts at `"` and ends at the first following `$` or
 * `#`; bytes before a start marker are junk; an unfinished frame stays in the buffer.
 */
module Framing {
  import opened Base

  predicate IsEnd(x: byte)
  {
    x == Dollar || x == Hash
  }

  predicate NoEnd(m: bytes)
  {
    forall k :: 0 <= k < |m| ==> !IsEnd(m[k])
  }

  predicate NoQuote(m: bytes)
  {
    forall k :: 0 <= k < |m| ==> m[k] != Quote
  }

  /** `bytearray.find(b'"')`: the first start marker, if any. */
  function FindQuote(b: bytes): (r: Option<nat>)
    ensures r.Some? ==> r.value < |b| && b[r.value] == Quote && NoQuote(b[..r.value])
    ensures r.None? ==> NoQuote(b)
  {
    if b == [] then None
    else if b[0] == Quote then Some(0)
    else match FindQuote(b[1..])
      case None => None
      case Some(i) => assert b[..i + 1] == [b[0]] + b[1..][..i]; Some(i + 1)
  }

  /** The first end marker, if any. */
  function FindEnd(b: bytes): (r: Option<nat>)
    ensures r.Some? ==> r.value < |b| && IsEnd(b[r.value]) && NoEnd(b[..r.value])
    ensures r.None? ==> NoEnd(b)
  {
    if b == [] then None
    else if IsEnd(b[0]) then Some(0)
    else match FindEnd(b[1..])
      case None => None
      case Some(i) => assert b[..i + 1] == [b[0]] + b[1..][..i]; Some(i + 1)
  }

  /** The messages a buffer yields, in order, and the bytes left for the next read. */
  datatype Framed = Framed(messages: seq<bytes>, rest: bytes)

  /** The bytes that `ms` take on the wire: each message with its start and end marker. */
  function WireLength(ms: seq<bytes>): nat
  {
    if ms == [] then 0 else |ms[0]| + 2 + WireLength(ms[1..])
  }

  /** The frames of `buf`: every complete frame's message in order, and the bytes kept for the next read. */
  function Split(buf: bytes): (r: Framed)
    ensures |r.rest| <= |buf|
    decreases |buf|, 1
  {
    match FindQuote(buf)
    case None => Framed([], [])
    case Some(i) => SplitAtStart(buf[i..])
  }

  /**
   * The frames of a buffer whose first byte is a start marker; nothing is cut exactly when
   * the buffer is kept whole.
   */
  function SplitAtStart(b: bytes): (r: Framed)
    requires |b| > 0 && b[0] == Quote
    ensures r.messages == [] <==> r.rest == b
    decreases |b|, 0
  {
    match FindEnd(b)
    case None => Framed([], b)
    case Some(e) =>
      var tail := Split(b[e + 1..]);
      Framed([b[1..e]] + tail.messages, tail.rest)
  }

  /** The messages cut out, each with its two markers, and the bytes kept never exceed the buffer. */
  lemma {:induction false} SplitWireLength(buf: bytes)
    ensures WireLength(Split(buf).messages) + |Split(buf).rest| <= |buf|
    decreases |buf|, 1
  {
    match FindQuote(buf)
    case None =>
    case Some(i) => SplitAtStartWireLength(buf[i..]);
  }

  lemma {:induction false} SplitAtStartWireLength(b: bytes)
    requires |b| > 0 && b[0] == Quote
    ensures WireLength(SplitAtStart(b).messages) + |SplitAtStart(b).rest| <= |b|
    decreases |b|, 0
  {
    match FindEnd(b)
    case None =>
    case Some(e) =>
      var tail := Split(b[e + 1..]);
      SplitWireLength(b[e + 1..]);
      assert ([b[1..e]] + tail.messages)[1..] == tail.messages;
  }

  /** What a split yields is well formed: messages free of end markers, an empty or unfinished rest. */
  predicate WellFormed(f: Framed)
  {
    (forall j :: 0 <= j < |f.messages| ==> NoEnd(f.messages[j])) &&
    (f.rest == [] || (f.rest[0] == Quote && NoEnd(f.rest)))
  }

  /**
   * No dispatched message contains `$` or `#`; afterwards the buffer is empty or holds one
   * unfinished frame (a start marker and no end marker) that is a suffix of the input.
   */
  lemma {:induction false} SplitWellFormed(buf: bytes)
    ensures WellFormed(Split(buf))
    ensures |Split(buf).rest| <= |buf| && Split(buf).rest == buf[|buf| - |Split(buf).rest|..]
    decreases |buf|, 1
  {
    match FindQuote(buf)
    case None =>
    case Some(i) =>
      SplitAtStartWellFormed(buf[i..]);
      assert buf[i..][|buf[i..]| - |Split(buf).rest|..] == buf[|buf| - |Split(buf).rest|..];
  }

  lemma {:induction false} SplitAtStartWellFormed(b: bytes)
    requires |b| > 0 && b[0] == Quote
    ensures WellFormed(SplitAtStart(b))
    ensures |SplitAtStart(b).rest| <= |b| && SplitAtStart(b).rest == b[|b| - |SplitAtStart(b).rest|..]
    decreases |b|, 0
  {
    match FindEnd(b)
    case None =>
    case Some(e) =>
      var t := b[e + 1..];
      SplitWellFormed(t);
      assert SplitAtStart(b) == Framed([b[1..e]] + Split(t).messages, Split(t).rest);
      NoEndInside(b, e);
      WellFormedCons(b[1..e], Split(t));
      assert t[|t| - |Split(t).rest|..] == b[|b| - |Split(t).rest|..];
  }

  /** Dropping the first byte of an end-free prefix leaves it end-free. */
  lemma NoEndInside(b: bytes, e: nat)
    requires 1 <= e <= |b| && NoEnd(b[..e])
    ensures NoEnd(b[1..e])
  {
    forall k | 0 <= k < e - 1 ensures !IsEnd(b[1..e][k]) {
      assert b[1..e][k] == b[..e][k + 1];
    }
  }

  /** An end-free message in front of a well-formed split keeps it well formed. */
  lemma WellFormedCons(m: bytes, tail: Framed)
    requires NoEnd(m) && WellFormed(tail)
    ensures WellFormed(Framed([m] + tail.messages, tail.rest))
  {
    var f := Framed([m] + tail.messages, tail.rest);
    forall j | 0 <= j < |f.messages| ensures NoEnd(f.messages[j]) {
      if j > 0 { assert f.messages[j] == tail.messages[j - 1]; }
    }
  }

  /** A buffer without a start marker is dropped whole and yields nothing. */
  lemma NoStartClears(buf: bytes)
    requires NoQuote(buf)
    ensures Split(buf) == Framed([], [])
  {
  }

  lemma {:induction false} FindQuoteAppend(junk: bytes, b: bytes)
    requires NoQuote(junk)
    ensures FindQuote(junk + b) == (if FindQuote(b).Some? then Some(|junk| + FindQuote(b).value) else None)
  {
    if junk != [] {
      assert (junk + b)[0] == junk[0];
      assert (junk + b)[1..] == junk[1..] + b;
      FindQuoteAppend(junk[1..], b);
    } else {
      assert junk + b == b;
    }
  }

  /** Junk before the first start marker is discarded and does not affect what follows. */
  lemma PrefixDiscarded(junk: bytes, b: bytes)
    requires NoQuote(junk)
    ensures Split(junk + b) == Split(b)
  {
    FindQuoteAppend(junk, b);
    match FindQuote(b)
    case None =>
      NoStartClears(junk + b);
      NoStartClears(b);
    case Some(i) =>
      SplitFromQuote(junk + b, |junk| + i);
      SplitFromQuote(b, i);
      assert (junk + b)[|junk| + i..] == b[i..];
  }

  /** A buffer whose first start marker is at `i` splits as its suffix from `i`. */
  lemma SplitFromQuote(buf: bytes, i: nat)
    requires FindQuote(buf) == Some(i)
    ensures i < |buf| && buf[i] == Quote && Split(buf) == SplitAtStart(buf[i..])
  {
  }

  lemma {:induction false} FindEndAppend(b: bytes, c: bytes)
    ensures FindEnd(b).Some? ==> FindEnd(b + c) == FindEnd(b)
    ensures FindEnd(b).None? ==>
      FindEnd(b + c) == (if FindEnd(c).Some? then Some(|b| + FindEnd(c).value) else None)
  {
    if b != [] {
      assert (b + c)[0] == b[0];
      assert (b + c)[1..] == b[1..] + c;
      FindEndAppend(b[1..], c);
    } else {
      assert b + c == c;
    }
  }

  /** The bytes of one frame on the wire: start marker, message, end marker. */
  function Frame(m: bytes, end: byte): (w: bytes)
    requires IsEnd(end)
    ensures |w| == |m| + 2 && w[0] == Quote && w[|w| - 1] == end
  {
    [Quote] + m + [end]
  }

  /** A complete frame in front of more input yields its message first, then whatever the rest yields. */
  lemma FrameThen(m: bytes, end: byte, more: bytes)
    requires IsEnd(end) && NoEnd(m)
    ensures Split(Frame(m, end) + more) == Framed([m] + Split(more).messages, Split(more).rest)
  {
    var w := Frame(m, end) + more;
    StartsAtQuote(w);
    FindEndAppend(Frame(m, end), more);
    assert FindEnd([Quote] + m) == None by {
      assert NoEnd([Quote] + m) by {
        forall k | 0 <= k < |m| + 1 ensures !IsEnd(([Quote] + m)[k]) {
          if k > 0 { assert ([Quote] + m)[k] == m[k - 1]; }
        }
      }
    }
    FindEndAppend([Quote] + m, [end]);
    assert Frame(m, end) == ([Quote] + m) + [end];
    assert FindEnd(w) == Some(|m| + 1);
    assert w[1..|m| + 1] == m;
    assert w[|m| + 2..] == more;
  }

  /** Round trip: one framed message, with either end marker, yields that message and leaves nothing. */
  lemma RoundTrip(m: bytes, end: byte)
    requires IsEnd(end) && NoEnd(m)
    ensures Split(Frame(m, end)) == Framed([m], [])
  {
    FrameThen(m, end, []);
    assert Frame(m, end) + [] == Frame(m, end);
  }

  /** The frames of a list of messages, each closed with `$`. */
  function Frames(ms: seq<bytes>): bytes
  {
    if ms == [] then [] else Frame(ms[0], Dollar) + Frames(ms[1..])
  }

  /** Any number of frames arriving in one read are all dispatched, in order, and nothing is left. */
  lemma {:induction false} FramesRoundTrip(ms: seq<bytes>)
    requires forall j :: 0 <= j < |ms| ==> NoEnd(ms[j])
    ensures Split(Frames(ms)) == Framed(ms, [])
  {
    if ms != [] {
      FramesRoundTrip(ms[1..]);
      FrameThen(ms[0], Dollar, Frames(ms[1..]));
      assert [ms[0]] + ms[1..] == ms;
    }
  }

  /**
   * Reading in pieces changes nothing: splitting `b` and then the retained rest followed
   * by `c` yields the same messages, in the same order, as splitting `b + c` at once.
   */
  lemma {:induction false} SplitStreams(b: bytes, c: bytes)
    ensures Split(b + c).messages == Split(b).messages + Split(Split(b).rest + c).messages
    ensures Split(b + c).rest == Split(Split(b).rest + c).rest
    decreases |b|, 1
  {
    match FindQuote(b)
    case None =>
      PrefixDiscarded(b, c);
      assert [] + c == c;
    case Some(i) =>
      var b' := b[i..];
      assert b + c == b[..i] + (b' + c);
      PrefixDiscarded(b[..i], b' + c);
      StartsAtQuote(b' + c);
      SplitAtStartStreams(b', c);
  }

  /** A buffer that begins with a start marker is split from its first byte. */
  lemma StartsAtQuote(b: bytes)
    requires |b| > 0 && b[0] == Quote
    ensures Split(b) == SplitAtStart(b)
  {
    assert b[0..] == b;
  }

  lemma {:induction false} SplitAtStartStreams(b: bytes, c: bytes)
    requires |b| > 0 && b[0] == Quote
    ensures SplitAtStart(b + c).messages == SplitAtStart(b).messages + Split(SplitAtStart(b).rest + c).messages
    ensures SplitAtStart(b + c).rest == Split(SplitAtStart(b).rest + c).rest
    decreases |b|, 0
  {
    FindEndAppend(b, c);
    match FindEnd(b)
    case None =>
      assert SplitAtStart(b) == Framed([], b);
      StartsAtQuote(b + c);
    case Some(e) =>
      var t := b[e + 1..];
      assert (b + c)[1..e] == b[1..e];
      assert (b + c)[e + 1..] == t + c;
      SplitStreams(t, c);
      Assemble(b[1..e], Split(t), Split(t + c), Split(Split(t).rest + c), SplitAtStart(b), SplitAtStart(b + c));
  }

  /** Putting one message in front of two splits that agree keeps them agreeing. */
  lemma Assemble(m: bytes, t: Framed, tc: Framed, later: Framed, fb: Framed, fbc: Framed)
    requires fb == Framed([m] + t.messages, t.rest)
    requires fbc == Framed([m] + tc.messages, tc.rest)
    requires tc.messages == t.messages + later.messages && tc.rest == later.rest
    ensures fbc.messages == fb.messages + later.messages && fbc.rest == later.rest
  {
    assert [m] + (t.messages + later.messages) == ([m] + t.messages) + later.messages;
  }

  /**
   * The scan of `_process_buffer` for the end of the frame: the index of the first `$` or
   * `#`, or -1 when there is none, exactly as `FindEnd` finds it.
   */
  method ScanEnd(b: bytes) returns (end: int)
    ensures end == (if FindEnd(b).Some? then FindEnd(b).value else -1)
  {
    var i := 0;
    while i < |b|
      invariant 0 <= i <= |b| && NoEnd(b[..i])
    {
      if IsEnd(b[i]) {
        FirstEnd(b, i);
        return i;
      }
      assert b[..i + 1] == b[..i] + [b[i]];
      i := i + 1;
    }
    assert b[..i] == b;
    return -1;
  }

  /** The first end marker is the one the scan stops at. */
  lemma {:induction false} FirstEnd(b: bytes, e: nat)
    requires e < |b| && IsEnd(b[e]) && NoEnd(b[..e])
    ensures FindEnd(b) == Some(e)
  {
    if e > 0 {
      assert b[..e][0] == b[0];
      assert b[1..][..e - 1] == b[1..e];
      NoEndInside(b, e);
      FirstEnd(b[1..], e - 1);
    }
  }

  /** A buffer that opens with a frame closed at `e` yields that frame's message first. */
  lemma SplitClosed(b: bytes, e: nat)
    requires 0 < e < |b| && b[0] == Quote && IsEnd(b[e]) && NoEnd(b[..e])
    ensures Split(b) == Framed([b[1..e]] + Split(b[e + 1..]).messages, Split(b[e + 1..]).rest)
  {
    FirstEnd(b, e);
    StartsAtQuote(b);
  }

  /** A buffer that opens with a start marker and holds no end marker is kept whole. */
  lemma SplitOpen(b: bytes)
    requires |b| > 0 && b[0] == Quote && NoEnd(b)
    ensures Split(b) == Framed([], b)
  {
    StartsAtQuote(b);
  }
}
