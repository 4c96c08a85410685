/** How far the result of a run depends on the way the stream was cut into chunks. */
module Chunking {
  import opened Bytes
  import opened Framing
  import opened Receiving

  predicate HeadersFit(segments: seq<Segment>) {
    forall s :: s in segments ==> Fits(s)
  }

  function Last(segments: seq<Segment>): Segment
    requires segments != []
  {
    segments[|segments| - 1]
  }

  /** What a caller can see after a run: the messages queued and the bytes still buffered. */
  function Outcome(d: Drained): (seq<Message>, seq<byte>) {
    (Messages(d.segments), d.rest)
  }

  lemma QuiescentPrefix(a: seq<byte>, b: seq<byte>)
    requires Quiescent(a + b)
    ensures Quiescent(a)
  {
  }

  lemma FirstHeaderFits(buffer: seq<byte>, stale: byte)
    requires !Quiescent(buffer) && buffer[0] == STX && HeadersFit(Drain(buffer, stale).segments)
    ensures LengthOf(buffer) <= MAX_LENGTH
  {
    var first := Drain(buffer, stale).segments[0];
    assert Fits(first);
    assert LengthOf(first.bytes) == LengthOf(buffer);
  }

  /** The indeterminate trailer value matters only behind an oversized header. */
  lemma StaleIrrelevant(buffer: seq<byte>, stale: byte, other: byte)
    requires HeadersFit(Drain(buffer, stale).segments)
    ensures Drain(buffer, other) == Drain(buffer, stale)
  {
    if !Quiescent(buffer) && buffer[0] == STX {
      FirstHeaderFits(buffer, stale);
      ExtractFits(buffer, stale);
      ExtractFits(buffer, other);
    }
  }

  /** Draining `a + b`, computed from draining `a` first. */
  function Continued(d: Drained, b: seq<byte>, stale: byte): Drained {
    if EndsClean(d.segments) then Prepend(d.segments, Drain(d.rest + b, stale))
    else
      var before := d.segments[..|d.segments| - 1];
      match Last(d.segments)
      case Dumped(junk) => Drained(before + [Dumped(junk + b)], [])
      case Rejected(_) => Drained(d.segments, d.rest + b)
  }

  lemma ContinuedCons(first: Segment, d: Drained, b: seq<byte>, stale: byte)
    requires first.Delivered?
    ensures Continued(Prepend([first], d), b, stale) == Prepend([first], Continued(d, b, stale))
  {
  }

  lemma SliceOfLonger(a: seq<byte>, b: seq<byte>, i: nat, j: nat)
    requires i <= j <= |a|
    ensures (a + b)[i..j] == a[i..j] && (a + b)[j..] == a[j..] + b
  {
  }

  /** A first frame that is complete in `a` is the first frame of `a + b` as well. */
  lemma FirstOfLonger(a: seq<byte>, b: seq<byte>, stale: byte)
    requires |a| >= HEADER_SIZE && a[0] == STX && LengthOf(a) <= MAX_LENGTH && |a| >= Need(LengthOf(a))
    ensures Extract(a + b, stale) == Extract(a, stale) && LengthOf(a + b) == LengthOf(a)
    ensures var used := Extract(a, stale).used;
      (a + b)[..used] == a[..used] && (a + b)[used..] == a[used..] + b
  {
    var n := LengthOf(a);
    assert LengthOf(a + b) == n;
    ExtractFits(a, stale);
    ExtractFits(a + b, stale);
    SliceOfLonger(a, b, 5, n + 5);
    SliceOfLonger(a, b, 0, n + 6);
  }

  lemma {:induction false} DrainExtends(a: seq<byte>, b: seq<byte>, stale: byte, next: byte)
    requires HeadersFit(Drain(a + b, stale).segments)
    ensures HeadersFit(Drain(a, stale).segments)
    ensures Drain(a + b, stale) == Continued(Drain(a, stale), b, next)
    decreases |a|
  {
    if Quiescent(a) {
      StaleIrrelevant(a + b, stale, next);
      assert Drain(a + b, next).segments == [] + Drain(a + b, next).segments;
    } else if a[0] == STX {
      assert LengthOf(a + b) == LengthOf(a);
      FirstHeaderFits(a + b, stale);
      FirstOfLonger(a, b, stale);
      var e := Extract(a, stale);
      var left := a[e.used..];
      if e.trailer == ETX {
        var first := Delivered(e.message, a[..e.used]);
        assert Drain(a + b, stale) == Prepend([first], Drain(left + b, ETX));
        assert forall s :: s in Drain(left + b, ETX).segments ==> s in Drain(a + b, stale).segments;
        DrainExtends(left, b, ETX, next);
        ContinuedCons(first, Drain(left, ETX), b, next);
      }
    } else {
      assert (a + b)[0] == a[0];
      assert Drain(a, stale).segments == [] + [Dumped(a)];
    }
  }

  /** The loop consumed the stream without error, or stopped at an error behind which no byte could matter:
      a bad start in the last five bytes, or a bad trailer followed by nothing complete. */
  predicate Splittable(d: Drained) {
    EndsClean(d.segments)
    || match Last(d.segments) {
         case Dumped(junk) => |junk| == HEADER_SIZE
         case _ => Quiescent(d.rest)
       }
  }

  lemma {:induction false} FeedQuiescent(buffer: seq<byte>, calls: seq<Call>)
    requires Quiescent(buffer + Stream(calls))
    ensures Feed(buffer, calls) == Drained([], buffer + Stream(calls))
    decreases |calls|
  {
    if calls == [] {
      assert buffer + Stream(calls) == buffer;
    } else {
      var whole := buffer + calls[0].chunk;
      Regroup(buffer, calls[0].chunk, Stream(calls[1..]));
      QuiescentPrefix(whole, Stream(calls[1..]));
      FeedQuiescent(whole, calls[1..]);
    }
  }

  /** Any chunking of a splittable stream gives the segments and the leftover of one call on the whole. */
  lemma {:induction false} FeedSplittable(buffer: seq<byte>, calls: seq<Call>, stale: byte)
    requires Quiescent(buffer)
    requires var d := Drain(buffer + Stream(calls), stale); HeadersFit(d.segments) && Splittable(d)
    ensures Feed(buffer, calls) == Drain(buffer + Stream(calls), stale)
    decreases |calls|
  {
    if calls == [] {
      assert buffer + Stream(calls) == buffer;
    } else {
      var (whole, later) := (buffer + calls[0].chunk, Stream(calls[1..]));
      var d := Drain(whole, stale);
      Regroup(buffer, calls[0].chunk, later);
      DrainExtends(whole, later, stale, stale);
      StaleIrrelevant(whole, stale, calls[0].stale);
      StopsAtFirstError(whole, stale);
      if EndsClean(d.segments) {
        SplittableTail(d.segments, Drain(d.rest + later, stale));
        FeedSplittable(d.rest, calls[1..], stale);
      } else if Last(d.segments).Dumped? {
        DumpedLength(whole, stale);
        assert later == [];
        assert d.rest + later == [];
        FeedQuiescent(d.rest, calls[1..]);
        FeedNothing(d, Last(d.segments).bytes);
      } else {
        FeedQuiescent(d.rest, calls[1..]);
        assert d.segments + [] == d.segments;
      }
    }
  }

  lemma FeedNothing(d: Drained, junk: seq<byte>)
    requires d.segments != [] && Last(d.segments) == Dumped(junk)
    ensures d.segments == d.segments[..|d.segments| - 1] + [Dumped(junk + [])] && d.segments + [] == d.segments
  {
    assert junk + [] == junk;
  }

  lemma SplittableTail(segments: seq<Segment>, d: Drained)
    requires EndsClean(segments) && HeadersFit(segments + d.segments) && Splittable(Prepend(segments, d))
    ensures HeadersFit(d.segments) && Splittable(d)
  {
  }

  lemma {:induction false} DumpedLength(buffer: seq<byte>, stale: byte)
    requires var d := Drain(buffer, stale); d.segments != [] && Last(d.segments).Dumped?
    ensures |Last(Drain(buffer, stale).segments).bytes| >= HEADER_SIZE
    decreases |buffer|
  {
    var d := Drain(buffer, stale);
    if d.segments[0].Delivered? {
      DrainDelivered(buffer, stale);
      DumpedLength(buffer[|d.segments[0].bytes|..], ETX);
    }
  }

  // ---------- the converse: a stream that is not splittable has two chunkings with different outcomes ----------

  /** A byte that completes a first frame completes nothing else. */
  lemma CompletingByte(buffer: seq<byte>, b: byte, stale: byte)
    requires Quiescent(buffer) && !Quiescent(buffer + [b]) && (buffer + [b])[0] == STX
    requires HeadersFit(Drain(buffer + [b], stale).segments)
    ensures var d := Drain(buffer + [b], stale); |d.segments| == 1 && !d.segments[0].Dumped? && d.rest == []
  {
    var whole := buffer + [b];
    FirstHeaderFits(whole, stale);
    ExtractFits(whole, stale);
    assert LengthOf(buffer) == LengthOf(whole);
    assert whole[Extract(whole, stale).used..] == [];
  }

  /** One byte more than a quiescent buffer cannot bring a bad start of more than five bytes. */
  lemma OneMoreByte(buffer: seq<byte>, b: byte, stale: byte)
    requires Quiescent(buffer)
    requires var d := Drain(buffer + [b], stale); HeadersFit(d.segments) && d.segments != [] && Last(d.segments).Dumped?
    ensures |Last(Drain(buffer + [b], stale).segments).bytes| <= HEADER_SIZE
  {
    if (buffer + [b])[0] == STX {
      CompletingByte(buffer, b, stale);
    }
  }

  /** A bad start of more than five bytes is dumped before its last byte arrives. */
  lemma DumpedEarly(a: seq<byte>, b: byte, stale: byte)
    requires var d := Drain(a + [b], stale);
      HeadersFit(d.segments) && d.segments != [] && Last(d.segments).Dumped? && |Last(d.segments).bytes| > HEADER_SIZE
    ensures Drain(a, stale).rest == []
  {
    var d := Drain(a + [b], stale);
    DrainExtends(a, [b], stale, stale);
    StopsAtFirstError(a, stale);
    var early := Drain(a, stale);
    if EndsClean(early.segments) {
      ErrorIsLater(early.segments, Drain(early.rest + [b], stale).segments);
      OneMoreByte(early.rest, b, stale);
    }
  }

  lemma ErrorIsLater(segments: seq<Segment>, more: seq<Segment>)
    requires EndsClean(segments) && HeadersFit(segments + more) && !EndsClean(segments + more)
    ensures HeadersFit(more) && more != [] && Last(more) == Last(segments + more)
  {
  }

  /** No call is made with an empty chunk. */
  predicate NonEmpty(calls: seq<Call>) {
    forall c :: c in calls ==> c.chunk != []
  }

  lemma TwoCalls(a: seq<byte>, b: seq<byte>, stale: byte) returns (calls: seq<Call>)
    requires a != [] && b != []
    ensures Stream(calls) == a + b && NonEmpty(calls)
    ensures Feed([], calls).rest == Drain(Drain(a, stale).rest + b, stale).rest
  {
    calls := [Call(a, stale), Call(b, stale)];
    var d := Drain(a, stale);
    var second := [Call(b, stale)];
    assert calls[1..] == second && second[1..] == [];
    assert Stream(second) == b + Stream([]) == b;
    assert [] + a == a;
    assert Feed(d.rest, second).rest == Drain(d.rest + b, stale).rest;
  }

  /** Cutting off the last byte behind a bad start leaves that byte in the buffer. */
  lemma CutBehindBadStart(stream: seq<byte>, stale: byte) returns (calls: seq<Call>)
    requires var d := Drain(stream, stale);
      HeadersFit(d.segments) && d.segments != [] && Last(d.segments).Dumped? && |Last(d.segments).bytes| > HEADER_SIZE
    ensures Stream(calls) == stream && NonEmpty(calls) && Outcome(Feed([], calls)) != Outcome(Drain(stream, stale))
  {
    DrainConserves(stream, stale);
    assert |stream| > 1 by {
      SpentLast(Drain(stream, stale).segments);
    }
    var (a, b) := (stream[..|stream| - 1], stream[|stream| - 1]);
    assert stream == a + [b];
    DumpedEarly(a, b, stale);
    StopsAtFirstError(stream, stale);
    calls := TwoCalls(a, [b], stale);
    assert Drain([b], stale) == Drained([], [b]);
  }

  lemma {:induction false} SpentLast(segments: seq<Segment>)
    requires segments != []
    ensures |Spent(segments)| >= |Last(segments).bytes|
  {
    if |segments| > 1 {
      SpentLast(segments[1..]);
    }
  }

  /** If a bad trailer leaves something processable, the loop stops there before the last byte arrives. */
  lemma RejectedEarly(a: seq<byte>, b: byte, stale: byte)
    requires var d := Drain(a + [b], stale); HeadersFit(d.segments) && !Quiescent(d.rest)
    ensures Drain(a + [b], stale).rest == Drain(a, stale).rest + [b]
  {
    DrainExtends(a, [b], stale, stale);
    StopsAtFirstError(a, stale);
    StopsAtFirstError(a + [b], stale);
    var early := Drain(a, stale);
    if EndsClean(early.segments) {
      var more := Drain(early.rest + [b], stale);
      assert HeadersFit(more.segments) && more.rest == Drain(a + [b], stale).rest;
      RestAfterOneMore(early.rest, b, stale);
    }
  }

  lemma RestAfterOneMore(buffer: seq<byte>, b: byte, stale: byte)
    requires Quiescent(buffer) && HeadersFit(Drain(buffer + [b], stale).segments)
    ensures Quiescent(Drain(buffer + [b], stale).rest)
  {
    if !Quiescent(buffer + [b]) && (buffer + [b])[0] == STX {
      CompletingByte(buffer, b, stale);
    }
  }

  lemma RestNotLonger(buffer: seq<byte>, stale: byte)
    ensures |Drain(buffer, stale).rest| <= |buffer|
  {
    DrainConserves(buffer, stale);
  }

  lemma Progress(buffer: seq<byte>, stale: byte)
    requires !Quiescent(buffer)
    ensures Drain(buffer, stale).rest != buffer
  {
    var d := Drain(buffer, stale);
    DrainConserves(buffer, stale);
    assert Spent(d.segments) != [];
  }

  /** Cutting off the last byte behind a bad trailer that leaves something processable makes the receiver go
      on with it. */
  lemma CutBehindBadTrailer(stream: seq<byte>, stale: byte) returns (calls: seq<Call>)
    requires var d := Drain(stream, stale); HeadersFit(d.segments) && !Quiescent(d.rest)
    ensures Stream(calls) == stream && NonEmpty(calls) && Outcome(Feed([], calls)) != Outcome(Drain(stream, stale))
  {
    var d := Drain(stream, stale);
    RestNotLonger(stream, stale);
    var (a, b) := (stream[..|stream| - 1], stream[|stream| - 1]);
    assert stream == a + [b];
    RejectedEarly(a, b, stale);
    calls := TwoCalls(a, [b], stale);
    Progress(d.rest, stale);
  }

  /** If every chunking without empty chunks gives the outcome of one call, then that call ends splittable. */
  lemma SplittableIfInvariant(stream: seq<byte>, stale: byte)
    requires HeadersFit(Drain(stream, stale).segments)
    requires forall calls | Stream(calls) == stream && NonEmpty(calls) ::
      Outcome(Feed([], calls)) == Outcome(Drain(stream, stale))
    ensures Splittable(Drain(stream, stale))
  {
    var d := Drain(stream, stale);
    if !Splittable(d) {
      if Last(d.segments).Dumped? {
        DumpedLength(stream, stale);
        var calls := CutBehindBadStart(stream, stale);
      } else {
        var calls := CutBehindBadTrailer(stream, stale);
      }
    }
  }
}
