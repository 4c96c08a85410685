/** What `processChunk` makes of its buffered bytes, on flat byte sequences. */
module Receiving {
  import opened Bytes
  import opened Framing

  /** A queued message. `Unfilled` is a buffer of the given length that was allocated but never written. */
  datatype Message = Message(data: seq<byte>) | Unfilled(length: uint32)

  /** A run of bytes removed from the buffer together, and why. */
  datatype Segment =
    | Delivered(message: Message, bytes: seq<byte>)  // a frame whose trailer was accepted
    | Rejected(bytes: seq<byte>)                     // a frame with a bad trailer; the loop stops
    | Dumped(bytes: seq<byte>)                       // a bad start; the whole buffer is thrown away

  datatype Drained = Drained(segments: seq<Segment>, rest: seq<byte>)

  /** The number of buffered bytes the loop waits for, in 32-bit arithmetic. */
  function Need(length: uint32): uint32 {
    (length + HEADER_SIZE + TRAILER_SIZE) % WORD
  }

  datatype Extracted = Extracted(message: Message, trailer: byte, used: nat)

  /** The message and trailer pulled off a buffer: each `Pop` fails without effect when it asks for
      nothing or for more than there is, and its failure is ignored. */
  function Extract(buffer: seq<byte>, stale: byte): (e: Extracted)
    requires |buffer| >= HEADER_SIZE
    ensures HEADER_SIZE <= e.used <= |buffer|
  {
    var length := LengthOf(buffer);
    var end := if length <= |buffer| - HEADER_SIZE then HEADER_SIZE + length else HEADER_SIZE;
    var message := if length <= |buffer| - HEADER_SIZE then Message(buffer[HEADER_SIZE..end]) else Unfilled(length);
    if end < |buffer| then Extracted(message, buffer[end], end + 1) else Extracted(message, stale, end)
  }

  /** The parse loop. `stale` is what the trailer variable holds before the trailer is pulled. */
  function Drain(buffer: seq<byte>, stale: byte): Drained
    decreases |buffer|
  {
    if |buffer| < HEADER_SIZE then Drained([], buffer)
    else if buffer[0] != STX then Drained([Dumped(buffer)], [])
    else if |buffer| < Need(LengthOf(buffer)) then Drained([], buffer)
    else
      var e := Extract(buffer, stale);
      var (taken, left) := (buffer[..e.used], buffer[e.used..]);
      if e.trailer != ETX then Drained([Rejected(taken)], left)
      else Prepend([Delivered(e.message, taken)], Drain(left, ETX))
  }

  function Prepend(segments: seq<Segment>, d: Drained): Drained {
    Drained(segments + d.segments, d.rest)
  }

  function Messages(segments: seq<Segment>): seq<Message> {
    if segments == [] then []
    else (if segments[0].Delivered? then [segments[0].message] else []) + Messages(segments[1..])
  }

  /** The bytes of all the segments, in order. */
  function Spent(segments: seq<Segment>): seq<byte> {
    if segments == [] then [] else segments[0].bytes + Spent(segments[1..])
  }

  /** One call of `processChunk`, with the indeterminate first value of its trailer variable. */
  datatype Call = Call(chunk: seq<byte>, stale: byte)

  /** The bytes that a run of calls feeds in. */
  function Stream(calls: seq<Call>): seq<byte> {
    if calls == [] then [] else calls[0].chunk + Stream(calls[1..])
  }

  /** A run of calls on a receiver that holds `buffer`. */
  function Feed(buffer: seq<byte>, calls: seq<Call>): Drained
    decreases |calls|
  {
    if calls == [] then Drained([], buffer)
    else
      var d := Drain(buffer + calls[0].chunk, calls[0].stale);
      Prepend(d.segments, Feed(d.rest, calls[1..]))
  }

  // ---------- segments as lists ----------

  lemma MessagesCons(first: Segment, segments: seq<Segment>)
    ensures Messages([first] + segments) == (if first.Delivered? then [first.message] else []) + Messages(segments)
  {
  }

  lemma SpentCons(first: Segment, segments: seq<Segment>)
    ensures Spent([first] + segments) == first.bytes + Spent(segments)
  {
  }

  lemma Regroup<T>(a: seq<T>, b: seq<T>, c: seq<T>)
    ensures a + (b + c) == (a + b) + c
  {
  }

  lemma {:induction false} MessagesConcat(a: seq<Segment>, b: seq<Segment>)
    ensures Messages(a + b) == Messages(a) + Messages(b)
  {
    if a == [] {
      assert a + b == b;
    } else {
      assert a + b == [a[0]] + (a[1..] + b);
      MessagesCons(a[0], a[1..] + b);
      MessagesConcat(a[1..], b);
    }
  }

  lemma {:induction false} SpentConcat(a: seq<Segment>, b: seq<Segment>)
    ensures Spent(a + b) == Spent(a) + Spent(b)
  {
    if a == [] {
      assert a + b == b;
    } else {
      assert a + b == [a[0]] + (a[1..] + b);
      SpentCons(a[0], a[1..] + b);
      SpentConcat(a[1..], b);
    }
  }

  lemma {:induction false} FeedConcat(buffer: seq<byte>, a: seq<Call>, b: seq<Call>)
    ensures Feed(buffer, a + b) == Prepend(Feed(buffer, a).segments, Feed(Feed(buffer, a).rest, b))
    decreases |a|
  {
    if a == [] {
      assert a + b == b;
    } else {
      assert (a + b)[1..] == a[1..] + b;
      var d := Drain(buffer + a[0].chunk, a[0].stale);
      FeedConcat(d.rest, a[1..], b);
    }
  }

  // ---------- conservation and soundness, on arbitrary input ----------

  /** An accepted first frame leaves the rest of the buffer to the next iteration. */
  lemma DrainDelivered(buffer: seq<byte>, stale: byte)
    requires var d := Drain(buffer, stale); d.segments != [] && d.segments[0].Delivered?
    ensures var first := Drain(buffer, stale).segments[0];
      && HEADER_SIZE <= |first.bytes| <= |buffer|
      && buffer == first.bytes + buffer[|first.bytes|..]
      && Drain(buffer, stale) == Prepend([first], Drain(buffer[|first.bytes|..], ETX))
  {
    var e := Extract(buffer, stale);
    var (taken, left) := (buffer[..e.used], buffer[e.used..]);
    assert buffer == taken + left;
    assert Drain(buffer, stale) == Prepend([Delivered(e.message, taken)], Drain(left, ETX));
  }

  lemma DrainFailed(buffer: seq<byte>, stale: byte)
    requires var d := Drain(buffer, stale); d.segments != [] && !d.segments[0].Delivered?
    ensures var d := Drain(buffer, stale); d.segments == [d.segments[0]] && buffer == d.segments[0].bytes + d.rest
  {
  }

  /** No byte is lost, invented or reordered by the parse loop. */
  lemma {:induction false} DrainConserves(buffer: seq<byte>, stale: byte)
    ensures var d := Drain(buffer, stale); buffer == Spent(d.segments) + d.rest
    decreases |buffer|
  {
    var d := Drain(buffer, stale);
    if d.segments != [] {
      var first := d.segments[0];
      if first.Delivered? {
        DrainDelivered(buffer, stale);
        var left := buffer[|first.bytes|..];
        var more := Drain(left, ETX);
        DrainConserves(left, ETX);
        SpentCons(first, more.segments);
        Regroup(first.bytes, Spent(more.segments), more.rest);
      } else {
        DrainFailed(buffer, stale);
      }
    }
  }

  /** Over any run: all bytes ever fed are the consumed segments followed by what is still buffered. */
  lemma {:induction false} FeedConserves(buffer: seq<byte>, calls: seq<Call>)
    ensures var d := Feed(buffer, calls); buffer + Stream(calls) == Spent(d.segments) + d.rest
    decreases |calls|
  {
    if calls != [] {
      var d := Drain(buffer + calls[0].chunk, calls[0].stale);
      var more := Feed(d.rest, calls[1..]);
      DrainConserves(buffer + calls[0].chunk, calls[0].stale);
      FeedConserves(d.rest, calls[1..]);
      SpentConcat(d.segments, more.segments);
      Regroup(buffer, calls[0].chunk, Stream(calls[1..]));
      Regroup(Spent(d.segments), d.rest, Stream(calls[1..]));
      Regroup(Spent(d.segments), Spent(more.segments), more.rest);
    }
  }

  /** The header announces a length for which the 32-bit size computation does not wrap. */
  predicate Fits(segment: Segment) {
    segment.Dumped? || (|segment.bytes| >= HEADER_SIZE && LengthOf(segment.bytes) <= MAX_LENGTH)
  }

  /** The payload field of a complete frame. */
  function Body(bytes: seq<byte>): seq<byte>
    requires |bytes| > HEADER_SIZE
  {
    bytes[HEADER_SIZE..|bytes| - 1]
  }

  /** The segment is what it claims to be: delivered exactly when it is a well-formed frame of that payload. */
  predicate Exact(segment: Segment) {
    var bytes := segment.bytes;
    match segment
    case Delivered(message, _) =>
      HEADER_SIZE < |bytes| < WORD && message == Message(Body(bytes)) && bytes == Frame(Body(bytes))
    case Rejected(_) =>
      HEADER_SIZE < |bytes| < WORD && bytes[|bytes| - 1] != ETX
      && bytes == FrameWith(Body(bytes), bytes[|bytes| - 1])
    case Dumped(_) =>
      |bytes| >= HEADER_SIZE && bytes[0] != STX
  }

  /** A buffer that holds the whole frame its header announces starts with that frame. */
  lemma StartsWithFrame(buffer: seq<byte>)
    requires |buffer| >= HEADER_SIZE && buffer[0] == STX && |buffer| >= LengthOf(buffer) + 6
    ensures var n := LengthOf(buffer); buffer[..n + 6] == FrameWith(buffer[5..n + 5], buffer[n + 5])
  {
    HeaderOfLength(buffer);
    var n := LengthOf(buffer);
    assert buffer[..n + 6] == buffer[..5] + buffer[5..n + 5] + [buffer[n + 5]];
  }

  /** Without wrap-around, the loop pulls exactly one frame. */
  lemma ExtractFits(buffer: seq<byte>, stale: byte)
    requires |buffer| >= HEADER_SIZE && buffer[0] == STX && LengthOf(buffer) <= MAX_LENGTH
    requires |buffer| >= Need(LengthOf(buffer))
    ensures |buffer| >= LengthOf(buffer) + 6
    ensures var n := LengthOf(buffer);
      Extract(buffer, stale) == Extracted(Message(buffer[5..n + 5]), buffer[n + 5], n + 6)
    ensures var n := LengthOf(buffer); buffer[..n + 6] == FrameWith(buffer[5..n + 5], buffer[n + 5])
  {
    assert Need(LengthOf(buffer)) == LengthOf(buffer) + 6;
    StartsWithFrame(buffer);
  }

  /** The first segment taken from a buffer is exact if and only if its header does not wrap. */
  lemma FirstSegmentExact(buffer: seq<byte>, stale: byte)
    requires |buffer| < WORD && Drain(buffer, stale).segments != []
    ensures var first := Drain(buffer, stale).segments[0]; Exact(first) <==> Fits(first)
  {
    var first := Drain(buffer, stale).segments[0];
    if !first.Dumped? {
      var n := LengthOf(buffer);
      assert LengthOf(first.bytes) == n;
      if n <= MAX_LENGTH {
        ExtractFits(buffer, stale);
        assert Body(first.bytes) == buffer[5..n + 5];
      } else if Exact(first) {
        HeaderRoundTrip(|Body(first.bytes)|);
      }
    }
  }

  /** Each message delivered is the payload of an exact frame that was consumed, and each frame thrown away
      has a bad trailer, if and only if the length in its header is at most 2^32-7. */
  lemma {:induction false} Soundness(buffer: seq<byte>, stale: byte)
    requires |buffer| < WORD
    ensures forall s :: s in Drain(buffer, stale).segments ==> (Exact(s) <==> Fits(s))
    decreases |buffer|
  {
    var d := Drain(buffer, stale);
    if d.segments != [] {
      FirstSegmentExact(buffer, stale);
      if d.segments[0].Delivered? {
        var used := Extract(buffer, stale).used;
        Soundness(buffer[used..], ETX);
        assert d.segments == [d.segments[0]] + Drain(buffer[used..], ETX).segments;
      }
    }
  }

  /** Every call of the run starts on fewer than 2^32 bytes, the range of the buffer's size counter. */
  predicate Bounded(buffer: seq<byte>, calls: seq<Call>)
    decreases |calls|
  {
    calls == [] || (|buffer + calls[0].chunk| < WORD
                    && Bounded(Drain(buffer + calls[0].chunk, calls[0].stale).rest, calls[1..]))
  }

  /** The same over any run of calls. */
  lemma {:induction false} FeedSoundness(buffer: seq<byte>, calls: seq<Call>)
    requires Bounded(buffer, calls)
    ensures forall s :: s in Feed(buffer, calls).segments ==> (Exact(s) <==> Fits(s))
    decreases |calls|
  {
    if calls != [] {
      var d := Drain(buffer + calls[0].chunk, calls[0].stale);
      Soundness(buffer + calls[0].chunk, calls[0].stale);
      FeedSoundness(d.rest, calls[1..]);
    }
  }

  /** `uMsgLength` of a queued message. */
  function LengthOfMessage(m: Message): nat {
    match m
    case Message(data) => |data|
    case Unfilled(length) => length
  }

  /** The length of a delivered message is the one that the header of its frame announced, even if the message
      was never filled. */
  predicate LengthKept(segment: Segment) {
    segment.Delivered? ==>
      |segment.bytes| >= HEADER_SIZE && LengthOfMessage(segment.message) == LengthOf(segment.bytes)
  }

  lemma {:induction false} DeliveredLength(buffer: seq<byte>, stale: byte)
    ensures forall s :: s in Drain(buffer, stale).segments ==> LengthKept(s)
    decreases |buffer|
  {
    var d := Drain(buffer, stale);
    if d.segments != [] && d.segments[0].Delivered? {
      var used := Extract(buffer, stale).used;
      DeliveredLength(buffer[used..], ETX);
      assert LengthOf(d.segments[0].bytes) == LengthOf(buffer);
      assert d.segments == [d.segments[0]] + Drain(buffer[used..], ETX).segments;
    }
  }

  /** ... over any run of calls. */
  lemma {:induction false} FeedLengths(buffer: seq<byte>, calls: seq<Call>)
    ensures forall s :: s in Feed(buffer, calls).segments ==> LengthKept(s)
    decreases |calls|
  {
    if calls != [] {
      DeliveredLength(buffer + calls[0].chunk, calls[0].stale);
      FeedLengths(Drain(buffer + calls[0].chunk, calls[0].stale).rest, calls[1..]);
    }
  }

  /** Five header bytes of an oversized length and one ETX deliver a message whose buffer was never written. */
  lemma OversizedHeaderDeliversGarbage(stale: byte)
    ensures var frame: seq<byte> := [STX, 0xFF, 0xFF, 0xFF, 0xFF, ETX];
      Drain(frame, stale) == Drained([Delivered(Unfilled(WORD - 1), frame)], [])
  {
    var frame: seq<byte> := [STX, 0xFF, 0xFF, 0xFF, 0xFF, ETX];
    assert LengthOf(frame) == WORD - 1;
    var e := Extract(frame, stale);
    assert frame[..e.used] == frame;
    assert Drain(frame[e.used..], ETX) == Drained([], []);
  }

  // ---------- when the loop stops ----------

  /** Nothing can be taken from the buffer: the header or the frame is incomplete. */
  predicate Quiescent(buffer: seq<byte>) {
    |buffer| < HEADER_SIZE || (buffer[0] == STX && |buffer| < Need(LengthOf(buffer)))
  }

  /** The loop did not stop at an error. */
  predicate EndsClean(segments: seq<Segment>) {
    segments == [] || segments[|segments| - 1].Delivered?
  }

  /** Only the last segment can be an error; unless that is a bad trailer, nothing that could be processed is
      left. */
  predicate StopsProperly(d: Drained) {
    && (forall i :: 0 <= i < |d.segments| - 1 ==> d.segments[i].Delivered?)
    && (EndsClean(d.segments) ==> Quiescent(d.rest))
    && (d.segments != [] && d.segments[|d.segments| - 1].Dumped? ==> d.rest == [])
  }

  lemma StopsProperlyCons(first: Segment, d: Drained)
    requires first.Delivered? && StopsProperly(d)
    ensures StopsProperly(Prepend([first], d))
  {
  }

  /** The loop stops at the first error. */
  lemma {:induction false} StopsAtFirstError(buffer: seq<byte>, stale: byte)
    ensures StopsProperly(Drain(buffer, stale))
    decreases |buffer|
  {
    var d := Drain(buffer, stale);
    if d.segments != [] {
      var first := d.segments[0];
      if first.Delivered? {
        DrainDelivered(buffer, stale);
        StopsAtFirstError(buffer[|first.bytes|..], ETX);
        StopsProperlyCons(first, Drain(buffer[|first.bytes|..], ETX));
      } else {
        DrainFailed(buffer, stale);
      }
    }
  }
}
