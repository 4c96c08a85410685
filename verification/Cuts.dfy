/** Which byte streams may be cut anywhere: the exact condition under which chunks do not matter. */
module Cuts {
  import opened Bytes
  import opened Framing
  import opened Receiving
  import opened Chunking
  import opened Packets

  /** A bad frame, and behind it nothing that could be processed. */
  ghost predicate BadFrameLast(tail: seq<byte>) {
    exists p: Packet, rest :: tail == Encoded(p) + rest && p.trailer != ETX && Quiescent(rest)
  }

  /** Nothing complete, a bad start of exactly five bytes, or a bad frame with nothing complete behind it. */
  ghost predicate HarmlessTail(tail: seq<byte>) {
    || Quiescent(tail)
    || (|tail| == HEADER_SIZE && tail[0] != STX)
    || BadFrameLast(tail)
  }

  /** Good frames, and then a harmless tail. */
  ghost predicate CutsAnywhere(stream: seq<byte>) {
    exists packets, tail :: stream == Wire(packets) + tail && Bad(packets) == 0 && HarmlessTail(tail)
  }

  lemma CutsAnywhereCons(p: Packet, left: seq<byte>)
    requires p.trailer == ETX && CutsAnywhere(left)
    ensures CutsAnywhere(Encoded(p) + left)
  {
    var packets, tail :| left == Wire(packets) + tail && Bad(packets) == 0 && HarmlessTail(tail);
    var more := [p] + packets;
    Regroup(Encoded(p), Wire(packets), tail);
    assert more[1..] == packets;
    assert Encoded(p) + left == Wire(more) + tail;
  }

  /** The first frame of a buffer that holds all of it. */
  lemma FirstFrame(buffer: seq<byte>) returns (p: Packet, left: seq<byte>)
    requires !Quiescent(buffer) && buffer[0] == STX && LengthOf(buffer) <= MAX_LENGTH
    ensures buffer == Encoded(p) + left
  {
    var n := LengthOf(buffer);
    assert Need(n) == n + 6;
    StartsWithFrame(buffer);
    p, left := PacketInfo(buffer[5..n + 5], buffer[n + 5]), buffer[n + 6..];
    assert buffer == buffer[..n + 6] + left;
  }

  lemma TailIsSplittable(tail: seq<byte>, stale: byte)
    requires HarmlessTail(tail)
    ensures var d := Drain(tail, stale); HeadersFit(d.segments) && Splittable(d)
  {
    if BadFrameLast(tail) {
      var p: Packet, rest :| tail == Encoded(p) + rest && p.trailer != ETX && Quiescent(rest);
      DrainPacket(p, rest, stale);
      PacketHeader(p, []);
      assert Encoded(p) + [] == Encoded(p);
    }
  }

  lemma SplittableCons(p: Packet, d: Drained)
    requires HeadersFit(d.segments) && Splittable(d)
    ensures var whole := Prepend([Delivered(Message(p.payload), Encoded(p))], d);
      HeadersFit(whole.segments) && Splittable(whole)
  {
    PacketHeader(p, []);
    assert Encoded(p) + [] == Encoded(p);
  }

  lemma {:induction false} StreamIsSplittable(packets: seq<Packet>, tail: seq<byte>, stale: byte)
    requires Bad(packets) == 0 && HarmlessTail(tail)
    ensures var d := Drain(Wire(packets) + tail, stale); HeadersFit(d.segments) && Splittable(d)
  {
    if packets == [] {
      assert Wire(packets) + tail == tail;
      TailIsSplittable(tail, stale);
    } else {
      var (p, left) := (packets[0], Wire(packets[1..]) + tail);
      Regroup(Encoded(p), Wire(packets[1..]), tail);
      DrainPacket(p, left, stale);
      StreamIsSplittable(packets[1..], tail, ETX);
      SplittableCons(p, Drain(left, ETX));
    }
  }

  lemma {:induction false} SplittableIsStream(stream: seq<byte>, stale: byte)
    requires var d := Drain(stream, stale); HeadersFit(d.segments) && Splittable(d)
    ensures CutsAnywhere(stream)
    decreases |stream|
  {
    if Quiescent(stream) || stream[0] != STX {
      OnlyTail(stream);
    } else {
      FirstHeaderFits(stream, stale);
      var p, left := FirstFrame(stream);
      DrainPacket(p, left, stale);
      if p.trailer == ETX {
        SplittableIsStream(left, ETX);
        CutsAnywhereCons(p, left);
      } else {
        OnlyTail(stream);
      }
    }
  }

  lemma OnlyTail(tail: seq<byte>)
    requires HarmlessTail(tail)
    ensures CutsAnywhere(tail)
  {
    assert tail == Wire([]) + tail;
  }

  /** The shape of the stream, as bytes, and the way one call ends on it are the same condition. */
  lemma CutsAnywhereIsSplittable(stream: seq<byte>, stale: byte)
    ensures var d := Drain(stream, stale); CutsAnywhere(stream) <==> HeadersFit(d.segments) && Splittable(d)
  {
    var d := Drain(stream, stale);
    if CutsAnywhere(stream) {
      var packets, tail :| stream == Wire(packets) + tail && Bad(packets) == 0 && HarmlessTail(tail);
      StreamIsSplittable(packets, tail, stale);
    }
    if HeadersFit(d.segments) && Splittable(d) {
      SplittableIsStream(stream, stale);
    }
  }

  // ---------- streams with an oversized header ----------

  lemma FeedCons(first: Call, more: seq<Call>)
    requires first.chunk != [] && NonEmpty(more) && Drain(first.chunk, first.stale).rest == []
    ensures Stream([first] + more) == first.chunk + Stream(more) && NonEmpty([first] + more)
    ensures Messages(Feed([], [first] + more).segments) ==
            Messages(Drain(first.chunk, first.stale).segments) + Messages(Feed([], more).segments)
  {
    assert ([first] + more)[1..] == more;
    assert [] + first.chunk == first.chunk;
    MessagesConcat(Drain(first.chunk, first.stale).segments, Feed([], more).segments);
  }

  /** An oversized header in a chunk of its own is delivered or rejected depending on the indeterminate value. */
  lemma OversizedAlone(header: seq<byte>)
    requires |header| == HEADER_SIZE && header[0] == STX && LengthOf(header) > MAX_LENGTH
    ensures Drain(header, ETX) == Drained([Delivered(Unfilled(LengthOf(header)), header)], [])
    ensures Drain(header, 0) == Drained([Rejected(header)], [])
  {
    assert header[..HEADER_SIZE] == header && header[HEADER_SIZE..] == [];
  }

  lemma OversizedFirst(stream: seq<byte>) returns (kept: seq<Call>, dropped: seq<Call>)
    requires |stream| >= HEADER_SIZE && stream[0] == STX && LengthOf(stream) > MAX_LENGTH
    ensures Stream(kept) == stream && Stream(dropped) == stream && NonEmpty(kept) && NonEmpty(dropped)
    ensures |Messages(Feed([], kept).segments)| == |Messages(Feed([], dropped).segments)| + 1
  {
    var (header, left) := (stream[..HEADER_SIZE], stream[HEADER_SIZE..]);
    var more: seq<Call> := if left == [] then [] else [Call(left, 0)];
    OversizedAlone(header);
    assert Stream(more) == left;
    FeedCons(Call(header, ETX), more);
    FeedCons(Call(header, 0), more);
    kept, dropped := [Call(header, ETX)] + more, [Call(header, 0)] + more;
  }

  /** Behind an oversized header the result depends on the indeterminate trailer value: the same chunks give
      one message more with the one value than with the other. */
  lemma {:induction false} StaleMatters(stream: seq<byte>, stale: byte) returns (kept: seq<Call>, dropped: seq<Call>)
    requires !HeadersFit(Drain(stream, stale).segments)
    ensures Stream(kept) == stream && Stream(dropped) == stream && NonEmpty(kept) && NonEmpty(dropped)
    ensures |Messages(Feed([], kept).segments)| == |Messages(Feed([], dropped).segments)| + 1
    decreases |stream|
  {
    if LengthOf(stream) > MAX_LENGTH {
      kept, dropped := OversizedFirst(stream);
    } else {
      var p, left := FirstFrame(stream);
      DrainPacket(p, left, stale);
      DrainPacket(p, [], stale);
      PacketHeader(p, []);
      assert Encoded(p) + [] == Encoded(p);
      kept, dropped := StaleMatters(left, ETX);
      var first := Call(Encoded(p), stale);
      FeedCons(first, kept);
      FeedCons(first, dropped);
      kept, dropped := [first] + kept, [first] + dropped;
    }
  }

  // ---------- the condition is exact ----------

  /** Every chunking, empty chunks included, has the outcome of one call if the stream can be cut anywhere; and
      only then: the chunkings without empty chunks already differ for every other stream. */
  lemma ChunkInvariance(stream: seq<byte>, stale: byte)
    ensures CutsAnywhere(stream) ==>
              forall calls | Stream(calls) == stream :: Outcome(Feed([], calls)) == Outcome(Drain(stream, stale))
    ensures (forall calls | Stream(calls) == stream && NonEmpty(calls) ::
               Outcome(Feed([], calls)) == Outcome(Drain(stream, stale))) ==> CutsAnywhere(stream)
  {
    CutsAnywhereIsSplittable(stream, stale);
    if CutsAnywhere(stream) {
      forall calls | Stream(calls) == stream ensures Outcome(Feed([], calls)) == Outcome(Drain(stream, stale)) {
        assert [] + stream == stream;
        FeedSplittable([], calls, stale);
      }
    } else if HeadersFit(Drain(stream, stale).segments) {
      if forall calls | Stream(calls) == stream && NonEmpty(calls) ::
        Outcome(Feed([], calls)) == Outcome(Drain(stream, stale)) {
        SplittableIfInvariant(stream, stale);
      }
    } else {
      var kept, dropped := StaleMatters(stream, stale);
    }
  }

  /** Six zero bytes: cut behind the fifth, they leave a byte that one call throws away. */
  lemma SixZeroBytes(stale: byte)
    ensures var zeros: seq<byte> := [0, 0, 0, 0, 0, 0];
      var calls := [Call([0, 0, 0, 0, 0], stale), Call([0], stale)];
      && Stream(calls) == zeros && !CutsAnywhere(zeros)
      && Outcome(Drain(zeros, stale)) == ([], []) && Outcome(Feed([], calls)) == ([], [0])
  {
    var (zeros: seq<byte>, five: seq<byte>, one: seq<byte>) := ([0, 0, 0, 0, 0, 0], [0, 0, 0, 0, 0], [0]);
    assert zeros == five + one;
    assert Drain(zeros, stale) == Drained([Dumped(zeros)], []);
    CutsAnywhereIsSplittable(zeros, stale);
    FeedCons(Call(five, stale), [Call(one, stale)]);
    assert [Call(five, stale)] + [Call(one, stale)] == [Call(five, stale), Call(one, stale)];
    assert Drain(five, stale) == Drained([Dumped(five)], []);
    assert [] + one == one && Feed([0], []) == Drained([], [0]);
  }
}
