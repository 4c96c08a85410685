/** Streams of correctly headed frames, some of which may carry a wrong trailer byte. */
module Packets {
  import opened Bytes
  import opened Framing
  import opened Receiving
  import opened Chunking

  datatype PacketInfo = PacketInfo(payload: seq<byte>, trailer: byte)

  type Packet = p: PacketInfo | |p.payload| <= MAX_LENGTH witness PacketInfo([], 0)

  function Encoded(p: Packet): (b: seq<byte>)
    ensures |b| == |p.payload| + 6
  {
    FrameWith(p.payload, p.trailer)
  }

  /** The bytes of all the packets, in order. */
  function Wire(packets: seq<Packet>): seq<byte> {
    if packets == [] then [] else Encoded(packets[0]) + Wire(packets[1..])
  }

  /** The messages a receiver should deliver: the payloads whose trailer is right. */
  function Good(packets: seq<Packet>): seq<Message> {
    if packets == [] then []
    else (if packets[0].trailer == ETX then [Message(packets[0].payload)] else []) + Good(packets[1..])
  }

  /** The number of packets with a wrong trailer. */
  function Bad(packets: seq<Packet>): nat {
    if packets == [] then 0 else (if packets[0].trailer == ETX then 0 else 1) + Bad(packets[1..])
  }

  lemma {:induction false} GoodConcat(a: seq<Packet>, b: seq<Packet>)
    ensures Good(a + b) == Good(a) + Good(b)
  {
    if a == [] {
      assert a + b == b;
    } else {
      assert (a + b)[1..] == a[1..] + b;
      GoodConcat(a[1..], b);
      Regroup(Good([a[0]]), Good(a[1..]), Good(b));
    }
  }

  lemma {:induction false} BadConcat(a: seq<Packet>, b: seq<Packet>)
    ensures Bad(a + b) == Bad(a) + Bad(b)
  {
    if a == [] {
      assert a + b == b;
    } else {
      assert (a + b)[1..] == a[1..] + b;
      BadConcat(a[1..], b);
    }
  }

  lemma BadOfPrefix(packets: seq<Packet>, j: nat)
    requires j <= |packets|
    ensures Bad(packets[..j]) <= Bad(packets)
  {
    assert packets == packets[..j] + packets[j..];
    BadConcat(packets[..j], packets[j..]);
  }

  lemma PacketHeader(p: Packet, tail: seq<byte>)
    ensures var whole := Encoded(p) + tail; whole[0] == STX && LengthOf(whole) == |p.payload|
  {
    HeaderRoundTrip(|p.payload|);
  }

  lemma ExtractPacket(p: Packet, tail: seq<byte>, stale: byte)
    ensures var whole := Encoded(p) + tail;
      && !Quiescent(whole) && whole[0] == STX
      && Extract(whole, stale) == Extracted(Message(p.payload), p.trailer, |Encoded(p)|)
  {
    var (whole, n) := (Encoded(p) + tail, |p.payload|);
    PacketHeader(p, tail);
    ExtractFits(whole, stale);
    SliceOfLonger(Encoded(p), tail, 5, n + 5);
    assert Encoded(p)[5..n + 5] == p.payload;
  }

  /** Draining a complete packet removes exactly that packet. */
  lemma DrainPacket(p: Packet, tail: seq<byte>, stale: byte)
    ensures Drain(Encoded(p) + tail, stale) ==
            if p.trailer == ETX then Prepend([Delivered(Message(p.payload), Encoded(p))], Drain(tail, ETX))
            else Drained([Rejected(Encoded(p))], tail)
  {
    var (whole, size) := (Encoded(p) + tail, |Encoded(p)|);
    ExtractPacket(p, tail, stale);
    assert whole[..size] == Encoded(p);
    assert whole[size..] == tail;
  }

  lemma SameHeader(x: seq<byte>, later: seq<byte>)
    requires |x| >= HEADER_SIZE
    ensures (x + later)[0] == x[0] && LengthOf(x + later) == LengthOf(x)
  {
  }

  /** A part of a packet that lacks its end is left alone. */
  lemma IncompletePacket(x: seq<byte>, later: seq<byte>, p: Packet, tail: seq<byte>)
    requires x + later == Encoded(p) + tail && |x| < |Encoded(p)|
    ensures Quiescent(x)
  {
    if |x| >= HEADER_SIZE {
      PacketHeader(p, tail);
      SameHeader(x, later);
      assert Need(|p.payload|) == |Encoded(p)|;
    }
  }

  /** Of the packets, `j` are behind the receiver, and the rest is in its buffer or still to come. */
  predicate Reached(d: Drained, later: seq<byte>, packets: seq<Packet>, j: nat) {
    j <= |packets| && Messages(d.segments) == Good(packets[..j]) && d.rest + later == Wire(packets[j..])
  }

  /** Where a call stops on the front part of a packet stream: after a bad packet, or else with less than
      one packet in the buffer. */
  predicate StopsAt(d: Drained, later: seq<byte>, packets: seq<Packet>, j: nat) {
    Reached(d, later, packets, j)
    && (Bad(packets[..j]) >= 1 || j == |packets| || |d.rest| < |Encoded(packets[j])|)
  }

  lemma ReachedThen(d: Drained, remaining: seq<byte>, packets: seq<Packet>, j: nat,
                    next: Drained, later: seq<byte>, k: nat)
    requires Reached(d, remaining, packets, j) && Reached(next, later, packets[j..], k)
    ensures Reached(Prepend(d.segments, next), later, packets, j + k)
    ensures Bad(packets[..j + k]) == Bad(packets[..j]) + Bad(packets[j..][..k])
    ensures j + k < |packets| ==> packets[j + k] == packets[j..][k]
  {
    var (a, b) := (packets[..j], packets[j..][..k]);
    assert packets[..j + k] == a + b;
    assert packets[j..][k..] == packets[j + k..];
    GoodConcat(a, b);
    BadConcat(a, b);
    MessagesConcat(d.segments, next.segments);
  }

  lemma {:induction false} DrainPackets(x: seq<byte>, later: seq<byte>, packets: seq<Packet>, stale: byte)
    returns (j: nat)
    requires x + later == Wire(packets)
    ensures StopsAt(Drain(x, stale), later, packets, j)
    decreases |packets|
  {
    j := 0;
    if packets == [] {
      assert x == [];
    } else if |x| < |Encoded(packets[0])| {
      IncompletePacket(x, later, packets[0], Wire(packets[1..]));
    } else {
      var size := |Encoded(packets[0])|;
      var tail := x[size..];
      CutFront(x, later, Encoded(packets[0]), Wire(packets[1..]));
      DrainPacket(packets[0], tail, stale);
      if packets[0].trailer == ETX {
        var k := DrainPackets(tail, later, packets[1..], ETX);
        j := k + 1;
        MessagesCons(Delivered(Message(packets[0].payload), Encoded(packets[0])), Drain(tail, ETX).segments);
      } else {
        j := 1;
      }
      assert packets[..j][1..] == packets[1..][..j - 1];
      assert packets[j..] == packets[1..][j - 1..];
    }
  }

  lemma CutFront(x: seq<byte>, later: seq<byte>, first: seq<byte>, others: seq<byte>)
    requires x + later == first + others && |first| <= |x|
    ensures x == first + x[|first|..] && x[|first|..] + later == others
  {
    assert x == (x + later)[..|x|];
    assert first == (first + others)[..|first|];
    assert others == (x + later)[|first|..];
  }

  lemma FeedFirst(buffer: seq<byte>, calls: seq<Call>)
    requires calls != []
    ensures var d := Drain(buffer + calls[0].chunk, calls[0].stale);
      && Feed(buffer, calls) == Prepend(d.segments, Feed(d.rest, calls[1..]))
      && (calls[1..] == [] ==> Feed(buffer, calls) == d)
  {
    var d := Drain(buffer + calls[0].chunk, calls[0].stale);
    assert d.segments + [] == d.segments;
  }

  lemma FirstCall(buffer: seq<byte>, calls: seq<Call>, later: seq<byte>, packets: seq<Packet>) returns (j: nat)
    requires buffer + Stream(calls) + later == Wire(packets) && calls != []
    ensures StopsAt(Drain(buffer + calls[0].chunk, calls[0].stale), Stream(calls[1..]) + later, packets, j)
  {
    var whole := buffer + calls[0].chunk;
    Regroup(buffer, calls[0].chunk, Stream(calls[1..]));
    Regroup(whole, Stream(calls[1..]), later);
    j := DrainPackets(whole, Stream(calls[1..]) + later, packets, calls[0].stale);
  }

  /** The same for a run of calls on the front part of a packet stream. */
  lemma {:induction false} FeedPackets(buffer: seq<byte>, calls: seq<Call>, later: seq<byte>, packets: seq<Packet>)
    returns (j: nat)
    requires buffer + Stream(calls) + later == Wire(packets) && calls != []
    ensures StopsAt(Feed(buffer, calls), later, packets, j)
    decreases |calls|
  {
    var d := Drain(buffer + calls[0].chunk, calls[0].stale);
    FeedFirst(buffer, calls);
    j := FirstCall(buffer, calls, later, packets);
    if calls[1..] == [] {
      assert [] + later == later;
    } else {
      Regroup(d.rest, Stream(calls[1..]), later);
      var k := FeedPackets(d.rest, calls[1..], later, packets[j..]);
      StopsAtThen(d, Stream(calls[1..]) + later, packets, j, Feed(d.rest, calls[1..]), later, k);
      j := j + k;
    }
  }

  lemma StopsAtThen(d: Drained, remaining: seq<byte>, packets: seq<Packet>, j: nat,
                    next: Drained, later: seq<byte>, k: nat)
    requires Reached(d, remaining, packets, j) && StopsAt(next, later, packets[j..], k)
    ensures StopsAt(Prepend(d.segments, next), later, packets, j + k)
  {
    ReachedThen(d, remaining, packets, j, next, later, k);
  }

  /** Calls with empty chunks on complete packets: each gets past one more bad packet, or finishes. */
  lemma {:induction false} FeedNudges(packets: seq<Packet>, nudges: seq<Call>) returns (j: nat)
    requires Stream(nudges) == []
    ensures Reached(Feed(Wire(packets), nudges), [], packets, j)
    ensures j == |packets| || Bad(packets[..j]) >= |nudges|
    decreases |nudges|
  {
    if nudges == [] {
      j := 0;
    } else {
      assert nudges[0].chunk == [] && Stream(nudges[1..]) == [];
      var wire := Wire(packets);
      assert wire + [] == wire;
      j := DrainPackets(wire, [], packets, nudges[0].stale);
      var d := Drain(wire, nudges[0].stale);
      assert d.rest + [] == d.rest;
      var k := FeedNudges(packets[j..], nudges[1..]);
      ReachedThen(d, [], packets, j, Feed(d.rest, nudges[1..]), [], k);
      j := j + k;
    }
  }

  lemma ReachedEnd(d: Drained, packets: seq<Packet>, j: nat)
    requires Reached(d, [], packets, j) && j == |packets|
    ensures Outcome(d) == (Good(packets), [])
  {
    assert packets[..j] == packets;
    assert d.rest + [] == d.rest;
  }

  lemma NoBadLeft(packets: seq<Packet>, j: nat, k: nat, nudges: nat)
    requires j <= |packets| && k <= |packets[j..]| && nudges >= Bad(packets)
    requires j == |packets| || Bad(packets[..j]) >= 1
    requires k == |packets[j..]| || Bad(packets[j..][..k]) >= nudges
    ensures j + k == |packets|
  {
    if j + k < |packets| {
      assert packets[..j + k] == packets[..j] + packets[j..][..k];
      BadConcat(packets[..j], packets[j..][..k]);
      BadOfPrefix(packets, j + k);
      assert false;
    }
  }

  /** Enough empty calls finish a complete stream, once a bad packet or the end has been reached. */
  lemma NudgesFinish(d: Drained, packets: seq<Packet>, j: nat, nudges: seq<Call>)
    requires Reached(d, [], packets, j) && (j == |packets| || Bad(packets[..j]) >= 1)
    requires Stream(nudges) == [] && |nudges| >= Bad(packets)
    ensures Outcome(Prepend(d.segments, Feed(d.rest, nudges))) == (Good(packets), [])
  {
    assert d.rest == Wire(packets[j..]) by { assert d.rest + [] == d.rest; }
    var k := FeedNudges(packets[j..], nudges);
    NoBadLeft(packets, j, k, |nudges|);
    FinishedBy(d, packets, j, Feed(d.rest, nudges), k);
  }

  lemma FinishedBy(d: Drained, packets: seq<Packet>, j: nat, next: Drained, k: nat)
    requires Reached(d, [], packets, j) && Reached(next, [], packets[j..], k) && j + k == |packets|
    ensures Outcome(Prepend(d.segments, next)) == (Good(packets), [])
  {
    ReachedThen(d, [], packets, j, next, [], k);
    ReachedEnd(Prepend(d.segments, next), packets, j + k);
  }

  /** A stream of correctly headed frames, fed in any chunking and followed by at least as many empty-chunk
      calls as there are bad trailers, delivers exactly the good payloads in order and empties the buffer. */
  lemma BadTrailerRecovery(packets: seq<Packet>, calls: seq<Call>, nudges: seq<Call>)
    requires Stream(calls) == Wire(packets) && Stream(nudges) == [] && |nudges| >= Bad(packets)
    ensures Outcome(Feed([], calls + nudges)) == (Good(packets), [])
  {
    FeedConcat([], calls, nudges);
    if calls != [] {
      assert [] + Stream(calls) + [] == Wire(packets);
      var j := FeedPackets([], calls, [], packets);
      NudgesFinish(Feed([], calls), packets, j, nudges);
    } else {
      FeedQuiescent([], nudges);
    }
  }

  /** Any part of a stream of good frames, empty payloads included, in any chunking: the messages are the
      payloads of the `j` frames complete in it, and the buffer holds exactly the bytes after them, which
      are less than the next frame. */
  lemma FramesInAnyChunking(packets: seq<Packet>, calls: seq<Call>, later: seq<byte>) returns (j: nat)
    requires Bad(packets) == 0 && Stream(calls) + later == Wire(packets)
    ensures j <= |packets| && j <= |Good(packets)|
    ensures Outcome(Feed([], calls)).0 == Good(packets)[..j]
    ensures Feed([], calls).rest + later == Wire(packets[j..])
    ensures j == |packets| || |Feed([], calls).rest| < |Encoded(packets[j])|
  {
    if calls == [] {
      j := 0;
    } else {
      assert [] + Stream(calls) == Stream(calls);
      j := FeedPackets([], calls, later, packets);
      BadOfPrefix(packets, j);
      assert packets == packets[..j] + packets[j..];
      GoodConcat(packets[..j], packets[j..]);
      AllGood(packets[..j]);
    }
  }

  lemma {:induction false} AllGood(packets: seq<Packet>)
    requires Bad(packets) == 0
    ensures |Good(packets)| == |packets|
    ensures forall i :: 0 <= i < |packets| ==> Good(packets)[i] == Message(packets[i].payload)
  {
    if packets != [] {
      AllGood(packets[1..]);
    }
  }
}
