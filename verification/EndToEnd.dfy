/** Sender and receiver joined by a byte stream. */
module EndToEnd {
  import opened Bytes
  import opened Framing
  import opened Receiving
  import opened Chunking
  import opened Packets
  import opened Sending

  type Payload = p: seq<byte> | |p| <= MAX_LENGTH

  function Framed(payloads: seq<Payload>): seq<Packet> {
    if payloads == [] then [] else [PacketInfo(payloads[0], ETX)] + Framed(payloads[1..])
  }

  /** The payloads as received messages. */
  function AsMessages(payloads: seq<Payload>): (m: seq<Message>)
    ensures |m| == |payloads| && forall i :: 0 <= i < |payloads| ==> m[i] == Message(payloads[i])
  {
    if payloads == [] then [] else [Message(payloads[0])] + AsMessages(payloads[1..])
  }

  lemma {:induction false} FramedFacts(payloads: seq<Payload>)
    ensures |Framed(payloads)| == |payloads| && Bad(Framed(payloads)) == 0
    ensures Good(Framed(payloads)) == AsMessages(payloads)
  {
    if payloads != [] {
      FramedFacts(payloads[1..]);
      assert Framed(payloads)[1..] == Framed(payloads[1..]);
    }
  }

  /** `wire` holds `accepted` frames and `partial`, a part of the next one; with `later` it makes up all. */
  predicate Boundary(accepted: nat, wire: seq<byte>, packets: seq<Packet>, partial: seq<byte>, later: seq<byte>) {
    accepted <= |packets| && wire + later == Wire(packets) && partial + later == Wire(packets[accepted..])
    && (if accepted == |packets| then partial == [] else |partial| < |Encoded(packets[accepted])|)
  }

  lemma BoundaryAccepted(p: Packet, packets: seq<Packet>, accepted: nat, wire: seq<byte>,
                         partial: seq<byte>, later: seq<byte>)
    requires Boundary(accepted, wire, packets, partial, later)
    ensures Boundary(accepted + 1, Encoded(p) + wire, [p] + packets, partial, later)
  {
    Regroup(Encoded(p), wire, later);
    assert ([p] + packets)[1..] == packets;
    assert ([p] + packets)[accepted + 1..] == packets[accepted..];
  }

  lemma BoundaryRefused(p: Packet, packets: seq<Packet>, sent: seq<byte>)
    requires sent < Encoded(p)
    ensures Boundary(0, sent, [p] + packets, sent, Encoded(p)[|sent|..] + Wire(packets))
  {
    var all := [p] + packets;
    Regroup(sent, Encoded(p)[|sent|..], Wire(packets));
    assert sent + Encoded(p)[|sent|..] == Encoded(p);
    assert all[1..] == packets && all[0..] == all;
  }

  lemma {:induction false} WireOfBatch(sends: seq<Sent>, payloads: seq<Payload>)
    returns (partial: seq<byte>, later: seq<byte>)
    requires Effective(sends, payloads)
    ensures Boundary(Accepted(sends), OnWire(sends), Framed(payloads), partial, later)
    decreases |payloads|
  {
    if payloads == [] {
      partial, later := [], [];
    } else {
      var p: Packet := PacketInfo(payloads[0], ETX);
      var others := Framed(payloads[1..]);
      assert Framed(payloads) == [p] + others;
      if sends[0].ok {
        partial, later := WireOfBatch(sends[1..], payloads[1..]);
        BoundaryAccepted(p, others, Accepted(sends[1..]), OnWire(sends[1..]), partial, later);
        assert sends[0].wire == Encoded(p);
      } else {
        partial, later := sends[0].wire, Encoded(p)[|sends[0].wire|..] + Wire(others);
        BoundaryRefused(p, others, sends[0].wire);
        assert OnWire(sends) == sends[0].wire + [];
      }
    }
  }

  lemma {:induction false} WireFrom(packets: seq<Packet>, i: nat, j: nat)
    requires i < j <= |packets|
    ensures |Wire(packets[i..])| >= |Encoded(packets[i])| + |Wire(packets[j..])|
    decreases j - i
  {
    assert packets[i..][1..] == packets[i + 1..];
    if i + 1 < j {
      WireFrom(packets, i + 1, j);
    }
  }

  /** A position in the stream less than one frame behind a frame boundary determines the boundary. */
  lemma SameBoundary(packets: seq<Packet>, i: nat, j: nat, a: seq<byte>, b: seq<byte>, later: seq<byte>)
    requires i <= |packets| && j <= |packets|
    requires a + later == Wire(packets[i..]) && b + later == Wire(packets[j..])
    requires i == |packets| || |a| < |Encoded(packets[i])|
    requires j == |packets| || |b| < |Encoded(packets[j])|
    ensures i == j && a == b
  {
    assert |a| + |later| == |Wire(packets[i..])| && |b| + |later| == |Wire(packets[j..])|;
    if i < j {
      WireFrom(packets, i, j);
    } else if j < i {
      WireFrom(packets, j, i);
    }
    assert a == (a + later)[..|a|] && b == (b + later)[..|b|];
  }

  lemma {:induction false} MessagesOfPrefix(payloads: seq<Payload>, j: nat)
    requires j <= |payloads|
    ensures AsMessages(payloads)[..j] == AsMessages(payloads[..j])
  {
  }

  /** Messages are sent one after the other, over any transport, until one is refused or all are accepted.
      Feeding the resulting wire bytes to a fresh receiver, in any chunking, delivers exactly the accepted
      messages in order; only the beginning of the refused frame, if any, stays in the buffer. */
  lemma ReceivesWhatWasSent(script: Script, call: nat, payloads: seq<Payload>, limit: nat, calls: seq<Call>)
    requires Stream(calls) == OnWire(SendUntilFailure(script, call, payloads, limit))
    ensures var accepted := Accepted(SendUntilFailure(script, call, payloads, limit));
      && accepted <= |payloads|
      && Outcome(Feed([], calls)).0 == AsMessages(payloads[..accepted])
      && (accepted == |payloads| ==> Feed([], calls).rest == [])
      && (accepted < |payloads| ==> Feed([], calls).rest < Frame(payloads[accepted]))
  {
    BatchEffect(script, call, payloads, limit);
    ReceivesBatch(SendUntilFailure(script, call, payloads, limit), payloads, calls);
  }

  lemma ReceivesBatch(sends: seq<Sent>, payloads: seq<Payload>, calls: seq<Call>)
    requires Effective(sends, payloads) && Stream(calls) == OnWire(sends)
    ensures var accepted := Accepted(sends);
      && accepted <= |payloads|
      && Outcome(Feed([], calls)).0 == AsMessages(payloads[..accepted])
      && (accepted == |payloads| ==> Feed([], calls).rest == [])
      && (accepted < |payloads| ==> Feed([], calls).rest < Frame(payloads[accepted]))
  {
    var packets := Framed(payloads);
    var partial, later := WireOfBatch(sends, payloads);
    FramedFacts(payloads);
    var j := FramesInAnyChunking(packets, calls, later);
    var rest := Feed([], calls).rest;
    SameBoundary(packets, j, Accepted(sends), rest, partial, later);
    MessagesOfPrefix(payloads, j);
    if j < |payloads| {
      FramedAt(payloads, j);
      assert packets[j..][0] == packets[j] && Encoded(packets[j]) == Frame(payloads[j]);
      PrefixOfFirst(rest, later, Frame(payloads[j]), Wire(packets[j..][1..]));
    }
  }

  lemma {:induction false} FramedAt(payloads: seq<Payload>, j: nat)
    requires j < |payloads|
    ensures j < |Framed(payloads)| && Framed(payloads)[j] == PacketInfo(payloads[j], ETX)
  {
    FramedFacts(payloads);
    if j > 0 {
      FramedAt(payloads[1..], j - 1);
    }
  }

  lemma PrefixOfFirst(a: seq<byte>, later: seq<byte>, first: seq<byte>, others: seq<byte>)
    requires a + later == first + others && |a| < |first|
    ensures a < first
  {
    assert a == (a + later)[..|a|] == (first + others)[..|a|] == first[..|a|];
  }

  /** If every message is accepted, exactly those messages arrive, in order, and the buffer ends up empty. */
  lemma EndToEnd(script: Script, call: nat, payloads: seq<Payload>, limit: nat, calls: seq<Call>)
    requires var sends := SendUntilFailure(script, call, payloads, limit);
      Accepted(sends) == |payloads| && Stream(calls) == OnWire(sends)
    ensures Outcome(Feed([], calls)) == (AsMessages(payloads), [])
  {
    ReceivesWhatWasSent(script, call, payloads, limit, calls);
    assert payloads[..|payloads|] == payloads;
  }

  /** Over a transport without errors that never takes nothing `limit` times in a row, all messages that are not
      empty arrive, in order, however the stream is cut. */
  lemma ReliableDelivery(script: Script, call: nat, payloads: seq<Payload>, limit: nat, calls: seq<Call>)
    requires Reliable(script, limit) && [] !in payloads
    requires Stream(calls) == OnWire(SendUntilFailure(script, call, payloads, limit))
    ensures Outcome(Feed([], calls)) == (AsMessages(payloads), [])
  {
    AllAccepted(script, call, payloads, limit);
    EndToEnd(script, call, payloads, limit, calls);
  }
}
