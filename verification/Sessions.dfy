/** Endpoints driven over a whole run: many messages out, many chunks in. */
module Sessions {
  import opened Bytes
  import opened Framing
  import opened Assembly
  import opened Receiving
  import opened Chunking
  import opened Packets
  import opened Sending
  import opened EndToEnd
  import opened Messaging

  /** The sends to come, for these messages. */
  ghost predicate ToCome(sender: Endpoint, payloads: seq<Sendable>, sends: seq<Sent>)
    reads sender, sender.transport
  {
    sends == SendUntilFailure(sender.transport.script, sender.transport.calls, payloads, sender.sendRetry)
  }

  /** Sends the first message. */
  method SendFirst(sender: Endpoint, payloads: seq<Sendable>, ghost sends: seq<Sent>) returns (ok: bool)
    requires payloads != [] && ToCome(sender, payloads, sends)
    modifies sender.transport
    ensures sends != [] && ok == sends[0].ok && sender.transport.wire == old(sender.transport.wire) + sends[0].wire
    ensures if ok then ToCome(sender, payloads[1..], sends[1..]) else sends[1..] == []
  {
    ok := sender.SendMessage(payloads[0]);
  }

  /** Sends the messages one after the other until one is refused. */
  method SendAll(sender: Endpoint, payloads: seq<Sendable>) returns (accepted: nat)
    modifies sender.transport
    ensures var (script, call, limit) := (sender.transport.script, old(sender.transport.calls), sender.sendRetry);
      var sends := SendUntilFailure(script, call, payloads, limit);
      accepted == Accepted(sends) && sender.transport.wire == old(sender.transport.wire) + OnWire(sends)
    decreases |payloads|
  {
    accepted := 0;
    if payloads == [] {
      return;
    }
    ghost var sends :=
      SendUntilFailure(sender.transport.script, sender.transport.calls, payloads, sender.sendRetry);
    ghost var wire := sender.transport.wire;
    var ok := SendFirst(sender, payloads, sends);
    if ok {
      accepted := SendAll(sender, payloads[1..]);
      accepted := accepted + 1;
    }
    Regroup(wire, sends[0].wire, OnWire(sends[1..]));
  }

  /** Hands the chunks to the receiver one after the other. */
  method ReceiveAll(receiver: Endpoint, calls: seq<Call>)
    requires receiver.Valid() && Bounded(receiver.assembler.Contents(), calls)
    modifies receiver`queue, receiver.assembler
    ensures receiver.Valid()
    ensures var d := Feed(old(receiver.assembler.Contents()), calls);
      && receiver.assembler.Contents() == d.rest
      && receiver.queue == old(receiver.queue) + Messages(d.segments)
  {
    ghost var d := Feed(receiver.assembler.Contents(), calls);
    ghost var done: seq<Segment> := [];
    assert calls[0..] == calls;
    for i := 0 to |calls|
      invariant receiver.Valid() && Bounded(receiver.assembler.Contents(), calls[i..])
      invariant d == Prepend(done, Feed(receiver.assembler.Contents(), calls[i..]))
      invariant receiver.queue == old(receiver.queue) + Messages(done)
    {
      ghost var step := Drain(receiver.assembler.Contents() + calls[i].chunk, calls[i].stale);
      assert calls[i..][1..] == calls[i + 1..];
      var results := receiver.ProcessChunk(calls[i].chunk, calls[i].stale);
      MessagesConcat(done, step.segments);
      Regroup(old(receiver.queue), Messages(done), Messages(step.segments));
      PrependTwice(done, step.segments, Feed(step.rest, calls[i + 1..]));
      done := done + step.segments;
    }
    assert d.segments == done + [] == done;
  }

  /** A run over fewer than 2^32 bytes never reaches the limit of the size counter. */
  lemma {:induction false} ShortIsBounded(buffer: seq<byte>, calls: seq<Call>)
    requires |buffer| + |Stream(calls)| < WORD
    ensures Bounded(buffer, calls)
    decreases |calls|
  {
    if calls != [] {
      var d := Drain(buffer + calls[0].chunk, calls[0].stale);
      DrainConserves(buffer + calls[0].chunk, calls[0].stale);
      ShortIsBounded(d.rest, calls[1..]);
    }
  }

  lemma OnWireIsBounded(script: Script, call: nat, payloads: seq<Payload>, limit: nat)
    ensures |OnWire(SendUntilFailure(script, call, payloads, limit))| <= |Wire(Framed(payloads))|
  {
    BatchEffect(script, call, payloads, limit);
    var partial, later := WireOfBatch(SendUntilFailure(script, call, payloads, limit), payloads);
  }

  /** A sender and a fresh receiver, over any transport and with any way to cut the stream into chunks: the
      messages that the sender saw accepted are in the receiver's queue, in order, and nothing else is. */
  method Session(sender: Endpoint, receiver: Endpoint, payloads: seq<Payload>, cut: seq<byte> -> seq<Call>)
    returns (accepted: nat)
    requires receiver.Valid() && receiver.assembler.Contents() == [] && receiver.queue == []
    requires sender.transport.wire == [] && |Wire(Framed(payloads))| < WORD
    requires forall wire :: Stream(cut(wire)) == wire
    modifies sender.transport, receiver`queue, receiver.assembler
    ensures receiver.Valid() && accepted <= |payloads| && receiver.queue == AsMessages(payloads[..accepted])
    ensures if accepted == |payloads| then receiver.assembler.Contents() == []
            else receiver.assembler.Contents() < Frame(payloads[accepted])
  {
    ghost var (script, call, limit) := (sender.transport.script, sender.transport.calls, sender.sendRetry);
    accepted := SendAll(sender, payloads);
    var calls := cut(sender.transport.wire);
    OnWireIsBounded(script, call, payloads, limit);
    ShortIsBounded([], calls);
    ReceivesWhatWasSent(script, call, payloads, limit, calls);
    ReceiveAll(receiver, calls);
  }
}
