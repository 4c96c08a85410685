/** The messaging endpoint: framed messages out through a transport, chunks of bytes in. */
module Messaging {
  import opened Bytes
  import opened Framing
  import opened Assembly
  import opened Receiving
  import opened Sending
  import opened Options

  /** The byte stream behind `xmitMsg`. Its script says how much it takes at each call. */
  class Transport {
    const script: Script
    var calls: nat
    var wire: seq<byte>

    constructor (script: Script)
      ensures this.script == script && calls == 0 && wire == []
    {
      this.script := script;
      calls, wire := 0, [];
    }

    /** Puts the first `result` bytes on the wire, or fails without effect. */
    method XmitMsg(data: seq<byte>) returns (result: int)
      modifies this
      ensures result == Xmit(script, old(calls), |data|) && calls == old(calls) + 1
      ensures wire == if result < 0 then old(wire) else old(wire) + data[..result]
    {
      result := Xmit(script, calls, |data|);
      calls := calls + 1;
      if result >= 0 {
        wire := wire + data[..result];
      }
    }
  }

  /** The send ended as `s` says: its result, the bytes added to the wire and the calls made. */
  ghost predicate Grew(transport: Transport, wire: seq<byte>, calls: nat, ok: bool, s: Sent)
    reads transport
  {
    ok == s.ok && transport.wire == wire + s.wire && transport.calls == calls + s.calls
  }

  class Endpoint {
    const transport: Transport
    const assembler: Assembler
    var sendRetry: uint32
    var queue: seq<Message>

    ghost predicate Valid()
      reads this, assembler
    {
      assembler.Valid()
    }

    constructor (transport: Transport)
      ensures Valid() && fresh(assembler) && this.transport == transport
      ensures assembler.Contents() == [] && queue == [] && sendRetry == 5
    {
      this.transport := transport;
      assembler := new Assembler();
      sendRetry, queue := 5, [];
    }

    /** Hands over `data` piece by piece. Calls are made until all of it is taken, which is success, or until one
        is an error or `sendRetry` in a row took nothing, which is failure. */
    method XmitWithRetry(data: seq<byte>) returns (ok: bool)
      modifies transport
      ensures transport.calls >= old(transport.calls)
      ensures var made: nat := transport.calls - old(transport.calls);
        && FirstStop(transport.script, old(transport.calls), made, |data|, sendRetry, ok)
        && transport.wire == old(transport.wire) +
                             data[..Min(Supply(transport.script, old(transport.calls), made), |data|)]
    {
      var bytesSent, retryCounter := 0, 0;
      ghost var (script, limit, calls, wire) := (transport.script, sendRetry, transport.calls, transport.wire);
      ghost var made: nat := 0;
      while retryCounter < sendRetry
        invariant retryCounter <= limit == sendRetry && bytesSent <= |data| && transport.calls == calls + made
        invariant transport.wire == wire + data[..bytesSent]
        invariant Going(script, calls, made, |data|, limit, bytesSent, retryCounter)
        decreases |data| - bytesSent, sendRetry - retryCounter
      {
        GoingNext(script, calls, made, |data|, limit, bytesSent, retryCounter);
        var results := transport.XmitMsg(data[bytesSent..]);
        made := made + 1;
        if results < 0 {
          return false;
        }
        TakeNext(wire, data, bytesSent, results);
        if results == 0 {
          retryCounter := retryCounter + 1;
        } else {
          retryCounter := 0;
          bytesSent := bytesSent + results;
          if bytesSent >= |data| {
            return true;
          }
        }
      }
      GoingStops(script, calls, made, |data|, limit, bytesSent, retryCounter);
      return false;
    }

    /** The five header bytes for a payload of `length` bytes. */
    method BuildHeader(length: uint32) returns (header: array<byte>)
      ensures fresh(header) && header[..] == Header(length)
    {
      header := new byte[HEADER_SIZE];
      header[4] := ByteAt(length, 0);
      header[3] := ByteAt(length, 1);
      header[2] := ByteAt(length, 2);
      header[1] := ByteAt(length, 3);
      header[0] := STX;
    }

    /** One transmission, as the specification has it. */
    method TransmitAll(data: seq<byte>) returns (ok: bool)
      modifies transport
      ensures Grew(transport, old(transport.wire), old(transport.calls), ok,
                   Transmit(transport.script, old(transport.calls), data, sendRetry))
    {
      ghost var calls := transport.calls;
      ok := XmitWithRetry(data);
      TransmitIs(transport.script, calls, data, sendRetry, transport.calls - calls, ok);
    }

    method SendBody(payload: seq<byte>) returns (ok: bool)
      modifies transport
      ensures Grew(transport, old(transport.wire), old(transport.calls), ok,
                   TransmitBody(transport.script, old(transport.calls), payload, sendRetry))
    {
      ghost var (wire, first) := (transport.wire, Transmit(transport.script, transport.calls, payload, sendRetry));
      ok := TransmitAll(payload);
      if ok {
        var trailer := new byte[] [ETX];
        assert trailer[..] == [ETX];
        ghost var second := Transmit(transport.script, transport.calls, [ETX], sendRetry);
        ok := TransmitAll(trailer[..]);
        Regroup(wire, first.wire, second.wire);
      }
    }

    /** Header, payload and trailer, stopping at the first that cannot be handed over. */
    method SendMessage(payload: seq<byte>) returns (ok: bool)
      requires |payload| < WORD
      modifies transport
      ensures Grew(transport, old(transport.wire), old(transport.calls), ok,
                   Send(transport.script, old(transport.calls), payload, sendRetry))
      ensures transport.calls >= old(transport.calls)
      ensures ok <==> payload != [] && Clean(transport.script, old(transport.calls),
                                             transport.calls - old(transport.calls), sendRetry)
    {
      SendExact(transport.script, transport.calls, payload, sendRetry);
      var header := BuildHeader(|payload|);
      ghost var (wire, calls) := (transport.wire, transport.calls);
      ghost var first := Transmit(transport.script, calls, Header(|payload|), sendRetry);
      ok := TransmitAll(header[..]);
      if ok {
        ghost var second := TransmitBody(transport.script, transport.calls, payload, sendRetry);
        ok := SendBody(payload);
        Regroup(wire, first.wire, second.wire);
      }
    }

    /** Trims the header, then pops the payload and the trailer; a pop that fails changes nothing. */
    method PullFrame(length: uint32, trailer: array<byte>) returns (message: Message)
      requires Valid() && trailer.Length == TRAILER_SIZE
      requires HEADER_SIZE <= |assembler.Contents()| < WORD && length == LengthOf(assembler.Contents())
      modifies assembler, trailer
      ensures Valid()
      ensures var e := Extract(old(assembler.Contents()), old(trailer[0]));
        && message == e.message && trailer[0] == e.trailer
        && assembler.Contents() == old(assembler.Contents())[e.used..]
    {
      ghost var (buffer, last) := (assembler.Contents(), trailer[0]);
      assembler.Trim(HEADER_SIZE);
      ghost var body := assembler.Contents();
      message := PullPayload(length);
      ghost var after := assembler.Contents();
      ghost var before := trailer[..];
      var pulled := assembler.Pop(trailer, TRAILER_SIZE);
      if pulled {
        OverwriteAll(before, after[..1]);
      }
      assert trailer[0] == trailer[..][0];
      ExtractByPops(buffer, last, message, after, trailer[0], assembler.Contents());
    }

    /** Pops the payload into a new buffer, which stays unwritten when the pop fails. */
    method PullPayload(length: uint32) returns (message: Message)
      requires Valid() && |assembler.Contents()| < WORD
      modifies assembler
      ensures Valid()
      ensures message == PoppedMessage(old(assembler.Contents()), length)
      ensures assembler.Contents() == PoppedRest(old(assembler.Contents()), length)
    {
      ghost var body := assembler.Contents();
      var data := new byte[length];
      ghost var before := data[..];
      var filled := assembler.Pop(data, length);
      if filled {
        OverwriteAll(before, body[..length]);
      }
      message := if filled || length == 0 then Message(data[..]) else Unfilled(length);
    }

    /** The header at the front of the buffer: its start byte and its length. */
    method ReadHeader() returns (start: byte, length: uint32)
      requires Valid() && |assembler.Contents()| >= HEADER_SIZE
      ensures start == assembler.Contents()[0] && length == LengthOf(assembler.Contents())
    {
      var header := new byte[HEADER_SIZE];
      var peeked := assembler.Peek(header, HEADER_SIZE, 0);
      ghost var front := assembler.Contents()[..HEADER_SIZE];
      assert header[..] == front;
      LengthOfFront(assembler.Contents());
      assert header[1] == front[1] && header[2] == front[2] && header[3] == front[3] && header[4] == front[4];
      start, length := header[0], DecodeLength(header[1], header[2], header[3], header[4]);
    }

    /** One iteration of the parse loop: delivers a message, or stops. */
    method ProcessNext(trailer: array<byte>) returns (delivered: bool, ghost segments: seq<Segment>)
      requires Valid() && |assembler.Contents()| < WORD && trailer.Length == TRAILER_SIZE
      modifies this`queue, assembler, trailer
      ensures Valid() && |assembler.Contents()| <= |old(assembler.Contents())|
      ensures delivered ==> |assembler.Contents()| < |old(assembler.Contents())|
      ensures queue == old(queue) + Messages(segments) && delivered == (Messages(segments) != [])
      ensures Drain(old(assembler.Contents()), old(trailer[0])) ==
              if delivered then Prepend(segments, Drain(assembler.Contents(), trailer[0]))
              else Drained(segments, assembler.Contents())
    {
      ghost var (buffer, last) := (assembler.Contents(), trailer[0]);
      delivered, segments := false, [];
      if assembler.size < HEADER_SIZE {
        return;
      }
      var start, length := ReadHeader();
      if start != STX {
        segments := [Dumped(buffer)];
        assembler.Clear();
        return;
      }
      if assembler.size < (length + HEADER_SIZE + TRAILER_SIZE) % WORD {
        return;
      }
      var message := PullFrame(length, trailer);
      ghost var taken := buffer[..Extract(buffer, last).used];
      if trailer[0] != ETX {
        segments := [Rejected(taken)];
        return;
      }
      segments := [Delivered(message, taken)];
      assert Messages(segments) == [message];
      queue := queue + [message];
      delivered := true;
    }

    /** Stores a chunk and pulls out everything that has become complete. The parameter `stale` is the
        indeterminate first value of the local trailer variable. */
    method ProcessChunk(chunk: seq<byte>, stale: byte) returns (results: bool)
      requires Valid() && |assembler.Contents()| + |chunk| < WORD
      modifies this`queue, assembler
      ensures Valid()
      ensures var d := Drain(old(assembler.Contents()) + chunk, stale);
        && assembler.Contents() == d.rest
        && queue == old(queue) + Messages(d.segments)
        && results == (Messages(d.segments) != [])
    {
      var trailer := new byte[] [stale];
      var newSize := assembler.Append(chunk);
      results := DrainAll(trailer);
    }

    /** The parse loop: delivers messages until one iteration stops. */
    method DrainAll(trailer: array<byte>) returns (results: bool)
      requires Valid() && |assembler.Contents()| < WORD && trailer.Length == TRAILER_SIZE
      modifies this`queue, assembler, trailer
      ensures Valid()
      ensures var d := Drain(old(assembler.Contents()), old(trailer[0]));
        && assembler.Contents() == d.rest
        && queue == old(queue) + Messages(d.segments)
        && results == (Messages(d.segments) != [])
    {
      results := false;
      ghost var d := Drain(assembler.Contents(), trailer[0]);
      ghost var done: seq<Segment> := [];
      while true
        invariant Valid() && |assembler.Contents()| < WORD && trailer.Length == TRAILER_SIZE
        invariant d == Prepend(done, Drain(assembler.Contents(), trailer[0]))
        invariant queue == old(queue) + Messages(done) && results == (Messages(done) != [])
        decreases |assembler.Contents()|
      {
        var delivered, segments := ProcessNext(trailer);
        MessagesConcat(done, segments);
        Regroup(old(queue), Messages(done), Messages(segments));
        if !delivered {
          assert d == Drained(done + segments, assembler.Contents());
          break;
        }
        PrependTwice(done, segments, Drain(assembler.Contents(), trailer[0]));
        done := done + segments;
        results := true;
      }
    }

    /** The length of the message at the front of the queue, or 0 if there is none. */
    method GetMsgSize() returns (size: nat)
      ensures queue == [] ==> size == 0
      ensures queue != [] ==> size == LengthOfMessage(queue[0])
      ensures queue != [] && queue[0].Message? ==> size == |queue[0].data|
    {
      size := if queue != [] then LengthOfMessage(queue[0]) else 0;
    }

    /** Removes the message at the front of the queue; `None` stands for the null pointer. */
    method GetMsg() returns (message: Option<Message>)
      modifies this`queue
      ensures if old(queue) == [] then message == None && queue == []
              else message.Some? && old(queue) == [message.value] + queue
    {
      message := None;
      if queue != [] {
        message := Some(queue[0]);
        queue := queue[1..];
      }
    }
  }

  /** After `made` calls nothing has ended the loop, `taken` bytes are sent, and the last `idle` calls, and no more
      in a row, were fruitless. */
  predicate Going(script: Script, calls: nat, made: nat, length: nat, limit: nat, taken: nat, idle: nat) {
    && taken == Min(Supply(script, calls, made), length) && (taken < length || length == 0)
    && (forall m :: 0 <= m < made ==> !GivesUp(script, calls, m, length, limit) && !Completes(script, calls, m, length))
    && idle <= made && FruitlessRun(script, calls + made - idle, idle, length)
    && (idle < made ==> script(calls + made - idle - 1) > 0 && length > 0)
  }

  lemma GoingStops(script: Script, calls: nat, made: nat, length: nat, limit: nat, taken: nat, idle: nat)
    requires Going(script, calls, made, length, limit, taken, idle) && idle <= limit
    ensures if idle == limit then FirstStop(script, calls, made, length, limit, false)
            else !GivesUp(script, calls, made, length, limit) && !Completes(script, calls, made, length)
  {
    if 0 < idle {
      assert Fruitless(script, calls + made - 1, length);
    }
    if idle < limit <= made {
      assert !Fruitless(script, calls + made - idle - 1, length);
    }
  }

  /** What one more call does, by its result. */
  lemma GoingNext(script: Script, calls: nat, made: nat, length: nat, limit: nat, taken: nat, idle: nat)
    requires Going(script, calls, made, length, limit, taken, idle) && idle < limit
    ensures var (result, next) := (Xmit(script, calls + made, length - taken), made + 1);
      if result < 0 then
        taken == Min(Supply(script, calls, next), length) && FirstStop(script, calls, next, length, limit, false)
      else if result == 0 then Going(script, calls, next, length, limit, taken, idle + 1)
      else if taken + result < length then Going(script, calls, next, length, limit, taken + result, 0)
      else taken + result == Min(Supply(script, calls, next), length)
           && FirstStop(script, calls, next, length, limit, true)
  {
    GoingStops(script, calls, made, length, limit, taken, idle);
    if script(calls + made) != 0 && length > 0 {
      assert !Fruitless(script, calls + made, length);
      assert limit <= made + 1 ==> !FruitlessRun(script, calls + made + 1 - limit, limit, length);
    }
  }

  lemma TakeNext(wire: seq<byte>, data: seq<byte>, i: nat, count: nat)
    requires i + count <= |data|
    ensures wire + data[..i] + data[i..][..count] == wire + data[..i + count]
  {
  }

  lemma PrependTwice(a: seq<Segment>, b: seq<Segment>, d: Drained)
    ensures Prepend(a, Prepend(b, d)) == Prepend(a + b, d)
  {
  }

  lemma LengthOfFront(buffer: seq<byte>)
    requires |buffer| >= HEADER_SIZE
    ensures LengthOf(buffer[..HEADER_SIZE]) == LengthOf(buffer)
  {
  }

  /** The message that a pop of `length` bytes produces; popping nothing fails, but nothing is asked for. */
  function PoppedMessage(body: seq<byte>, length: uint32): Message {
    if length <= |body| then Message(body[..length]) else Unfilled(length)
  }

  function PoppedRest(body: seq<byte>, length: uint32): seq<byte> {
    if length <= |body| then body[length..] else body
  }

  /** Trimming the header and popping payload and trailer, each pop failing without effect, extracts. */
  lemma ExtractByPops(buffer: seq<byte>, stale: byte, message: Message, after: seq<byte>,
                      trailer: byte, rest: seq<byte>)
    requires |buffer| >= HEADER_SIZE
    requires message == PoppedMessage(buffer[HEADER_SIZE..], LengthOf(buffer))
    requires after == PoppedRest(buffer[HEADER_SIZE..], LengthOf(buffer))
    requires if |after| > 0 then trailer == after[0] && rest == after[1..] else trailer == stale && rest == after
    ensures var e := Extract(buffer, stale); e.message == message && e.trailer == trailer && buffer[e.used..] == rest
  {
  }
}
