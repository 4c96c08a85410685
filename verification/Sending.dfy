/** What `sendMessage` puts on the wire, for every behaviour of the transport. */
module Sending {
  import opened Bytes
  import opened Framing

  /** The transport's answers, one per call in order. As the script is arbitrary, so is the transport. */
  type Script = nat -> int

  /** `xmitMsg`: a negative error, or the number of bytes taken, at most the number offered. */
  function Xmit(script: Script, call: nat, offered: nat): (r: int)
    ensures r <= offered
  {
    if script(call) <= offered then script(call) else offered
  }

  /** The result of the retry loop, with the results of the transport calls it made. */
  datatype Retried = Retried(ok: bool, log: seq<int>)

  function Logged(result: int, r: Retried): Retried {
    Retried(r.ok, [result] + r.log)
  }

  /** The retry loop: `length` bytes and `retries` fruitless calls are left; `limit` is `m_uSendRetry`. */
  function Retry(script: Script, call: nat, length: nat, retries: nat, limit: nat): Retried
    decreases length, retries
  {
    if retries == 0 then Retried(false, [])
    else
      var result := Xmit(script, call, length);
      if result < 0 then Logged(result, Retried(false, []))
      else if result == 0 then Logged(result, Retry(script, call + 1, length, retries - 1, limit))
      else if result >= length then Logged(result, Retried(true, []))
      else Logged(result, Retry(script, call + 1, length - result, limit, limit))
  }

  /** The bytes taken by a run of calls. */
  function Taken(log: seq<int>): nat {
    if log == [] then 0 else (if log[0] > 0 then log[0] else 0) + Taken(log[1..])
  }

  predicate Errored(log: seq<int>) {
    log != [] && log[|log| - 1] < 0
  }

  /** The last `limit` calls took nothing. */
  predicate Stalled(log: seq<int>, limit: nat) {
    |log| >= limit && forall i :: |log| - limit <= i < |log| ==> log[i] == 0
  }

  /** The number of fruitless calls in a row at the end of `log`, when `seen` came before it. */
  function Idle(log: seq<int>, seen: nat): nat {
    if log == [] then seen else Idle(log[1..], if log[0] == 0 then seen + 1 else 0)
  }

  predicate AllZero(log: seq<int>) {
    forall i :: 0 <= i < |log| ==> log[i] == 0
  }

  lemma StalledCons(result: int, log: seq<int>, limit: nat)
    ensures Stalled([result] + log, limit) <==>
            Stalled(log, limit) || (result == 0 && |log| + 1 == limit && AllZero(log))
  {
    var all := [result] + log;
    assert forall i :: 0 <= i < |log| ==> log[i] == all[i + 1];
    if Stalled(all, limit) && |log| < limit {
      assert all[0] == 0;
      forall i | 0 <= i < |log| ensures log[i] == 0 {
        assert all[i + 1] == 0;
      }
    }
  }

  lemma {:induction false} IdleIsStalled(log: seq<int>, seen: nat, limit: nat)
    ensures Idle(log, seen) >= limit <==> Stalled(log, limit) || (AllZero(log) && |log| + seen >= limit)
    decreases |log|
  {
    if log != [] {
      assert log == [log[0]] + log[1..];
      StalledCons(log[0], log[1..], limit);
      IdleIsStalled(log[1..], if log[0] == 0 then seen + 1 else 0, limit);
      assert AllZero(log) <==> log[0] == 0 && AllZero(log[1..]);
    }
  }

  lemma LoggedFacts(result: int, log: seq<int>, seen: nat)
    ensures Errored([result] + log) <==> if log == [] then result < 0 else Errored(log)
    ensures Idle([result] + log, seen) == Idle(log, if result == 0 then seen + 1 else 0)
    ensures Taken([result] + log) == (if result > 0 then result else 0) + Taken(log)
  {
  }

  /** The loop, `seen` fruitless calls having come before it, fails if and only if its last call was an error
      or `limit` calls in a row took nothing. Success takes all the bytes, failure fewer. */
  predicate Explained(r: Retried, length: nat, seen: nat, limit: nat) {
    && (!r.ok <==> Errored(r.log) || Idle(r.log, seen) >= limit)
    && (r.ok ==> Taken(r.log) == length > 0)
    && (!r.ok ==> Taken(r.log) < length || Taken(r.log) == length == 0)
  }

  lemma ExplainedCons(result: nat, r: Retried, length: nat, seen: nat, limit: nat)
    requires result < length || result == 0
    requires Explained(r, length - result, if result == 0 then seen + 1 else 0, limit)
    ensures Explained(Logged(result, r), length, seen, limit)
  {
    LoggedFacts(result, r.log, seen);
  }

  lemma OutcomeAfterFirst(script: Script, call: nat, length: nat, retries: nat, limit: nat, left: nat, more: nat)
    requires 0 < retries <= limit && more <= limit
    requires var result := Xmit(script, call, length);
      if result == 0 then left == length && more == retries - 1
      else 0 < result < length && left == length - result && more == limit
    requires Explained(Retry(script, call + 1, left, more, limit), left, limit - more, limit)
    ensures Explained(Retry(script, call, length, retries, limit), length, limit - retries, limit)
  {
    var next := Retry(script, call + 1, left, more, limit);
    ExplainedCons(Xmit(script, call, length), next, length, limit - retries, limit);
  }

  lemma OutcomeAtOnce(script: Script, call: nat, length: nat, retries: nat, limit: nat)
    requires retries <= limit
    requires retries > 0 ==> var result := Xmit(script, call, length); result < 0 || (result > 0 && result >= length)
    ensures Explained(Retry(script, call, length, retries, limit), length, limit - retries, limit)
  {
    LoggedFacts(Xmit(script, call, length), [], limit - retries);
  }

  lemma {:induction false} RetryOutcomeFrom(script: Script, call: nat, length: nat, retries: nat, limit: nat)
    requires retries <= limit
    ensures Explained(Retry(script, call, length, retries, limit), length, limit - retries, limit)
    decreases length, retries
  {
    var result := Xmit(script, call, length);
    if retries > 0 && result == 0 {
      RetryOutcomeFrom(script, call + 1, length, retries - 1, limit);
      OutcomeAfterFirst(script, call, length, retries, limit, length, retries - 1);
    } else if retries > 0 && 0 < result < length {
      RetryOutcomeFrom(script, call + 1, length - result, limit, limit);
      OutcomeAfterFirst(script, call, length, retries, limit, length - result, limit);
    } else {
      OutcomeAtOnce(script, call, length, retries, limit);
    }
  }

  /** After the first `n` results, `seen` fruitless calls having come before, nothing ends the loop. */
  predicate GoesOn(log: seq<int>, n: nat, length: nat, seen: nat, limit: nat) {
    n < |log| && !Errored(log[..n]) && Idle(log[..n], seen) < limit
    && Taken(log[..n]) <= length && (length > 0 ==> Taken(log[..n]) < length)
  }

  lemma GoesOnCons(result: nat, log: seq<int>, n: nat, length: nat, seen: nat, limit: nat)
    requires result < length || result == 0
    requires GoesOn(log, n, length - result, if result == 0 then seen + 1 else 0, limit)
    ensures GoesOn([result] + log, n + 1, length, seen, limit)
    ensures Taken(([result] + log)[..n + 1]) == result + Taken(log[..n])
  {
    assert ([result] + log)[..n + 1] == [result] + log[..n];
    LoggedFacts(result, log[..n], seen);
  }

  /** After `n` results the loop goes on, and the next one is the transport's answer to a call that offers
      exactly the bytes still untaken. */
  predicate StopsLate(script: Script, call: nat, log: seq<int>, length: nat, seen: nat, limit: nat, n: nat) {
    GoesOn(log, n, length, seen, limit) && log[n] == Xmit(script, call + n, length - Taken(log[..n]))
  }

  lemma StopsLateCons(script: Script, call: nat, log: seq<int>, length: nat, seen: nat, limit: nat, n: nat)
    requires var result := Xmit(script, call, length);
      && (result == 0 || 0 < result < length)
      && StopsLate(script, call + 1, log, length - result, if result == 0 then seen + 1 else 0, limit, n)
    ensures StopsLate(script, call, [Xmit(script, call, length)] + log, length, seen, limit, n + 1)
  {
    var result := Xmit(script, call, length);
    GoesOnCons(result, log, n, length, seen, limit);
    assert call + 1 + n == call + (n + 1);
  }

  /** A loop that makes more than one call goes on with the bytes and retries that the first one leaves. */
  lemma RetryAfterFirst(script: Script, call: nat, length: nat, retries: nat, limit: nat) returns (left: nat, more: nat)
    requires retries <= limit && |Retry(script, call, length, retries, limit).log| > 1
    ensures var result := Xmit(script, call, length);
      && (result == 0 || 0 < result < length) && left == length - result && more <= limit
      && limit - more == (if result == 0 then limit - retries + 1 else 0)
      && Retry(script, call, length, retries, limit).log == [result] + Retry(script, call + 1, left, more, limit).log
  {
    var result := Xmit(script, call, length);
    left, more := length - result, if result == 0 then retries - 1 else limit;
  }

  lemma FirstAnswer(script: Script, call: nat, length: nat, retries: nat, limit: nat)
    requires 0 < retries <= limit
    ensures StopsLate(script, call, Retry(script, call, length, retries, limit).log, length, limit - retries, limit, 0)
  {
  }

  lemma {:induction false} RetryStopsFrom(script: Script, call: nat, length: nat, retries: nat, limit: nat, n: nat)
    requires retries <= limit && n < |Retry(script, call, length, retries, limit).log|
    ensures StopsLate(script, call, Retry(script, call, length, retries, limit).log, length, limit - retries, limit, n)
    decreases n
  {
    if n == 0 {
      FirstAnswer(script, call, length, retries, limit);
    } else {
      var left, more := RetryAfterFirst(script, call, length, retries, limit);
      var log := Retry(script, call + 1, left, more, limit).log;
      RetryStopsFrom(script, call + 1, left, more, limit, n - 1);
      assert StopsLate(script, call + 1, log, left, limit - more, limit, n - 1);
      StopsLateCons(script, call, log, length, limit - retries, limit, n - 1);
    }
  }

  function MaxCalls(length: nat, limit: nat): nat {
    (if length == 0 then 1 else length) * limit
  }

  lemma OneTurn(length: nat, limit: nat)
    ensures MaxCalls(length, limit) >= limit
  {
    if length > 0 {
      assert length * limit == (length - 1) * limit + limit;
    }
  }

  lemma OneTurnFewer(length: nat, taken: nat, limit: nat)
    requires 1 <= taken < length
    ensures MaxCalls(length - taken, limit) + limit <= MaxCalls(length, limit)
  {
  }

  lemma {:induction false} RetryCallsFrom(script: Script, call: nat, length: nat, retries: nat, limit: nat)
    requires retries <= limit
    ensures |Retry(script, call, length, retries, limit).log| <= MaxCalls(length, limit) - limit + retries
    decreases length, retries
  {
    OneTurn(length, limit);
    if retries > 0 {
      var result := Xmit(script, call, length);
      if result == 0 {
        RetryCallsFrom(script, call + 1, length, retries - 1, limit);
      } else if 0 < result < length {
        RetryCallsFrom(script, call + 1, length - result, limit, limit);
        OneTurnFewer(length, result, limit);
      }
    }
  }

  /** `xmitWithRetry`: when it fails, how much it took, and how many calls it made. */
  lemma RetryOutcome(script: Script, call: nat, length: nat, limit: nat)
    ensures var r := Retry(script, call, length, limit, limit);
      && (!r.ok <==> Errored(r.log) || Stalled(r.log, limit))
      && (r.ok ==> Taken(r.log) == length > 0)
      && (!r.ok ==> Taken(r.log) < length || Taken(r.log) == length == 0)
      && |r.log| <= MaxCalls(length, limit)
  {
    RetryOutcomeFrom(script, call, length, limit, limit);
    RetryCallsFrom(script, call, length, limit, limit);
    IdleIsStalled(Retry(script, call, length, limit, limit).log, 0, limit);
  }

  /** The loop stops at the first error, stall or completion. */
  lemma RetryStops(script: Script, call: nat, length: nat, limit: nat, n: nat)
    requires n < |Retry(script, call, length, limit, limit).log|
    ensures var log := Retry(script, call, length, limit, limit).log;
      && !Errored(log[..n]) && !Stalled(log[..n], limit)
      && Taken(log[..n]) <= length && (length > 0 ==> Taken(log[..n]) < length)
      && log[n] == Xmit(script, call + n, length - Taken(log[..n]))
  {
    RetryStopsFrom(script, call, length, limit, limit, n);
    IdleIsStalled(Retry(script, call, length, limit, limit).log[..n], 0, limit);
  }

  // ---------- the same in terms of the transport's answers alone ----------

  /** The bytes that the transport is ready to take in `n` calls. */
  function Supply(script: Script, call: nat, n: nat): nat {
    if n == 0 then 0
    else Supply(script, call, n - 1) + if script(call + n - 1) > 0 then script(call + n - 1) else 0
  }

  /** The call takes nothing and is no error; when there is nothing to send, no call takes anything. */
  predicate Fruitless(script: Script, call: nat, length: nat) {
    script(call) == 0 || (length == 0 && script(call) > 0)
  }

  predicate FruitlessRun(script: Script, from: nat, count: nat, length: nat) {
    forall k :: from <= k < from + count ==> Fruitless(script, k, length)
  }

  /** The last of `n` calls was an error, or the last `limit` of them were fruitless. */
  predicate GivesUp(script: Script, call: nat, n: nat, length: nat, limit: nat) {
    || (n > 0 && script(call + n - 1) < 0)
    || (n >= limit && FruitlessRun(script, call + n - limit, limit, length))
  }

  /** There was something to send, and `n` calls have taken all of it. */
  predicate Completes(script: Script, call: nat, n: nat, length: nat) {
    Supply(script, call, n) >= length > 0
  }

  function Min(a: nat, b: nat): nat {
    if a <= b then a else b
  }

  lemma {:induction false} TakenSnoc(log: seq<int>, n: nat)
    requires n < |log|
    ensures Taken(log[..n + 1]) == Taken(log[..n]) + if log[n] > 0 then log[n] else 0
    decreases n
  {
    if n > 0 {
      assert log[..n + 1][1..] == log[1..][..n] && log[..n][1..] == log[1..][..n - 1];
      TakenSnoc(log[1..], n - 1);
    }
  }

  /** The first `n` results are what the transport answers, as far as there is something to take. */
  predicate Answered(script: Script, call: nat, log: seq<int>, n: nat, length: nat) {
    n <= |log| && Taken(log[..n]) == Min(Supply(script, call, n), length)
    && forall i :: 0 <= i < n ==> (log[i] < 0 <==> script(call + i) < 0)
                                  && (log[i] == 0 <==> Fruitless(script, call + i, length))
  }

  lemma AnsweredNext(script: Script, call: nat, log: seq<int>, n: nat, length: nat)
    requires Answered(script, call, log, n, length) && n < |log|
    requires Taken(log[..n]) < length || Taken(log[..n]) == length == 0
    requires log[n] == Xmit(script, call + n, length - Taken(log[..n]))
    ensures Answered(script, call, log, n + 1, length)
  {
    TakenSnoc(log, n);
  }

  /** What the log of the loop says of the answers. */
  lemma {:induction false} LogIsAnswers(script: Script, call: nat, length: nat, limit: nat, n: nat)
    requires n <= |Retry(script, call, length, limit, limit).log|
    ensures Answered(script, call, Retry(script, call, length, limit, limit).log, n, length)
    decreases n
  {
    if n > 0 {
      LogIsAnswers(script, call, length, limit, n - 1);
      RetryStops(script, call, length, limit, n - 1);
      AnsweredNext(script, call, Retry(script, call, length, limit, limit).log, n - 1, length);
    }
  }

  lemma GivesUpByLog(script: Script, call: nat, length: nat, limit: nat, n: nat)
    requires n <= |Retry(script, call, length, limit, limit).log|
    ensures var log := Retry(script, call, length, limit, limit).log;
      GivesUp(script, call, n, length, limit) <==> Errored(log[..n]) || Stalled(log[..n], limit)
  {
    LogIsAnswers(script, call, length, limit, n);
    var log := Retry(script, call, length, limit, limit).log[..n];
    if n >= limit {
      if Stalled(log, limit) {
        forall k | call + n - limit <= k < call + n ensures Fruitless(script, k, length) {
          assert log[k - call] == 0;
        }
      }
      if FruitlessRun(script, call + n - limit, limit, length) {
        forall i | n - limit <= i < n ensures log[i] == 0 {
          assert Fruitless(script, call + i, length);
        }
      }
    }
  }

  /** The loop runs until it first gives up or completes, succeeds exactly if it completes, and fails exactly if
      it gives up. */
  predicate FirstStop(script: Script, call: nat, n: nat, length: nat, limit: nat, ok: bool) {
    && (ok <==> Completes(script, call, n, length))
    && (!ok <==> GivesUp(script, call, n, length, limit))
    && forall m :: 0 <= m < n ==> !GivesUp(script, call, m, length, limit) && !Completes(script, call, m, length)
  }

  lemma FirstStopUnique(script: Script, call: nat, n: nat, m: nat, length: nat, limit: nat, ok: bool, other: bool)
    requires FirstStop(script, call, n, length, limit, ok) && FirstStop(script, call, m, length, limit, other)
    ensures n == m && ok == other
  {
  }

  lemma RetryExact(script: Script, call: nat, length: nat, limit: nat)
    ensures var r := Retry(script, call, length, limit, limit);
      && FirstStop(script, call, |r.log|, length, limit, r.ok)
      && Taken(r.log) == Min(Supply(script, call, |r.log|), length)
  {
    var r := Retry(script, call, length, limit, limit);
    var n := |r.log|;
    assert r.log[..n] == r.log;
    RetryOutcome(script, call, length, limit);
    LogIsAnswers(script, call, length, limit, n);
    GivesUpByLog(script, call, length, limit, n);
    forall m | 0 <= m < n
      ensures !GivesUp(script, call, m, length, limit) && !Completes(script, call, m, length)
    {
      RetryStops(script, call, length, limit, m);
      LogIsAnswers(script, call, length, limit, m);
      GivesUpByLog(script, call, length, limit, m);
    }
  }

  // ---------- one message ----------

  /** The result of a send: the bytes it added to the wire and the transport calls it made. */
  datatype Sent = Sent(ok: bool, wire: seq<byte>, calls: nat)

  /** One `xmitWithRetry` on `data`. */
  function Transmit(script: Script, call: nat, data: seq<byte>, limit: nat): (s: Sent)
    ensures s.ok ==> s.wire == data && data != []
    ensures !s.ok ==> s.wire < data || s.wire == data == []
  {
    var r := Retry(script, call, |data|, limit, limit);
    RetryOutcome(script, call, |data|, limit);
    Sent(r.ok, data[..Taken(r.log)], |r.log|)
  }

  /** The answers of the transport decide how a transmission ends, after how many calls, and what is sent. */
  lemma TransmitExact(script: Script, call: nat, data: seq<byte>, limit: nat)
    ensures var s := Transmit(script, call, data, limit);
      && FirstStop(script, call, s.calls, |data|, limit, s.ok)
      && s.wire == data[..Min(Supply(script, call, s.calls), |data|)]
  {
    RetryExact(script, call, |data|, limit);
  }

  /** Any loop that stops where it should is a transmission. */
  lemma TransmitIs(script: Script, call: nat, data: seq<byte>, limit: nat, n: nat, ok: bool)
    requires FirstStop(script, call, n, |data|, limit, ok)
    ensures Transmit(script, call, data, limit) == Sent(ok, data[..Min(Supply(script, call, n), |data|)], n)
  {
    var s := Transmit(script, call, data, limit);
    TransmitExact(script, call, data, limit);
    FirstStopUnique(script, call, n, s.calls, |data|, limit, ok, s.ok);
  }

  /** Continues with `next` after `first` succeeded. */
  function Then(first: Sent, next: Sent): Sent {
    Sent(next.ok, first.wire + next.wire, first.calls + next.calls)
  }

  /** The payload, and behind it the trailer. */
  function TransmitBody(script: Script, call: nat, payload: seq<byte>, limit: nat): Sent {
    var body := Transmit(script, call, payload, limit);
    if !body.ok then body else Then(body, Transmit(script, call + body.calls, [ETX], limit))
  }

  function Send(script: Script, call: nat, payload: seq<byte>, limit: nat): Sent
    requires |payload| < WORD
  {
    var header := Transmit(script, call, Header(|payload|), limit);
    if !header.ok then header else Then(header, TransmitBody(script, call + header.calls, payload, limit))
  }

  /** `sendMessage` returns true only if the wire grew by exactly the frame; otherwise it grew by a proper
      prefix of the frame. A message without payload is never sent. */
  lemma SendEffect(script: Script, call: nat, payload: seq<byte>, limit: nat)
    requires |payload| < WORD
    ensures var s := Send(script, call, payload, limit);
      && (s.ok ==> s.wire == Frame(payload) && payload != [])
      && (!s.ok ==> s.wire < Frame(payload))
  {
  }

  predicate ZeroRun(script: Script, from: nat, count: nat) {
    forall k :: from <= k < from + count ==> script(k) == 0
  }

  /** None of the `n` answers is an error, and no `limit` of them in a row take nothing. */
  predicate Clean(script: Script, call: nat, n: nat, limit: nat) {
    && (forall k :: call <= k < call + n ==> script(k) >= 0)
    && (forall k :: call <= k <= call + n - limit ==> !ZeroRun(script, k, limit))
  }

  lemma TransmitClean(script: Script, call: nat, data: seq<byte>, limit: nat)
    requires data != []
    ensures var s := Transmit(script, call, data, limit);
      && (s.ok <==> Clean(script, call, s.calls, limit))
      && (s.ok ==> s.calls > 0 && script(call + s.calls - 1) > 0)
  {
    var s := Transmit(script, call, data, limit);
    TransmitExact(script, call, data, limit);
    if s.ok {
      assert !Completes(script, call, s.calls - 1, |data|);
      forall k | call <= k < call + s.calls ensures script(k) >= 0 {
        assert !GivesUp(script, call, k + 1 - call, |data|, limit);
      }
      forall k | call <= k <= call + s.calls - limit ensures !ZeroRun(script, k, limit) {
        assert !GivesUp(script, call, k + limit - call, |data|, limit);
        assert !FruitlessRun(script, k, limit, |data|);
      }
    } else if s.calls == 0 || script(call + s.calls - 1) >= 0 {
      assert FruitlessRun(script, call + s.calls - limit, limit, |data|);
      forall k | call + s.calls - limit <= k < call + s.calls ensures script(k) == 0 {
        assert Fruitless(script, k, |data|);
      }
      assert ZeroRun(script, call + s.calls - limit, limit);
    }
  }

  /** No run of fruitless calls goes across a call that took something. */
  lemma CleanConcat(script: Script, call: nat, n: nat, m: nat, limit: nat)
    requires n > 0 && script(call + n - 1) > 0
    ensures Clean(script, call, n + m, limit) <==> Clean(script, call, n, limit) && Clean(script, call + n, m, limit)
  {
    forall k | call <= k < call + n && k + limit > call + n ensures !ZeroRun(script, k, limit) {
      assert script(call + n - 1) != 0;
    }
  }

  lemma BodyClean(script: Script, call: nat, payload: seq<byte>, limit: nat)
    requires payload != []
    ensures var s := TransmitBody(script, call, payload, limit); s.ok <==> Clean(script, call, s.calls, limit)
  {
    var body := Transmit(script, call, payload, limit);
    TransmitClean(script, call, payload, limit);
    if body.ok {
      TransmitClean(script, call + body.calls, [ETX], limit);
      CleanConcat(script, call, body.calls, Transmit(script, call + body.calls, [ETX], limit).calls, limit);
    }
  }

  /** `sendMessage` returns true if and only if the message is not empty, no answer of the transport is an error,
      and no `limit` answers in a row take nothing. */
  lemma SendExact(script: Script, call: nat, payload: seq<byte>, limit: nat)
    requires |payload| < WORD
    ensures var s := Send(script, call, payload, limit);
      s.ok <==> payload != [] && Clean(script, call, s.calls, limit)
  {
    if payload == [] {
      SendEffect(script, call, payload, limit);
      return;
    }
    var header := Transmit(script, call, Header(|payload|), limit);
    TransmitClean(script, call, Header(|payload|), limit);
    if header.ok {
      BodyClean(script, call + header.calls, payload, limit);
      CleanConcat(script, call, header.calls,
                  TransmitBody(script, call + header.calls, payload, limit).calls, limit);
    }
  }

  // ---------- many messages ----------

  type Sendable = p: seq<byte> | |p| < WORD

  /** Messages sent one after the other, until one is refused. */
  function SendUntilFailure(script: Script, call: nat, payloads: seq<Sendable>, limit: nat): seq<Sent>
    decreases |payloads|
  {
    if payloads == [] then []
    else
      var s := Send(script, call, payloads[0], limit);
      [s] + if s.ok then SendUntilFailure(script, call + s.calls, payloads[1..], limit) else []
  }

  /** The number of messages accepted. */
  function Accepted(sends: seq<Sent>): nat {
    if sends == [] then 0 else (if sends[0].ok then 1 else 0) + Accepted(sends[1..])
  }

  /** The bytes put on the wire, in order. */
  function OnWire(sends: seq<Sent>): seq<byte> {
    if sends == [] then [] else sends[0].wire + OnWire(sends[1..])
  }

  /** Each accepted message put its frame on the wire, a refused one a proper prefix of its frame. */
  predicate Effective(sends: seq<Sent>, payloads: seq<Sendable>)
    decreases |payloads|
  {
    if payloads == [] then sends == []
    else
      sends != []
      && if sends[0].ok then sends[0].wire == Frame(payloads[0]) && Effective(sends[1..], payloads[1..])
         else sends[0].wire < Frame(payloads[0]) && sends[1..] == []
  }

  lemma EffectiveCons(s: Sent, more: seq<Sent>, payloads: seq<Sendable>)
    requires payloads != []
    requires if s.ok then s.wire == Frame(payloads[0]) && Effective(more, payloads[1..])
             else s.wire < Frame(payloads[0]) && more == []
    ensures Effective([s] + more, payloads)
  {
  }

  lemma {:induction false} BatchEffect(script: Script, call: nat, payloads: seq<Sendable>, limit: nat)
    ensures Effective(SendUntilFailure(script, call, payloads, limit), payloads)
    decreases |payloads|
  {
    if payloads != [] {
      var s := Send(script, call, payloads[0], limit);
      var more := if s.ok then SendUntilFailure(script, call + s.calls, payloads[1..], limit) else [];
      SendEffect(script, call, payloads[0], limit);
      if s.ok {
        BatchEffect(script, call + s.calls, payloads[1..], limit);
      }
      assert SendUntilFailure(script, call, payloads, limit) == [s] + more;
      EffectiveCons(s, more, payloads);
    }
  }

  /** A transport without errors that never takes nothing `limit` times in a row. */
  ghost predicate Reliable(script: Script, limit: nat) {
    && (forall k :: script(k) >= 0)
    && (forall k :: !ZeroRun(script, k, limit))
  }

  lemma ReliableSend(script: Script, call: nat, payload: seq<byte>, limit: nat)
    requires Reliable(script, limit) && 0 < |payload| < WORD
    ensures Send(script, call, payload, limit).ok
  {
    SendExact(script, call, payload, limit);
  }

  /** Such a transport carries every message that is not empty. */
  lemma {:induction false} AllAccepted(script: Script, call: nat, payloads: seq<Sendable>, limit: nat)
    requires Reliable(script, limit) && [] !in payloads
    ensures Accepted(SendUntilFailure(script, call, payloads, limit)) == |payloads|
    decreases |payloads|
  {
    if payloads != [] {
      var s := Send(script, call, payloads[0], limit);
      ReliableSend(script, call, payloads[0], limit);
      var more := SendUntilFailure(script, call + s.calls, payloads[1..], limit);
      AllAccepted(script, call + s.calls, payloads[1..], limit);
      assert SendUntilFailure(script, call, payloads, limit) == [s] + more;
      AcceptedCons(s, more);
    }
  }

  lemma AcceptedCons(s: Sent, more: seq<Sent>)
    ensures Accepted([s] + more) == (if s.ok then 1 else 0) + Accepted(more)
  {
  }
}
