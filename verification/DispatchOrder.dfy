/** The order of dispatches, when the priority queue keeps its contract. */
module DispatchOrder {
  import opened Options
  import opened HandleTable
  import opened Timespecs
  import opened Scheduler
  import opened Runs

  /** `CompareTimerInfo`: `y` should be placed before `x`. A container that points to null has no expiry. */
  predicate PlacedAfter(x: Option<Timespec>, y: Option<Timespec>) {
    if x == None && y.Some? then false
    else if x.Some? && y == None then true
    else if x == None && y == None then true
    else Compare(y.value, x.value) == -1
  }

  /** The requirements of a priority queue on its comparison. */
  ghost predicate StrictWeakOrder(keys: set<Option<Timespec>>) {
    && (forall x :: x in keys ==> !PlacedAfter(x, x))
    && (forall x, y, z :: x in keys && y in keys && z in keys && PlacedAfter(x, y) && PlacedAfter(y, z) ==>
          PlacedAfter(x, z))
    && (forall x, y, z :: x in keys && y in keys && z in keys && Tied(x, y) && Tied(y, z) ==> Tied(x, z))
  }

  predicate Tied(x: Option<Timespec>, y: Option<Timespec>) {
    !PlacedAfter(x, y) && !PlacedAfter(y, x)
  }

  lemma PlacedAfterIsLater(x: Timespec, y: Timespec)
    requires Normal(x) && Normal(y)
    ensures PlacedAfter(Some(x), Some(y)) <==> Nanos(x) > Nanos(y)
  {
  }

  /** The comparison meets the requirements if and only if there is no tombstone among the entries. */
  lemma ComparisonIsOrderWithoutTombstones(keys: set<Option<Timespec>>)
    requires forall k :: k in keys && k.Some? ==> Normal(k.value)
    ensures StrictWeakOrder(keys) <==> None !in keys
  {
  }

  /** What the comparison sees of a container. */
  function Key(s: State, c: Address): Option<Timespec>
    requires c in s.cells && (s.cells[c].Some? ==> s.cells[c].value < |s.table.slots|)
  {
    match s.cells[c]
    case None => None
    case Some(h) => Some(Timer(s, h).expired)
  }

  /** The contract of `top()`: no other entry should be placed before it. */
  ghost predicate IsTop(s: State, top: Address)
    requires Inv(s)
  {
    top in s.queue && forall c :: c in s.queue && c != top ==> !PlacedAfter(Key(s, top), Key(s, c))
  }

  /** The iteration leaves the top on the queue and waits for its expiry. */
  predicate ServiceSleeps(s: State, top: Address, now: Timespec)
    requires Inv(s) && top in s.queue
  {
    s.cells[top].Some? && Dispatched(s, top, now) == None
  }

  ghost predicate AtMostOneTombstone(s: State)
    requires Inv(s)
  {
    forall c, d :: c in s.queue && d in s.queue && s.cells[c] == None && s.cells[d] == None ==> c == d
  }

  lemma {:induction false} EarliestExists(keys: set<Timespec>) returns (least: Timespec)
    requires keys != {} && forall k :: k in keys ==> Normal(k)
    ensures least in keys && forall k :: k in keys ==> Nanos(least) <= Nanos(k)
    decreases keys
  {
    least :| least in keys;
    if keys != {least} {
      var other := EarliestExists(keys - {least});
      if Nanos(other) < Nanos(least) {
        least := other;
      }
    }
  }

  lemma TopWithoutTombstone(s: State) returns (top: Address)
    requires Inv(s) && s.queue != multiset{} && forall c :: c in s.queue ==> s.cells[c].Some?
    ensures IsTop(s, top)
  {
    var first :| first in s.queue;
    var times := set c | c in s.cells && c in s.queue :: Timer(s, s.cells[c].value).expired;
    assert Timer(s, s.cells[first].value).expired in times;
    forall k | k in times ensures Normal(k) {
      var c :| c in s.queue && k == Timer(s, s.cells[c].value).expired;
      assert TimerAgrees(s, s.cells[c].value);
    }
    var least := EarliestExists(times);
    top :| top in s.queue && Timer(s, s.cells[top].value).expired == least;
    forall c | c in s.queue ensures !PlacedAfter(Key(s, top), Key(s, c)) {
      var k := Timer(s, s.cells[c].value).expired;
      assert k in times;
      PlacedAfterIsLater(least, k);
    }
  }

  /** The contract can be kept if and only if the queue is not empty and holds at most one tombstone: of two
      tombstones, each should be placed before the other. */
  lemma TopExists(s: State)
    requires Inv(s)
    ensures (exists top :: IsTop(s, top)) <==> s.queue != multiset{} && AtMostOneTombstone(s)
  {
    if s.queue != multiset{} && AtMostOneTombstone(s) {
      if c :| c in s.queue && s.cells[c] == None {
        assert IsTop(s, c);
      } else {
        var top := TopWithoutTombstone(s);
      }
    }
    if top :| IsTop(s, top) {
      assert top in s.queue;
      assert AtMostOneTombstone(s);
    }
  }

  /** If the queue keeps its contract, the service sleeps when, and only when, nothing in the queue is to be
      popped: no tombstone, and no due timer. */
  lemma SleepsExactlyWhenNothingIsDue(s: State, top: Address, now: Timespec, later: Timespec)
    requires Inv(s) && IsTop(s, top) && Enabled(s, Service(top, now, later))
    ensures ServiceSleeps(s, top, now) <==> Busy(s, now) == {}
  {
    if Busy(s, now) == {} {
      assert top !in Busy(s, now);
    }
  }

  // ---------- runs without cancellation ----------

  ghost predicate NoTombstones(s: State)
    requires Inv(s)
  {
    forall c :: Waiting(s, c) ==> s.cells[c].Some?
  }

  /** The expiry of the timer behind a waiting container, in nanoseconds. */
  ghost function Expiry(s: State, c: Address): int
    requires Inv(s) && NoTombstones(s) && Waiting(s, c)
  {
    Nanos(Timer(s, s.cells[c].value).expired)
  }

  /** The step cancels no timer that is still waiting; when it dispatches, it takes the top of the queue, and
      no container whose push is still to come is due earlier. */
  ghost predicate Orderly(s: State, a: Action)
    requires Inv(s) && NoTombstones(s) && Enabled(s, a)
  {
    match a
    case Stop(h) => !Armed(s, h)
    case Delete(h) => !Armed(s, h)
    case Restart(h, _, _) => !Armed(s, h)
    case Service(top, now, later) =>
      IsTop(s, top)
      && (Dispatched(s, top, now).Some? ==> forall c :: c in s.pending ==> Expiry(s, c) >= Expiry(s, top))
    case _ => true
  }

  lemma ServiceWithoutTombstones(s: State, top: Address, now: Timespec, later: Timespec)
    requires Inv(s) && NoTombstones(s) && Enabled(s, Service(top, now, later))
    ensures NoTombstones(Next(s, Service(top, now, later)))
  {
  }

  lemma DeleteWithoutTombstones(s: State, h: nat)
    requires Inv(s) && NoTombstones(s) && !Armed(s, h)
    ensures NoTombstones(Next(s, Delete(h)))
    ensures forall c :: Waiting(s, c) ==> Next(s, Delete(h)).cells[c] == s.cells[c]
    ensures forall k :: 0 <= k < |s.table.slots| ==> Timer(Next(s, Delete(h)), k) == Timer(s, k)
  {
    if Good(s.table, h) {
      assert TimerAgrees(s, h);
    }
  }

  lemma StepWithoutTombstones(s: State, a: Action)
    requires Inv(s) && NoTombstones(s) && Enabled(s, a) && Orderly(s, a)
    ensures NoTombstones(Next(s, a))
  {
    match a
    case Service(top, now, later) => ServiceWithoutTombstones(s, top, now, later);
    case Delete(h) => DeleteWithoutTombstones(s, h);
    case _ =>
  }

  /** The clock never goes back: `from` is not after the first reading, and so on along the run. */
  predicate Monotone(actions: seq<Action>, from: int)
    decreases |actions|
  {
    actions == []
    || match actions[0]
       case Create(_, _, _, now, _) => from <= Nanos(now) && Monotone(actions[1..], Nanos(now))
       case Restart(_, now, _) => from <= Nanos(now) && Monotone(actions[1..], Nanos(now))
       case Service(_, now, later) => from <= Nanos(now) <= Nanos(later) && Monotone(actions[1..], Nanos(later))
       case _ => Monotone(actions[1..], from)
  }

  /** The clock after one action. */
  function Clock(a: Action, from: int): int {
    match a
    case Create(_, _, _, now, _) => Nanos(now)
    case Restart(_, now, _) => Nanos(now)
    case Service(_, _, later) => Nanos(later)
    case _ => from
  }

  ghost predicate OrderlyRun(s: State, actions: seq<Action>)
    requires Inv(s) && NoTombstones(s)
    decreases |actions|
  {
    actions == []
    || (Enabled(s, actions[0]) && Orderly(s, actions[0])
        && (StepWithoutTombstones(s, actions[0]); OrderlyRun(Next(s, actions[0]), actions[1..])))
  }

  /** The expiries, in nanoseconds, of the timers dispatched along a run. */
  ghost function DispatchedExpiries(s: State, actions: seq<Action>): seq<int>
    requires Inv(s) && NoTombstones(s) && OrderlyRun(s, actions)
    decreases |actions|
  {
    if actions == [] then []
    else
      StepWithoutTombstones(s, actions[0]);
      (if Fired(s, actions[0]).Some? then [Expiry(s, actions[0].top)] else [])
      + DispatchedExpiries(Next(s, actions[0]), actions[1..])
  }

  /** No waiting timer expires before `last`. */
  ghost predicate AllFrom(s: State, last: int)
    requires Inv(s) && NoTombstones(s)
  {
    forall c :: Waiting(s, c) ==> Expiry(s, c) >= last
  }

  ghost predicate QueuedFrom(s: State, last: int)
    requires Inv(s) && NoTombstones(s)
  {
    forall c :: c in s.queue ==> Expiry(s, c) >= last
  }

  lemma TopIsEarliestQueued(s: State, top: Address)
    requires Inv(s) && NoTombstones(s) && IsTop(s, top)
    ensures QueuedFrom(s, Expiry(s, top))
  {
  }

  /** A helper that puts together what an orderly dispatch says of the queued and of the pending timers. */
  lemma DispatchesEarliest(s: State, top: Address, now: Timespec, later: Timespec)
    requires Inv(s) && NoTombstones(s) && Enabled(s, Service(top, now, later)) && Orderly(s, Service(top, now, later))
    requires Dispatched(s, top, now).Some?
    ensures AllFrom(s, Expiry(s, top)) && Expiry(s, top) <= Nanos(now)
  {
  }

  /** A waiting container after a call was waiting before with the same expiry, or belongs to the timer that
      the call has armed. */
  lemma ExpiryAfterCall(s: State, a: Action, c: Address)
    requires Inv(s) && NoTombstones(s) && Enabled(s, a) && Orderly(s, a) && !a.Service?
    requires NoTombstones(Next(s, a)) && Waiting(Next(s, a), c)
    ensures (Waiting(s, c) && Expiry(Next(s, a), c) == Expiry(s, c))
            || ((a.Create? || a.Restart?) && Expiry(Next(s, a), c) >= Nanos(a.now))
  {
    match a
    case Create(_, _, _, _, _) => ExpiryAfterCreate(s, a, c);
    case Restart(_, _, _) => ExpiryAfterRestart(s, a, c);
    case Delete(h) => DeleteWithoutTombstones(s, h);
    case _ =>
  }

  lemma ExpiryAfterCreate(s: State, a: Action, c: Address)
    requires Inv(s) && NoTombstones(s) && Enabled(s, a) && a.Create?
    requires NoTombstones(Next(s, a)) && Waiting(Next(s, a), c)
    ensures (Waiting(s, c) && Expiry(Next(s, a), c) == Expiry(s, c)) || Expiry(Next(s, a), c) >= Nanos(a.now)
  {
    GetNewPartitioned(s.table);
    IntervalRoundTrip(a.ms);
    AgreesWithNanos(a.now, FromMillis(a.ms));
  }

  lemma ExpiryAfterRestart(s: State, a: Action, c: Address)
    requires Inv(s) && NoTombstones(s) && Enabled(s, a) && a.Restart? && !Armed(s, a.h)
    requires NoTombstones(Next(s, a)) && Waiting(Next(s, a), c)
    ensures (Waiting(s, c) && Expiry(Next(s, a), c) == Expiry(s, c)) || Expiry(Next(s, a), c) >= Nanos(a.now)
  {
    if Good(s.table, a.h) {
      assert TimerAgrees(s, a.h);
      AgreesWithNanos(a.now, Timer(s, a.h).interval);
    }
  }

  /** A step other than a dispatch brings in no timer that expires before the clock reading. */
  lemma CallsKeepAllFrom(s: State, a: Action, last: int)
    requires Inv(s) && NoTombstones(s) && Enabled(s, a) && Orderly(s, a) && AllFrom(s, last) && !a.Service?
    requires (a.Create? || a.Restart?) ==> last <= Nanos(a.now)
    ensures NoTombstones(Next(s, a)) && AllFrom(Next(s, a), last)
  {
    StepWithoutTombstones(s, a);
    forall c | Waiting(Next(s, a), c) ensures Expiry(Next(s, a), c) >= last {
      ExpiryAfterCall(s, a, c);
    }
  }

  lemma WaitingAfterService(s: State, top: Address, now: Timespec, later: Timespec, c: Address)
    requires Inv(s) && Enabled(s, Service(top, now, later)) && s.cells[top].Some?
    ensures var s' := Next(s, Service(top, now, later));
      && s'.cells == s.cells && s'.pending == s.pending && (c in s'.queue ==> c in s.queue)
      && (c in s.queue && c != top ==> c in s'.queue)
  {
  }

  lemma ExpiryAfterService(s: State, top: Address, now: Timespec, later: Timespec, c: Address)
    requires Inv(s) && NoTombstones(s) && Enabled(s, Service(top, now, later))
    requires NoTombstones(Next(s, Service(top, now, later))) && Waiting(Next(s, Service(top, now, later)), c)
    ensures Waiting(s, c)
    ensures var expiry := Expiry(Next(s, Service(top, now, later)), c);
      expiry == Expiry(s, c) || (c == top && expiry >= Nanos(later))
  {
    var (h, k) := (s.cells[top].value, s.cells[c].value);
    WaitingAfterService(s, top, now, later, c);
    assert TimerAgrees(s, h) && TimerAgrees(s, k);
    if k == h {
      AgreesWithNanos(later, Timer(s, h).interval);
    } else {
      assert Timer(Next(s, Service(top, now, later)), k) == Timer(s, k);
    }
  }

  lemma DispatchKeepsAllFrom(s: State, top: Address, now: Timespec, later: Timespec, last: int)
    requires Inv(s) && NoTombstones(s) && Enabled(s, Service(top, now, later))
    requires AllFrom(s, last) && last <= Nanos(later)
    ensures NoTombstones(Next(s, Service(top, now, later))) && AllFrom(Next(s, Service(top, now, later)), last)
  {
    ServiceWithoutTombstones(s, top, now, later);
    var s' := Next(s, Service(top, now, later));
    forall c | Waiting(s', c) ensures Expiry(s', c) >= last {
      ExpiryAfterService(s, top, now, later, c);
    }
  }

  /** Times at `last` or later that never decrease. */
  predicate Ascending(times: seq<int>, last: int) {
    (forall i :: 0 <= i < |times| ==> last <= times[i])
    && (forall i, j :: 0 <= i < j < |times| ==> times[i] <= times[j])
  }

  lemma AscendingCons(first: int, times: seq<int>, last: int)
    requires last <= first && Ascending(times, first)
    ensures Ascending([first] + times, last)
  {
  }

  /** With a monotone clock, in any run that cancels no waiting timer, the expiries of the dispatched timers
      never decrease. */
  lemma {:induction false} DispatchesInOrder(s: State, actions: seq<Action>, last: int, clock: int)
    requires Inv(s) && NoTombstones(s) && OrderlyRun(s, actions) && Monotone(actions, clock)
    requires AllFrom(s, last) && last <= clock
    ensures Ascending(DispatchedExpiries(s, actions), last)
    decreases |actions|
  {
    if actions != [] {
      var (a, more) := (actions[0], actions[1..]);
      if Fired(s, a).Some? {
        var expiry := Expiry(s, a.top);
        assert expiry >= last;
        DispatchesEarliest(s, a.top, a.now, a.later);
        DispatchKeepsAllFrom(s, a.top, a.now, a.later, expiry);
        DispatchesInOrder(Next(s, a), more, expiry, Nanos(a.later));
        AscendingCons(expiry, DispatchedExpiries(Next(s, a), more), last);
      } else {
        if a.Service? {
          DispatchKeepsAllFrom(s, a.top, a.now, a.later, last);
        } else {
          CallsKeepAllFrom(s, a, last);
        }
        DispatchesInOrder(Next(s, a), more, last, Clock(a, clock));
        assert [] + DispatchedExpiries(Next(s, a), more) == DispatchedExpiries(Next(s, a), more);
      }
    }
  }

  /** The same from a new scheduler. */
  lemma DispatchesInOrderFromStart(size: nat, actions: seq<Action>, clock: int)
    requires OrderlyRun(Initial(size), actions) && Monotone(actions, clock)
    ensures Ascending(DispatchedExpiries(Initial(size), actions), clock)
  {
    DispatchesInOrder(Initial(size), actions, clock, clock);
  }

  lemma DispatchKeepsQueuedFrom(s: State, top: Address, now: Timespec, later: Timespec, last: int)
    requires Inv(s) && NoTombstones(s) && Enabled(s, Service(top, now, later))
    requires QueuedFrom(s, last) && last <= Nanos(later)
    ensures var s' := Next(s, Service(top, now, later)); NoTombstones(s') && QueuedFrom(s', last)
  {
    ServiceWithoutTombstones(s, top, now, later);
    var s' := Next(s, Service(top, now, later));
    forall c | c in s'.queue ensures Expiry(s', c) >= last {
      WaitingAfterService(s, top, now, later, c);
      ExpiryAfterService(s, top, now, later, c);
    }
  }

  lemma DispatchKeepsPending(s: State, top: Address, now: Timespec, later: Timespec, c: Address)
    requires Inv(s) && NoTombstones(s) && Enabled(s, Service(top, now, later)) && c in s.pending
    ensures var s' := Next(s, Service(top, now, later));
      NoTombstones(s') && c in s'.pending && Expiry(s', c) == Expiry(s, c)
  {
    ServiceWithoutTombstones(s, top, now, later);
    WaitingAfterService(s, top, now, later, c);
    ExpiryAfterService(s, top, now, later, c);
  }

  /** The step that pushes a pending container. */
  function PushOf(s: State, c: Address): Action {
    if c in s.creating then PushCreated(c) else Push(c)
  }

  /** As long as nothing was cancelled, every pending container can be pushed; nothing else changes then. */
  lemma PendingCanBePushed(s: State, c: Address)
    requires Inv(s) && NoTombstones(s) && c in s.pending
    ensures Enabled(s, PushOf(s, c))
    ensures var s' := Next(s, PushOf(s, c));
      && s'.table == s.table && s'.cells == s.cells && NoTombstones(s')
      && forall d :: d in s'.queue <==> d in s.queue || d == c
  {
    assert Waiting(s, c);
  }

  /** A container pushed with an earlier expiry than all that are queued may come to the top. */
  lemma EarlyPushOnTop(s: State, c: Address, last: int, now: Timespec)
    requires Inv(s) && NoTombstones(s) && c in s.pending && Expiry(s, c) < last && QueuedFrom(s, last)
    requires Normal(now) && last <= Nanos(now)
    ensures Enabled(s, PushOf(s, c))
    ensures var s' := Next(s, PushOf(s, c));
      && NoTombstones(s') && IsTop(s', c) && Dispatched(s', c, now).Some? && Expiry(s', c) == Expiry(s, c)
  {
    PendingCanBePushed(s, c);
    var s' := Next(s, PushOf(s, c));
    var t := Timer(s, s.cells[c].value);
    assert TimerAgrees(s, s.cells[c].value);
    AgreesWithNanos(t.expired, now);
    forall d | d in s'.queue && d != c ensures !PlacedAfter(Key(s', c), Key(s', d)) {
      assert d in s.queue && Expiry(s, d) >= last;
      assert TimerAgrees(s, s.cells[d].value);
      PlacedAfterIsLater(t.expired, Timer(s, s.cells[d].value).expired);
    }
  }

  /** The condition on pending containers is needed: if one is due earlier than the timer dispatched, the run
      can go on with its push and its dispatch, out of order, without breaking any other assumption. */
  lemma LatePushBreaksOrder(s: State, top: Address, now: Timespec, later: Timespec, c: Address)
    requires Inv(s) && NoTombstones(s) && IsTop(s, top) && Enabled(s, Service(top, now, later))
    requires Nanos(now) <= Nanos(later) && Dispatched(s, top, now).Some?
    requires c in s.pending && Expiry(s, c) < Expiry(s, top)
    ensures var s1 := Next(s, Service(top, now, later));
      c in s1.pending && NoTombstones(s1) && Enabled(s1, PushOf(s1, c)) && var s2 := Next(s1, PushOf(s1, c));
      && NoTombstones(s2) && IsTop(s2, c) && Enabled(s2, Service(c, later, later))
      && Dispatched(s2, c, later).Some? && Expiry(s2, c) < Expiry(s, top)
  {
    DispatchIsDue(s, top, now);
    TopIsEarliestQueued(s, top);
    DispatchKeepsQueuedFrom(s, top, now, later, Expiry(s, top));
    DispatchKeepsPending(s, top, now, later, c);
    EarlyPushOnTop(Next(s, Service(top, now, later)), c, Expiry(s, top), later);
  }

  const EPOCH := Timespec(0, 0)

  /** A 5 ms timer whose push is still to come, and a 10 ms timer that is queued already. */
  const OVERTAKEN: seq<Action> :=
    [Create(5, true, false, EPOCH, 0), Create(10, true, false, EPOCH, 1), PushCreated(1)]

  lemma CreateAtEpoch(s: State, ms: nat, cell: Address)
    requires Inv(s) && ms < 1000 && s.table.free != [] && cell !in s.cells
    ensures Enabled(s, Create(ms, true, false, EPOCH, cell))
    ensures var (s', h) := (Next(s, Create(ms, true, false, EPOCH, cell)), s.table.free[0]);
      && s'.cells == s.cells[cell := Some(h)] && s'.pending == s.pending + {cell} && s'.queue == s.queue
      && s'.creating == s.creating[cell := h] && s'.table.free == s.table.free[1..] && Untouched(s', cell)
      && Timer(s', h).expired == Timespec(0, ms * MILLION)
      && forall k :: 0 <= k < |s.table.slots| && k != h ==> s'.table.slots[k] == s.table.slots[k]
  {
    GetNewPartitioned(s.table);
    assert FromMillis(ms) == Timespec(0, ms * MILLION);
  }

  lemma RunCons(s: State, a: Action, more: seq<Action>)
    requires Inv(s) && Enabled(s, a) && IsRun(Next(s, a), more)
    ensures IsRun(s, [a] + more) && After(s, [a] + more) == After(Next(s, a), more)
  {
    assert ([a] + more)[1..] == more;
  }

  lemma Listed<T>(a: T, b: T, c: T)
    ensures [a, b, c] == [a] + [b, c] && [b, c] == [b] + [c] && [c] == [c] + []
  {
  }

  lemma RunOfThree(s: State, a: Action, b: Action, c: Action)
    requires Inv(s) && Enabled(s, a)
    requires var s1 := Next(s, a); Enabled(s1, b) && Enabled(Next(s1, b), c)
    ensures IsRun(s, [a, b, c]) && After(s, [a, b, c]) == Next(Next(Next(s, a), b), c)
  {
    Listed(a, b, c);
    RunCons(Next(Next(s, a), b), c, []);
    RunCons(Next(s, a), b, [c]);
    RunCons(s, a, [b, c]);
  }

  lemma OvertakenState(size: nat)
    requires size >= 2
    ensures IsRun(Initial(size), OVERTAKEN)
    ensures var s := After(Initial(size), OVERTAKEN);
      && s.cells == map[0 := Some(0), 1 := Some(1)] && s.pending == {0} && s.queue == multiset{1}
      && |s.table.slots| == size
      && Timer(s, 0).expired == Timespec(0, 5 * MILLION) && Timer(s, 1).expired == Timespec(0, 10 * MILLION)
  {
    var s0 := Initial(size);
    CreateAtEpoch(s0, 5, 0);
    var s1 := Next(s0, OVERTAKEN[0]);
    assert s1.cells == map[0 := Some(0)] && s1.pending == {0} && s1.table.free[0] == 1;
    CreateAtEpoch(s1, 10, 1);
    RunOfThree(s0, OVERTAKEN[0], OVERTAKEN[1], OVERTAKEN[2]);
  }

  /** Two creations are enough to reach a state of this kind: the later one is pushed first. */
  lemma LatePushIsReachable(size: nat)
    requires size >= 2
    ensures IsRun(Initial(size), OVERTAKEN)
    ensures var (s, now) := (After(Initial(size), OVERTAKEN), Timespec(1, 0));
      && NoTombstones(s) && IsTop(s, 1) && Enabled(s, Service(1, now, now)) && Dispatched(s, 1, now).Some?
      && 0 in s.pending && Expiry(s, 0) < Expiry(s, 1)
  {
    OvertakenState(size);
  }
}
