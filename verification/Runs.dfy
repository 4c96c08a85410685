/** What holds over whole runs of the timer scheduler, whichever queued container is on top. */
module Runs {
  import opened Options
  import opened HandleTable
  import opened Timespecs
  import opened Scheduler

  ghost predicate IsRun(s: State, actions: seq<Action>)
    requires Inv(s)
    decreases |actions|
  {
    actions == [] || (Enabled(s, actions[0]) && IsRun(Next(s, actions[0]), actions[1..]))
  }

  ghost function After(s: State, actions: seq<Action>): (s': State)
    requires Inv(s) && IsRun(s, actions)
    ensures Inv(s')
    decreases |actions|
  {
    if actions == [] then s else After(Next(s, actions[0]), actions[1..])
  }

  /** A new scheduler with room for `size` timers. */
  function Initial(size: nat): (s: State)
    ensures Inv(s)
  {
    var zero := TimerInfo(Timespec(0, 0), Timespec(0, 0), true, false, None);
    FreshPartitioned(size, zero);
    State(Fresh(size, zero), map[], multiset{}, {}, map[], {})
  }

  // ---------- agreement of table and queue ----------

  /** The waiting containers that point to the timer of a handle. */
  function LiveContainers(s: State, h: nat): set<Address> {
    set c | c in s.cells && Waiting(s, c) && s.cells[c] == Some(h)
  }

  /** A valid active timer has exactly one live container waiting, the one it refers to; other handles none. */
  lemma LiveIsOwn(s: State, h: nat)
    requires Inv(s)
    ensures if Good(s.table, h) && Timer(s, h).active
            then Timer(s, h).container.Some? && LiveContainers(s, h) == {Timer(s, h).container.value}
            else LiveContainers(s, h) == {}
  {
    if Good(s.table, h) {
      assert TimerAgrees(s, h);
    }
  }

  /** ... in every reachable state. */
  lemma TableQueueAgreement(size: nat, actions: seq<Action>, h: nat)
    requires IsRun(Initial(size), actions)
    ensures var s := After(Initial(size), actions);
      if Good(s.table, h) && Timer(s, h).active
      then Timer(s, h).container.Some? && LiveContainers(s, h) == {Timer(s, h).container.value}
      else LiveContainers(s, h) == {}
  {
    LiveIsOwn(After(Initial(size), actions), h);
  }

  function Queued(s: State): set<Address> {
    set c | c in s.queue
  }

  /** In every reachable state: no container is queued twice, every allocated container is queued, pending or
      retired, and only one of these, and no valid timer refers to a container that was freed. */
  lemma ContainerPartition(size: nat, actions: seq<Action>)
    requires IsRun(Initial(size), actions)
    ensures var s := After(Initial(size), actions);
      && (forall c :: s.queue[c] <= 1)
      && s.cells.Keys == Queued(s) + s.pending + s.retired
      && Queued(s) !! s.pending !! s.retired
      && (forall h :: Good(s.table, h) && Timer(s, h).container.Some? ==> Timer(s, h).container.value in s.cells)
  {
    var s := After(Initial(size), actions);
    QueuedOnce(s);
    forall h | Good(s.table, h) && Timer(s, h).container.Some? ensures Timer(s, h).container.value in s.cells {
      assert TimerAgrees(s, h);
    }
  }

  lemma QueuedOnce(s: State)
    requires Inv(s)
    ensures forall c :: s.queue[c] <= 1
    ensures s.cells.Keys == Queued(s) + s.pending + s.retired && Queued(s) !! s.pending !! s.retired
  {
    forall c ensures s.queue[c] <= 1 {
      assert c in s.queue ==> s.queue[c] == 1;
    }
  }

  /** A service step only ever dispatches a valid, active timer, through the container it refers to. */
  lemma DispatchesActiveTimer(s: State, top: Address, now: Timespec)
    requires Inv(s) && top in s.queue && Dispatched(s, top, now).Some?
    ensures var h := Dispatched(s, top, now).value;
      Good(s.table, h) && Timer(s, h).active && Timer(s, h).container == Some(top)
  {
  }

  // ---------- one timer over a run ----------

  predicate Armed(s: State, h: nat) {
    Good(s.table, h) && Timer(s, h).active
  }

  /** The timer that an action dispatches, if any. */
  ghost function Fired(s: State, a: Action): Option<nat>
    requires Inv(s) && Enabled(s, a)
  {
    if a.Service? then Dispatched(s, a.top, a.now) else None
  }

  /** The action restarts the timer, or gives its handle to a new one. */
  ghost predicate Rearms(s: State, a: Action, h: nat)
    requires Inv(s)
  {
    match a
    case Restart(k, _, _) => k == h
    case Create(ms, _, _, _, _) => !Refused(s, ms) && NewHandle(s, ms) == h
    case _ => false
  }

  ghost predicate NeverRearms(s: State, actions: seq<Action>, h: nat)
    requires Inv(s) && IsRun(s, actions)
    decreases |actions|
  {
    actions == [] || (!Rearms(s, actions[0], h) && NeverRearms(Next(s, actions[0]), actions[1..], h))
  }

  /** The clock readings, in nanoseconds, at which a timer is dispatched. */
  ghost function Dispatches(s: State, actions: seq<Action>, h: nat): seq<int>
    requires Inv(s) && IsRun(s, actions)
    decreases |actions|
  {
    if actions == [] then []
    else
      (if Fired(s, actions[0]) == Some(h) then [Nanos(actions[0].now)] else [])
      + Dispatches(Next(s, actions[0]), actions[1..], h)
  }

  /** The timer that a step is about: the one named, created or dispatched. */
  ghost predicate Concerns(s: State, a: Action, h: nat)
    requires Inv(s) && Enabled(s, a)
  {
    match a
    case Create(ms, _, _, _, _) => !Refused(s, ms) && NewHandle(s, ms) == h
    case Push(_) => false
    case PushCreated(_) => false
    case Stop(k) => k == h
    case Restart(k, _, _) => k == h
    case Delete(k) => k == h
    case Service(top, now, _) => Dispatched(s, top, now) == Some(h)
  }

  lemma ServiceTouchesDispatched(s: State, top: Address, now: Timespec, later: Timespec, h: nat)
    requires Inv(s) && Enabled(s, Service(top, now, later)) && h < |s.table.slots| && Dispatched(s, top, now) != Some(h)
    ensures ServiceStep(s, top, now, later).table.slots[h] == s.table.slots[h]
  {
  }

  lemma CallTouchesItsOwn(s: State, a: Action, h: nat)
    requires Inv(s) && Enabled(s, a) && h < |s.table.slots| && !Concerns(s, a, h) && !a.Service?
    ensures Next(s, a).table.slots[h] == s.table.slots[h]
  {
    if a.Create? {
      GetNewPartitioned(s.table);
    }
  }

  /** No step touches a timer that it does not concern: not its record, its validity or its live container. */
  lemma OtherTimersUntouched(s: State, a: Action, h: nat)
    requires Inv(s) && Enabled(s, a) && h < |s.table.slots| && !Concerns(s, a, h)
    ensures Good(Next(s, a).table, h) == Good(s.table, h) && Timer(Next(s, a), h) == Timer(s, h)
    ensures LiveContainers(Next(s, a), h) == LiveContainers(s, h)
  {
    if a.Service? {
      ServiceTouchesDispatched(s, a.top, a.now, a.later, h);
    } else {
      CallTouchesItsOwn(s, a, h);
    }
    LiveIsOwn(s, h);
    LiveIsOwn(Next(s, a), h);
  }

  /** A creation that is not refused takes a handle that was not valid and sets the timer up as asked: its
      interval is the requested one and its expiry that much after the clock reading. */
  lemma CreateEffect(s: State, ms: nat, active: bool, autoReset: bool, now: Timespec, cell: Address)
    requires Inv(s) && Enabled(s, Create(ms, active, autoReset, now, cell))
    ensures var s' := Next(s, Create(ms, active, autoReset, now, cell));
      var h := NewHandle(s, ms);
      if Refused(s, ms) then s' == s && h == NO_HANDLE
      else
        && !Good(s.table, h) && Good(s'.table, h)
        && Timer(s', h).active == active && Timer(s', h).autoReset == autoReset
        && Nanos(Timer(s', h).interval) == ms * MILLION
        && Nanos(Timer(s', h).expired) == Nanos(now) + ms * MILLION
        && LiveContainers(s', h) == (if active then {cell} else {})
        && (active ==> cell in s'.creating && s'.creating[cell] == h && Untouched(s', cell))
  {
    if !Refused(s, ms) {
      GetNewPartitioned(s.table);
      IntervalRoundTrip(ms);
      AgreesWithNanos(now, FromMillis(ms));
      var s' := Next(s, Create(ms, active, autoReset, now, cell));
      assert TimerAgrees(s', NewHandle(s, ms));
    }
  }

  lemma StopEffect(s: State, h: nat)
    requires Inv(s) && Good(s.table, h)
    ensures var s' := Next(s, Stop(h));
      && Good(s'.table, h) && !Timer(s', h).active && LiveContainers(s', h) == {}
      && Timer(s', h) == Timer(s, h).(active := false, container := Timer(s', h).container)
  {
    LiveIsOwn(Next(s, Stop(h)), h);
  }

  lemma RestartEffect(s: State, h: nat, now: Timespec, cell: Address)
    requires Inv(s) && Good(s.table, h) && Enabled(s, Restart(h, now, cell))
    ensures var s' := Next(s, Restart(h, now, cell));
      && Armed(s', h) && LiveContainers(s', h) == {cell} && cell in s'.pending
      && Timer(s', h) == Timer(s, h).(expired := Add(now, Timer(s', h).interval), active := true,
                                      container := Some(cell))
  {
    LiveIsOwn(Next(s, Restart(h, now, cell)), h);
  }

  /** A stopped timer stays valid and, restarted, is armed again as it was set up, with a new container. */
  lemma RestartUndoesStop(s: State, h: nat, now: Timespec, cell: Address)
    requires Inv(s) && Good(s.table, h) && Enabled(Next(s, Stop(h)), Restart(h, now, cell))
    ensures var s1 := Next(s, Stop(h));
      var s2 := Next(s1, Restart(h, now, cell));
      && Good(s1.table, h) && !Timer(s1, h).active && LiveContainers(s1, h) == {}
      && Armed(s2, h) && LiveContainers(s2, h) == {cell} && cell in s2.pending
      && Timer(s2, h) == Timer(s, h).(expired := Add(now, Timer(s2, h).interval), active := true,
                                      container := Some(cell))
  {
    StopEffect(s, h);
    RestartEffect(Next(s, Stop(h)), h, now, cell);
  }

  /** Apart from service, a step that does not rearm a timer leaves it as it is or disarms it. */
  lemma CallEffect(s: State, a: Action, h: nat)
    requires Inv(s) && Enabled(s, a) && !a.Service? && !Rearms(s, a, h) && Armed(Next(s, a), h)
    ensures Armed(s, h) && Timer(Next(s, a), h) == Timer(s, h)
  {
    if !Concerns(s, a, h) {
      OtherTimersUntouched(s, a, h);
    }
  }

  lemma ServiceEffect(s: State, top: Address, now: Timespec, later: Timespec, h: nat)
    requires Inv(s) && Enabled(s, Service(top, now, later)) && Armed(ServiceStep(s, top, now, later), h)
    ensures var s' := ServiceStep(s, top, now, later);
      && Armed(s, h)
      && if Dispatched(s, top, now) == Some(h)
         then Timer(s, h).autoReset && Timer(s', h) == Timer(s, h).(expired := Add(later, Timer(s', h).interval))
         else Timer(s', h) == Timer(s, h)
  {
  }

  lemma DispatchIsDue(s: State, top: Address, now: Timespec)
    requires Inv(s) && top in s.queue && Normal(now) && Dispatched(s, top, now).Some?
    ensures var h := Dispatched(s, top, now).value; Armed(s, h) && Nanos(Timer(s, h).expired) <= Nanos(now)
  {
  }

  /** The effect of a step that does not rearm it on one timer. */
  lemma StepEffect(s: State, a: Action, h: nat)
    requires Inv(s) && Enabled(s, a) && !Rearms(s, a, h)
    ensures Fired(s, a) == Some(h) ==> Armed(s, h) && Nanos(Timer(s, h).expired) <= Nanos(a.now)
    ensures Armed(Next(s, a), h) ==>
              Armed(s, h)
              && if Fired(s, a) == Some(h)
                 then Timer(s, h).autoReset
                      && Timer(Next(s, a), h) == Timer(s, h).(expired := Add(a.later, Timer(Next(s, a), h).interval))
                 else Timer(Next(s, a), h) == Timer(s, h)
  {
    if a.Service? {
      if Fired(s, a).Some? {
        DispatchIsDue(s, a.top, a.now);
      }
      if Armed(Next(s, a), h) {
        ServiceEffect(s, a.top, a.now, a.later, h);
      }
    } else if Armed(Next(s, a), h) {
      CallEffect(s, a, h);
    }
  }

  /** A timer that is not armed is not dispatched before it is restarted or its handle is created anew. */
  lemma {:induction false} DisarmedStaysSilent(s: State, actions: seq<Action>, h: nat)
    requires Inv(s) && IsRun(s, actions) && NeverRearms(s, actions, h) && !Armed(s, h)
    ensures Dispatches(s, actions, h) == []
    decreases |actions|
  {
    if actions != [] {
      StepEffect(s, actions[0], h);
      DisarmedStaysSilent(Next(s, actions[0]), actions[1..], h);
    }
  }

  /** After stop or delete, no service step dispatches the timer until it is restarted or recreated. */
  lemma CancelledStaysSilent(s: State, cancel: Action, actions: seq<Action>)
    requires Inv(s) && (cancel.Stop? || cancel.Delete?)
    requires IsRun(Next(s, cancel), actions) && NeverRearms(Next(s, cancel), actions, cancel.h)
    ensures Dispatches(Next(s, cancel), actions, cancel.h) == []
  {
    assert !Armed(Next(s, cancel), cancel.h);
    DisarmedStaysSilent(Next(s, cancel), actions, cancel.h);
  }

  /** A one-shot timer is dispatched at most once per arm. */
  lemma {:induction false} OneShotFiresOnce(s: State, actions: seq<Action>, h: nat)
    requires Inv(s) && IsRun(s, actions) && NeverRearms(s, actions, h)
    requires Armed(s, h) ==> !Timer(s, h).autoReset
    ensures |Dispatches(s, actions, h)| <= 1
    decreases |actions|
  {
    if actions != [] {
      var s' := Next(s, actions[0]);
      StepEffect(s, actions[0], h);
      if Armed(s', h) {
        OneShotFiresOnce(s', actions[1..], h);
      } else {
        DisarmedStaysSilent(s', actions[1..], h);
      }
    }
  }

  /** Within one service step, the second clock reading is not before the first. */
  predicate ClockHolds(actions: seq<Action>) {
    forall a :: a in actions && a.Service? ==> Nanos(a.now) <= Nanos(a.later)
  }

  /** Times at `bound` or later, each at least one interval after the one before. */
  predicate Spaced(times: seq<int>, bound: int, interval: nat) {
    && (forall k :: 0 <= k < |times| ==> times[k] >= bound + k * interval)
    && (forall k :: 0 < k < |times| ==> times[k] >= times[k - 1] + interval)
  }

  lemma SpacedCons(first: int, times: seq<int>, bound: int, interval: nat)
    requires first >= bound && Spaced(times, first + interval, interval)
    ensures Spaced([first] + times, bound, interval)
  {
  }

  /** If the timer is armed, it has this interval and does not expire before `bound`. */
  predicate ExpiresFrom(s: State, h: nat, bound: int, interval: nat) {
    Armed(s, h) ==> Nanos(Timer(s, h).expired) >= bound && Nanos(Timer(s, h).interval) == interval
  }

  /** A dispatch comes at `bound` or later, and the timer does not expire again before one interval is over. */
  lemma SpacingStep(s: State, a: Action, h: nat, bound: int, interval: nat)
    requires Inv(s) && Enabled(s, a) && !Rearms(s, a, h) && ExpiresFrom(s, h, bound, interval)
    requires a.Service? ==> Nanos(a.now) <= Nanos(a.later)
    ensures Fired(s, a) == Some(h) ==> Nanos(a.now) >= bound
    ensures ExpiresFrom(Next(s, a), h, if Fired(s, a) == Some(h) then Nanos(a.now) + interval else bound, interval)
  {
    StepEffect(s, a, h);
    if Fired(s, a) == Some(h) {
      assert TimerAgrees(s, h);
      AgreesWithNanos(a.later, Timer(s, h).interval);
    }
  }

  /** With expiry at `bound` or later, the dispatches come at `bound` or later, one interval apart. */
  lemma {:induction false} SpacingFrom(s: State, actions: seq<Action>, h: nat, bound: int, interval: nat)
    requires Inv(s) && IsRun(s, actions) && NeverRearms(s, actions, h) && ClockHolds(actions)
    requires ExpiresFrom(s, h, bound, interval)
    ensures Spaced(Dispatches(s, actions, h), bound, interval)
    decreases |actions|
  {
    if actions != [] {
      var (a, more) := (actions[0], actions[1..]);
      var fired := Fired(s, a) == Some(h);
      var later := Dispatches(Next(s, a), more, h);
      assert a in actions && ClockHolds(more);
      SpacingStep(s, a, h, bound, interval);
      SpacingFrom(Next(s, a), more, h, if fired then Nanos(a.now) + interval else bound, interval);
      if fired {
        SpacedCons(Nanos(a.now), later, bound, interval);
      } else {
        assert [] + later == later;
      }
    }
  }

  /** A step that arms a timer: an active creation or a restart. It sets the expiry one interval ahead. */
  ghost predicate Arms(s: State, a: Action, h: nat)
    requires Inv(s)
  {
    match a
    case Restart(k, _, _) => k == h && Good(s.table, h)
    case Create(ms, active, _, _, _) => active && !Refused(s, ms) && NewHandle(s, ms) == h
    case _ => false
  }

  lemma ArmSetsExpiry(s: State, arm: Action, h: nat)
    requires Inv(s) && Enabled(s, arm) && Arms(s, arm, h)
    ensures var s' := Next(s, arm);
      Armed(s', h) && Nanos(Timer(s', h).expired) == Nanos(arm.now) + Nanos(Timer(s', h).interval)
  {
  }

  /** The n-th dispatch after an arm comes no earlier than n intervals after it, and dispatches are at least
      one interval apart, in every run without another arm of the same timer. */
  lemma AutoResetSpacing(s: State, arm: Action, actions: seq<Action>, h: nat)
    requires Inv(s) && Enabled(s, arm) && Arms(s, arm, h)
    requires IsRun(Next(s, arm), actions) && NeverRearms(Next(s, arm), actions, h) && ClockHolds(actions)
    ensures var d, interval := Dispatches(Next(s, arm), actions, h), Nanos(Timer(Next(s, arm), h).interval);
      && (forall n :: 0 <= n < |d| ==> d[n] >= Nanos(arm.now) + (n + 1) * interval)
      && (forall n :: 0 < n < |d| ==> d[n] >= d[n - 1] + interval)
  {
    var s' := Next(s, arm);
    var interval := Nanos(Timer(s', h).interval);
    ArmSetsExpiry(s, arm, h);
    assert TimerAgrees(s', h);
    SpacingFrom(s', actions, h, Nanos(arm.now) + interval, interval);
    var d := Dispatches(s', actions, h);
    forall n | 0 <= n < |d| ensures d[n] >= Nanos(arm.now) + (n + 1) * interval {
      assert d[n] >= Nanos(arm.now) + interval + n * interval;
    }
  }

  // ---------- the push of a creation ----------

  /** A call of stop, restart or delete with this handle. */
  predicate Names(a: Action, h: nat) {
    (a.Stop? || a.Restart? || a.Delete?) && a.h == h
  }

  /** The slot of an unfinished creation is still as the creation has left it. */
  predicate Untouched(s: State, c: Address)
    requires c in s.creating
  {
    Good(s.table, s.creating[c]) && Timer(s, s.creating[c]).container == Some(c)
  }

  lemma CreationStays(s: State, a: Action, c: Address)
    requires Inv(s) && Enabled(s, a) && c in s.creating && a != PushCreated(c)
    ensures c in Next(s, a).creating && Next(s, a).creating[c] == s.creating[c]
  {
    match a
    case Create(_, _, _, _, cell) => assert c != cell;
    case Push(_) =>
    case PushCreated(_) =>
    case Stop(_) =>
    case Restart(_, _, _) =>
    case Delete(_) =>
    case Service(_, _, _) =>
  }

  lemma NamedIsTouched(s: State, a: Action, c: Address)
    requires Inv(s) && Enabled(s, a) && c in s.creating && Names(a, s.creating[c])
    ensures c in Next(s, a).creating && !Untouched(Next(s, a), c)
  {
    if Good(s.table, s.creating[c]) {
      assert TimerAgrees(s, s.creating[c]);
    }
  }

  lemma CreateLeavesUntouched(s: State, a: Action, c: Address)
    requires Inv(s) && Enabled(s, a) && c in s.creating && a.Create?
    ensures c in Next(s, a).creating && (Untouched(Next(s, a), c) <==> Untouched(s, c))
  {
    GetNewPartitioned(s.table);
  }

  lemma ServiceLeavesUntouched(s: State, a: Action, c: Address)
    requires Inv(s) && Enabled(s, a) && c in s.creating && a.Service?
    ensures c in Next(s, a).creating && (Untouched(Next(s, a), c) <==> Untouched(s, c))
  {
  }

  lemma UntouchedStep(s: State, a: Action, c: Address)
    requires Inv(s) && Enabled(s, a) && c in s.creating && a != PushCreated(c)
    ensures var s' := Next(s, a);
      && c in s'.creating && s'.creating[c] == s.creating[c]
      && (Untouched(s', c) <==> Untouched(s, c) && !Names(a, s.creating[c]))
  {
    CreationStays(s, a, c);
    if Names(a, s.creating[c]) {
      NamedIsTouched(s, a, c);
    } else if a.Create? {
      CreateLeavesUntouched(s, a, c);
    } else if a.Service? {
      ServiceLeavesUntouched(s, a, c);
    } else {
      CallTouchesItsOwn(s, a, s.creating[c]);
    }
  }

  /** Along a run, the slot of an unfinished creation stays untouched until a call names its handle, and is
      never untouched again after that. */
  lemma {:induction false} UntouchedUntilNamed(s: State, actions: seq<Action>, c: Address)
    requires Inv(s) && IsRun(s, actions) && c in s.creating && PushCreated(c) !in actions
    ensures var end := After(s, actions);
      && c in end.creating && end.creating[c] == s.creating[c]
      && (Untouched(end, c) <==> Untouched(s, c) && forall a :: a in actions ==> !Names(a, s.creating[c]))
    decreases |actions|
  {
    if actions != [] {
      assert forall a :: a in actions <==> a == actions[0] || a in actions[1..];
      UntouchedStep(s, actions[0], c);
      UntouchedUntilNamed(Next(s, actions[0]), actions[1..], c);
    }
  }

  /** The creation's own tombstone is found in slot 0, which the code falls back to for a deleted handle. */
  predicate FoundInSlotZero(s: State, h: nat, c: Address) {
    |s.table.slots| > 0 && !Good(s.table, h) && !Good(s.table, 0) && Timer(s, 0).container == Some(c)
  }

  lemma FindsOwnIfUntouched(s: State, c: Address)
    requires Inv(s) && c in s.creating
    ensures FindsOwn(s, c) <==> Untouched(s, c) || FoundInSlotZero(s, s.creating[c], c)
  {
    if |s.table.slots| > 0 && Good(s.table, 0) {
      assert TimerAgrees(s, 0);
    }
  }

  /** After an active creation, whatever else runs in between, its push is safe if and only if no stop, restart
      or delete has named the new handle, or its container happens to be found in an invalid slot 0. */
  lemma CreationPushSafeInRuns(s: State, create: Action, actions: seq<Action>)
    requires Inv(s) && Enabled(s, create) && create.Create? && create.active && !Refused(s, create.ms)
    requires IsRun(Next(s, create), actions) && PushCreated(create.cell) !in actions
    ensures var (c, h, end) := (create.cell, NewHandle(s, create.ms), After(Next(s, create), actions));
      && c in end.creating
      && (CreationPushSafe(end, c) <==> (forall a :: a in actions ==> !Names(a, h)) || FoundInSlotZero(end, h, c))
  {
    GetNewPartitioned(s.table);
    UntouchedUntilNamed(Next(s, create), actions, create.cell);
    CreationPushExact(After(Next(s, create), actions), create.cell);
    FindsOwnIfUntouched(After(Next(s, create), actions), create.cell);
  }

  /** A restart between a creation and its push makes both of them push the container of the restart. */
  lemma RestartQueuesTwice(s: State, c: Address, now: Timespec, cell: Address)
    requires Inv(s) && c in s.creating && Untouched(s, c) && Enabled(s, Restart(s.creating[c], now, cell))
    ensures var s1 := Next(s, Restart(s.creating[c], now, cell));
      && c in s1.creating && CreationPush(s1, c).Some? && var s2 := CreationPush(s1, c).value;
      && !Inv(s2) && PushStep(s2, cell).queue[cell] == 2
  {
    var s1 := Next(s, Restart(s.creating[c], now, cell));
    UntouchedStep(s, Restart(s.creating[c], now, cell), c);
    CreationPushExact(s1, c);
    assert cell !in s.queue;
  }

  /** A stop between a creation and its push leaves a null pointer to push. */
  lemma StopLeavesNull(s: State, c: Address)
    requires Inv(s) && c in s.creating && Untouched(s, c)
    ensures var s1 := Next(s, Stop(s.creating[c])); c in s1.creating && CreationPush(s1, c) == None
  {
    assert TimerAgrees(s, s.creating[c]);
  }

  // ---------- tombstones ----------

  predicate IsTombstone(s: State, c: Address) {
    Waiting(s, c) && c in s.cells && s.cells[c] == None
  }

  lemma {:induction false} TombstoneStays(s: State, actions: seq<Action>, c: Address)
    requires Inv(s) && IsRun(s, actions) && IsTombstone(s, c)
    requires forall a :: a in actions && a.Service? ==> a.top != c
    ensures IsTombstone(After(s, actions), c)
    decreases |actions|
  {
    if actions != [] {
      assert actions[0] in actions;
      TombstoneStep(s, actions[0], c);
      TombstoneStays(Next(s, actions[0]), actions[1..], c);
    }
  }

  lemma TombstoneUnderService(s: State, a: Action, c: Address)
    requires Inv(s) && Enabled(s, a) && IsTombstone(s, c) && a.Service? && a.top != c
    ensures IsTombstone(Next(s, a), c)
  {
  }

  lemma TombstoneStep(s: State, a: Action, c: Address)
    requires Inv(s) && Enabled(s, a) && IsTombstone(s, c) && (a.Service? ==> a.top != c)
    ensures IsTombstone(Next(s, a), c)
  {
    if a.Service? {
      TombstoneUnderService(s, a, c);
    }
  }

  lemma CancelLeavesTombstone(s: State, cancel: Action, h: nat, c: Address)
    requires Inv(s) && Enabled(s, cancel) && Names(cancel, h) && Armed(s, h) && Timer(s, h).container == Some(c)
    ensures IsTombstone(Next(s, cancel), c)
  {
    assert TimerAgrees(s, h);
  }

  /** A service step with this container on top dispatches nothing and frees the container. */
  ghost predicate Discards(s: State, c: Address, now: Timespec, later: Timespec)
    requires Inv(s) && Enabled(s, Service(c, now, later))
  {
    Dispatched(s, c, now) == None && c !in Next(s, Service(c, now, later)).cells
  }

  /** Stop, restart and delete leave a tombstone in place of the container of an active timer. When that
      tombstone comes to the top, whatever has happened in between to its handle or any other, nothing is
      dispatched and the container is freed. */
  lemma TombstoneNeverFires(s: State, cancel: Action, c: Address, actions: seq<Action>, now: Timespec, later: Timespec)
    requires Inv(s) && Enabled(s, cancel) && (cancel.Stop? || cancel.Restart? || cancel.Delete?)
    requires Armed(s, cancel.h) && Timer(s, cancel.h).container == Some(c)
    requires IsRun(Next(s, cancel), actions) && forall a :: a in actions && a.Service? ==> a.top != c
    ensures var end := After(Next(s, cancel), actions);
      Enabled(end, Service(c, now, later)) ==> Discards(end, c, now, later)
  {
    CancelLeavesTombstone(s, cancel, cancel.h, c);
    TombstoneStays(Next(s, cancel), actions, c);
  }

  /** The container of a one-shot timer that fired is never freed, in any run. */
  lemma {:induction false} RetiredNeverFreed(s: State, actions: seq<Action>, c: Address)
    requires Inv(s) && IsRun(s, actions) && c in s.retired
    ensures c in After(s, actions).retired && c in After(s, actions).cells
    decreases |actions|
  {
    if actions != [] {
      assert c in Next(s, actions[0]).retired;
      RetiredNeverFreed(Next(s, actions[0]), actions[1..], c);
    }
  }

  // ---------- quiescence ----------

  /** The queued containers that a service step at time `now` would pop: tombstones and due timers. */
  ghost function Busy(s: State, now: Timespec): set<Address>
    requires Inv(s)
  {
    set c | c in s.cells && c in s.queue
            && (s.cells[c] == None || Compare(Timer(s, s.cells[c].value).expired, now) != 1)
  }

  predicate PositiveIntervals(s: State) {
    forall h :: 0 <= h < |s.table.slots| && Armed(s, h) && Timer(s, h).autoReset ==> Nanos(Timer(s, h).interval) > 0
  }

  /** Every step is a service step at the same clock reading that pops a container. */
  ghost predicate PopsOnly(s: State, actions: seq<Action>, now: Timespec)
    requires Inv(s) && IsRun(s, actions)
    decreases |actions|
  {
    actions == []
    || (actions[0].Service? && actions[0].now == now && actions[0].later == now && actions[0].top in Busy(s, now)
        && PopsOnly(Next(s, actions[0]), actions[1..], now))
  }

  lemma BusyOther(s: State, top: Address, now: Timespec, c: Address)
    requires Inv(s) && PositiveIntervals(s) && Normal(now) && top in s.queue && top in Busy(s, now) && c != top
    ensures c in Busy(Next(s, Service(top, now, now)), now) <==> c in Busy(s, now)
  {
  }

  lemma PopLowersBusy(s: State, top: Address, now: Timespec)
    requires Inv(s) && PositiveIntervals(s) && Normal(now) && top in s.queue && top in Busy(s, now)
    ensures var s' := Next(s, Service(top, now, now)); PositiveIntervals(s') && Busy(s', now) == Busy(s, now) - {top}
  {
    var s' := Next(s, Service(top, now, now));
    if s.cells[top].Some? {
      var h := s.cells[top].value;
      assert TimerAgrees(s, h);
      if Timer(s, h).autoReset {
        AgreesWithNanos(now, Timer(s, h).interval);
        AgreesWithNanos(Timer(s', h).expired, now);
      }
    }
    forall c | c != top ensures c in Busy(s', now) <==> c in Busy(s, now) {
      BusyOther(s, top, now, c);
    }
  }

  /** At a frozen clock, with positive intervals and no calls from outside, the tombstones and due timers left
      in the queue are exactly as many fewer as the service has popped: it stops when none is left. */
  lemma {:induction false} Quiescence(s: State, actions: seq<Action>, now: Timespec)
    requires Inv(s) && IsRun(s, actions) && PositiveIntervals(s) && PopsOnly(s, actions, now)
    ensures |actions| + |Busy(After(s, actions), now)| == |Busy(s, now)|
    decreases |actions|
  {
    if actions != [] {
      PopLowersBusy(s, actions[0].top, now);
      Quiescence(Next(s, actions[0]), actions[1..], now);
    }
  }
}
