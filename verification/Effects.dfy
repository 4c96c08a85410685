/** What each step of the timer scheduler does to the timer it concerns, to the queue and to the memory. */
module Effects {
  import opened Options
  import opened HandleTable
  import opened Timespecs
  import opened Scheduler
  import opened Runs

  // ---------- creation and deletion ----------

  /** A handle becomes valid. */
  ghost predicate Accepts(s: State, a: Action)
    requires Inv(s) && Enabled(s, a)
  {
    exists h :: !Good(s.table, h) && Good(Next(s, a).table, h)
  }

  /** A creation is accepted if and only if the interval is at most 2^63-2 ms and some slot is not in use. */
  lemma CreationAccepted(s: State, a: Action)
    requires Inv(s) && Enabled(s, a) && a.Create?
    ensures Accepts(s, a) <==>
            a.ms <= 0x7FFF_FFFF_FFFF_FFFE && exists h :: 0 <= h < |s.table.slots| && !Good(s.table, h)
    ensures Next(s, a).table.count == s.table.count + if Accepts(s, a) then 1 else 0
  {
    GetNewPartitioned(s.table);
    if s.table.free != [] {
      assert s.table.free[0] in s.table.free;
      assert !Good(s.table, s.table.free[0]);
    }
    if !Refused(s, a.ms) {
      assert Good(Next(s, a).table, NewHandle(s, a.ms));
    }
  }

  /** A delete gives the handle back: it is not valid any more, and the next creation that is accepted gets it. */
  lemma DeleteEffect(s: State, h: nat, a: Action)
    requires Inv(s) && Good(s.table, h)
    requires Enabled(Next(s, Delete(h)), a) && a.Create? && a.ms <= 0x7FFF_FFFF_FFFF_FFFE
    ensures var s' := Next(s, Delete(h));
      && !Good(s'.table, h) && s'.table.count == s.table.count - 1
      && NewHandle(s', a.ms) == h && Good(Next(s', a).table, h)
  {
    FreePartitioned(s.table, h);
    GetNewPartitioned(Next(s, Delete(h)).table);
  }

  /** Stop, restart and delete of a handle that is not valid change nothing; a stop of an inactive timer neither. */
  lemma IgnoredCalls(s: State, a: Action)
    requires Inv(s) && Enabled(s, a) && (a.Stop? || a.Restart? || a.Delete?)
    requires !Good(s.table, a.h) || (a.Stop? && !Timer(s, a.h).active)
    ensures Next(s, a) == s
  {
  }

  /** A handle that is not valid stays so in every run in which no creation returns it. */
  lemma {:induction false} InvalidStays(s: State, actions: seq<Action>, h: nat)
    requires Inv(s) && IsRun(s, actions) && !Good(s.table, h) && NeverCreated(s, actions, h)
    ensures !Good(After(s, actions).table, h)
    decreases |actions|
  {
    if actions != [] {
      InvalidStep(s, actions[0], h);
      InvalidStays(Next(s, actions[0]), actions[1..], h);
    }
  }

  ghost predicate Creates(s: State, a: Action, h: nat)
    requires Inv(s)
  {
    a.Create? && !Refused(s, a.ms) && NewHandle(s, a.ms) == h
  }

  ghost predicate NeverCreated(s: State, actions: seq<Action>, h: nat)
    requires Inv(s) && IsRun(s, actions)
    decreases |actions|
  {
    actions == [] || (!Creates(s, actions[0], h) && NeverCreated(Next(s, actions[0]), actions[1..], h))
  }

  lemma InvalidStep(s: State, a: Action, h: nat)
    requires Inv(s) && Enabled(s, a) && !Good(s.table, h) && !Creates(s, a, h)
    ensures !Good(Next(s, a).table, h)
  {
    if h < |s.table.slots| {
      if Concerns(s, a, h) {
        if !a.Service? {
          IgnoredCalls(s, a);
        }
      } else {
        OtherTimersUntouched(s, a, h);
      }
    }
  }

  /** After a delete, a restart of the same handle changes nothing, in any run, before a creation returns it. */
  lemma DeletedCannotRestart(s: State, h: nat, actions: seq<Action>, a: Action)
    requires Inv(s) && IsRun(Next(s, Delete(h)), actions) && NeverCreated(Next(s, Delete(h)), actions, h)
    requires Enabled(After(Next(s, Delete(h)), actions), a) && a.Restart? && a.h == h
    ensures var end := After(Next(s, Delete(h)), actions); !Good(end.table, h) && Next(end, a) == end
  {
    InvalidStays(Next(s, Delete(h)), actions, h);
    IgnoredCalls(After(Next(s, Delete(h)), actions), a);
  }

  // ---------- pushes ----------

  /** Each push puts its container on the queue, in every state, whatever else is queued, and does only that. */
  lemma PushEffect(s: State, a: Action)
    requires Inv(s) && Enabled(s, a) && (a.Push? || a.PushCreated?)
    ensures var s' := Next(s, a);
      && a.c !in s.queue && a.c in s'.queue && a.c in s.pending && a.c !in s'.pending
      && (forall d :: d != a.c ==> s'.queue[d] == s.queue[d] && (d in s'.pending <==> d in s.pending))
      && s'.table == s.table && s'.cells == s.cells && s'.retired == s.retired
  {
  }

  // ---------- memory ----------

  /** The calls from outside write null into the container of the timer they cancel, and into no other. What is
      queued stays queued, and only a push adds to it. */
  lemma CallsWriteOwnContainer(s: State, a: Action, d: Address)
    requires Inv(s) && Enabled(s, a) && !a.Service? && d in s.cells
    ensures d in Next(s, a).cells
    ensures Next(s, a).cells[d] ==
            if Cancels(s, a) && Timer(s, a.h).container == Some(d) then None else s.cells[d]
    ensures Next(s, a).retired == s.retired && (a.Push? || a.PushCreated? || Next(s, a).queue == s.queue)
  {
    if Cancels(s, a) {
      assert TimerAgrees(s, a.h);
    }
  }

  /** A stop or restart of an active timer, or a delete. */
  predicate Cancels(s: State, a: Action) {
    (a.Stop? || a.Restart? || a.Delete?) && Good(s.table, a.h) && (Timer(s, a.h).active || a.Delete?)
  }

  // ---------- one service iteration ----------

  /** A tombstone on top is discarded, and nothing else changes. */
  lemma DiscardEffect(s: State, top: Address, now: Timespec, later: Timespec)
    requires Inv(s) && Enabled(s, Service(top, now, later)) && s.cells[top] == None
    ensures Dispatched(s, top, now) == None
    ensures var s' := Next(s, Service(top, now, later));
      && s'.table == s.table && s'.pending == s.pending && s'.retired == s.retired
      && top !in s'.queue && (forall d :: d != top ==> s'.queue[d] == s.queue[d])
      && top !in s'.cells && (forall d :: d in s.cells && d != top ==> d in s'.cells && s'.cells[d] == s.cells[d])
  {
  }

  /** A live container on top is dispatched if and only if its timer has expired; if not, nothing changes. */
  lemma DispatchExact(s: State, top: Address, now: Timespec, later: Timespec, h: nat)
    requires Inv(s) && Enabled(s, Service(top, now, later)) && s.cells[top] == Some(h)
    ensures Dispatched(s, top, now) == if Nanos(Timer(s, h).expired) <= Nanos(now) then Some(h) else None
    ensures Nanos(Timer(s, h).expired) > Nanos(now) ==> Next(s, Service(top, now, later)) == s
  {
    assert TimerAgrees(s, h);
  }

  /** A dispatched auto-reset timer stays armed: its container is back on the queue, and it expires one interval
      after the second clock reading. */
  lemma AutoResetRearms(s: State, top: Address, now: Timespec, later: Timespec, h: nat)
    requires Inv(s) && Enabled(s, Service(top, now, later))
    requires Dispatched(s, top, now) == Some(h) && Timer(s, h).autoReset
    ensures var s' := Next(s, Service(top, now, later));
      && Armed(s', h) && s'.queue == s.queue && s'.cells == s.cells && top in s'.queue && s'.cells[top] == Some(h)
      && Timer(s', h).container == Some(top) && SameSettings(s, s', h)
      && Nanos(Timer(s', h).expired) == Nanos(later) + Nanos(Timer(s, h).interval)
  {
    assert TimerAgrees(s, h);
    AgreesWithNanos(later, Timer(s, h).interval);
  }

  /** A dispatched one-shot timer is suspended: its container is off the queue and left behind. */
  lemma OneShotSuspends(s: State, top: Address, now: Timespec, later: Timespec, h: nat)
    requires Inv(s) && Enabled(s, Service(top, now, later))
    requires Dispatched(s, top, now) == Some(h) && !Timer(s, h).autoReset
    ensures var s' := Next(s, Service(top, now, later));
      && Good(s'.table, h) && !Timer(s', h).active && SameSettings(s, s', h)
      && top !in s'.queue && top in s'.retired && s'.cells == s.cells
      && forall d :: d != top ==> s'.queue[d] == s.queue[d]
  {
  }

  // ---------- over runs ----------

  /** The interval and the reset mode, which only a creation sets. */
  predicate SameSettings(s: State, s': State, h: nat) {
    h < |s.table.slots| == |s'.table.slots|
    && Timer(s', h).interval == Timer(s, h).interval && Timer(s', h).autoReset == Timer(s, h).autoReset
  }

  lemma SettingsStep(s: State, a: Action, h: nat)
    requires Inv(s) && Enabled(s, a) && Good(s.table, h) && a != Delete(h)
    ensures Good(Next(s, a).table, h) && SameSettings(s, Next(s, a), h)
  {
    if !Concerns(s, a, h) {
      OtherTimersUntouched(s, a, h);
    } else if a.Create? {
      GetNewPartitioned(s.table);
    }
  }

  /** A timer stays valid and keeps its interval and its reset mode in every run that does not delete it,
      through any number of stops, restarts and dispatches. */
  lemma {:induction false} SettingsSurvive(s: State, actions: seq<Action>, h: nat)
    requires Inv(s) && IsRun(s, actions) && Good(s.table, h) && Delete(h) !in actions
    ensures Good(After(s, actions).table, h) && SameSettings(s, After(s, actions), h)
    decreases |actions|
  {
    if actions != [] {
      assert actions[0] in actions && forall a :: a in actions[1..] ==> a in actions;
      SettingsStep(s, actions[0], h);
      SettingsSurvive(Next(s, actions[0]), actions[1..], h);
    }
  }

  lemma ArmedStep(s: State, a: Action, h: nat)
    requires Inv(s) && Enabled(s, a) && Armed(s, h) && Timer(s, h).autoReset && !Names(a, h)
    ensures Armed(Next(s, a), h) && Timer(Next(s, a), h).container == Timer(s, h).container
    ensures SameSettings(s, Next(s, a), h)
  {
    if !Concerns(s, a, h) {
      OtherTimersUntouched(s, a, h);
    } else if a.Service? {
      AutoResetRearms(s, a.top, a.now, a.later, h);
    } else {
      GetNewPartitioned(s.table);
    }
  }

  /** An armed auto-reset timer stays armed, through the same container, in every run in which no stop, restart
      or delete names it. */
  lemma {:induction false} AutoResetStaysArmed(s: State, actions: seq<Action>, h: nat)
    requires Inv(s) && IsRun(s, actions) && Armed(s, h) && Timer(s, h).autoReset
    requires forall a :: a in actions ==> !Names(a, h)
    ensures var end := After(s, actions);
      Armed(end, h) && Timer(end, h).container == Timer(s, h).container && SameSettings(s, end, h)
    decreases |actions|
  {
    if actions != [] {
      assert actions[0] in actions && forall a :: a in actions[1..] ==> a in actions;
      ArmedStep(s, actions[0], h);
      AutoResetStaysArmed(Next(s, actions[0]), actions[1..], h);
    }
  }
}
