/** The timer table, its heap containers and the queue, as a state machine of atomic steps. */
module Scheduler {
  import opened Options
  import opened HandleTable
  import opened Timespecs

  const MAX_TIMER_INTERVAL := 0x7FFF_FFFF_FFFF_FFFE

  /** The address of a heap container. The allocator may return any address that is not in use, also one
      that was freed before. */
  type Address = nat

  datatype TimerInfo = TimerInfo(
    expired: Timespec, interval: Timespec, active: bool, autoReset: bool, container: Option<Address>)

  /** `cells` is the memory of the containers: what each allocated container points to, the timer of a
      handle or null. A container is queued, pending (allocated, but its push is still to come), or retired
      (left behind by a one-shot timer that fired). `creating` holds the calls of `CreateTimer` whose push is
      still to come: the container each has allocated, and the handle it will read that container from. */
  datatype State = State(
    table: Table<TimerInfo>, cells: map<Address, Option<nat>>,
    queue: multiset<Address>, pending: set<Address>, creating: map<Address, nat>, retired: set<Address>)

  function Timer(s: State, h: nat): TimerInfo
    requires h < |s.table.slots|
  {
    s.table.slots[h].element
  }

  predicate Waiting(s: State, c: Address) {
    c in s.queue || c in s.pending
  }

  // ---------- the invariant ----------

  /** Every container is queued once, pending or retired, and only one of these. */
  ghost predicate ContainersAccounted(s: State) {
    && (forall c :: c in s.queue ==> s.queue[c] == 1 && c !in s.pending && c !in s.retired)
    && (forall c :: c in s.pending ==> c !in s.retired)
    && (forall c :: c in s.cells <==> Waiting(s, c) || c in s.retired)
  }

  /** A live container waits for a valid active timer that refers back to it. */
  ghost predicate LiveContainersAgree(s: State) {
    forall c :: Waiting(s, c) && c in s.cells && s.cells[c].Some? ==>
      Good(s.table, s.cells[c].value) && Timer(s, s.cells[c].value).active
      && Timer(s, s.cells[c].value).container == Some(c)
  }

  /** An active timer has a waiting container that points to it; the container of a suspended one is retired. */
  ghost predicate TimerAgrees(s: State, h: nat)
    requires h < |s.table.slots|
  {
    var t := Timer(s, h);
    && Normal(t.expired) && Normal(t.interval) && t.interval.sec >= 0
    && (t.active ==> t.container.Some? && Waiting(s, t.container.value)
                     && t.container.value in s.cells && s.cells[t.container.value] == Some(h))
    && (!t.active && t.container.Some? ==> t.container.value in s.retired)
  }

  /** The container of an unfinished creation is pending and points to the new timer, unless it was cancelled. */
  ghost predicate CreationsPending(s: State) {
    forall c :: c in s.creating ==>
      c in s.pending && s.creating[c] < |s.table.slots|
      && c in s.cells && (s.cells[c] == None || s.cells[c] == Some(s.creating[c]))
  }

  ghost predicate Inv(s: State) {
    && Partitioned(s.table)
    && ContainersAccounted(s)
    && LiveContainersAgree(s)
    && CreationsPending(s)
    && forall h :: Good(s.table, h) ==> TimerAgrees(s, h)
  }

  // ---------- the steps ----------

  datatype Action =
    | Create(ms: nat, active: bool, autoReset: bool, now: Timespec, cell: Address)
    | Push(c: Address)         // the push at the end of a restart
    | PushCreated(c: Address)  // the push at the end of the creation that has allocated `c`
    | Stop(h: nat)
    | Restart(h: nat, now: Timespec, cell: Address)
    | Delete(h: nat)
    | Service(top: Address, now: Timespec, later: Timespec)

  /** The slot that a creation reads its container from, after the list mutex was released, still refers to the
      one that the creation has allocated. */
  predicate FindsOwn(s: State, c: Address)
    requires c in s.creating
  {
    |s.table.slots| > 0 && Timer(s, Index(s.table, s.creating[c])).container == Some(c)
  }

  /** What the environment guarantees: fresh addresses, normalised clock readings, pushes of what is to be
      pushed. Any queued container may be on top. Two steps have a condition that the code relies on without
      a check: the push of a creation finds its own container, and no active timer is asked for when all the
      handles are taken (see `CreationPushExact` and `ExhaustedCreationBreaks`). */
  predicate Enabled(s: State, a: Action) {
    match a
    case Create(ms, active, _, now, cell) =>
      cell !in s.cells && Normal(now) && (s.table.free == [] && active ==> ms > MAX_TIMER_INTERVAL)
    case Push(c) => c in s.pending && c !in s.creating
    case PushCreated(c) => c in s.creating && FindsOwn(s, c)
    case Stop(_) => true
    case Restart(_, now, cell) => cell !in s.cells && Normal(now)
    case Delete(_) => true
    case Service(top, now, later) => top in s.queue && Normal(now) && Normal(later)
  }

  /** Writes null into a container, if there is one. The container must be allocated. */
  function Tombstone(cells: map<Address, Option<nat>>, container: Option<Address>): map<Address, Option<nat>>
    requires container.Some? ==> container.value in cells
  {
    if container.Some? then cells[container.value := None] else cells
  }

  predicate Refused(s: State, ms: nat) {
    ms > MAX_TIMER_INTERVAL || s.table.free == []
  }

  /** The handle that `CreateTimer` returns. */
  function NewHandle(s: State, ms: nat): nat
    requires Inv(s)
  {
    if Refused(s, ms) then NO_HANDLE else GetNew(s.table).1
  }

  function CreateStep(s: State, ms: nat, active: bool, autoReset: bool, now: Timespec, cell: Address): (s': State)
    requires Inv(s) && Enabled(s, Create(ms, active, autoReset, now, cell))
    ensures |s'.table.slots| == |s.table.slots|
  {
    if Refused(s, ms) then s
    else
      GetNewPartitioned(s.table);
      IntervalRoundTrip(ms);
      var (table, h) := GetNew(s.table);
      var t := TimerInfo(Add(now, FromMillis(ms)), FromMillis(ms), active, autoReset,
                         if active then Some(cell) else None);
      var s' := s.(table := Put(table, h, t));
      if active
      then s'.(cells := s.cells[cell := Some(h)], pending := s.pending + {cell}, creating := s.creating[cell := h])
      else s'
  }

  /** A restart pushes the container that it has allocated itself. */
  function PushStep(s: State, c: Address): (s': State)
    ensures |s'.table.slots| == |s.table.slots|
  {
    s.(queue := s.queue + multiset{c}, pending := s.pending - {c})
  }

  /** A creation reads the container to push from the table again, after the list mutex was released;
      `None` if that is a null pointer, which the service would dereference. */
  function CreationPush(s: State, c: Address): Option<State>
    requires Inv(s) && c in s.creating
  {
    assert s.creating[c] < |s.table.slots|;
    match Timer(s, Index(s.table, s.creating[c])).container
    case None => None
    case Some(p) => Some(s.(queue := s.queue + multiset{p}, pending := s.pending - {c}, creating := s.creating - {c}))
  }

  function PushCreatedStep(s: State, c: Address): (s': State)
    requires Inv(s) && c in s.creating && FindsOwn(s, c)
    ensures |s'.table.slots| == |s.table.slots|
  {
    CreationPush(s, c).value
  }

  function StopStep(s: State, h: nat): (s': State)
    requires Inv(s)
    ensures |s'.table.slots| == |s.table.slots|
  {
    if !Good(s.table, h) || !Timer(s, h).active then s
    else
      assert TimerAgrees(s, h);
      var t := Timer(s, h);
      s.(table := Put(s.table, h, t.(active := false, container := None)), cells := Tombstone(s.cells, t.container))
  }

  function RestartStep(s: State, h: nat, now: Timespec, cell: Address): (s': State)
    requires Inv(s) && Enabled(s, Restart(h, now, cell))
    ensures |s'.table.slots| == |s.table.slots|
  {
    if !Good(s.table, h) then s
    else
      assert TimerAgrees(s, h);
      var t := Timer(s, h);
      var cells := if t.active then Tombstone(s.cells, t.container) else s.cells;
      s.(table := Put(s.table, h, t.(expired := Add(now, t.interval), active := true, container := Some(cell))),
         cells := cells[cell := Some(h)], pending := s.pending + {cell})
  }

  function DeleteStep(s: State, h: nat): (s': State)
    requires Inv(s)
    ensures |s'.table.slots| == |s.table.slots|
  {
    if !Good(s.table, h) then s
    else
      assert TimerAgrees(s, h);
      s.(table := Free(s.table, h), cells := Tombstone(s.cells, Timer(s, h).container))
  }

  /** The timer that a service iteration dispatches, if any. */
  function Dispatched(s: State, top: Address, now: Timespec): Option<nat>
    requires Inv(s) && top in s.queue
  {
    match s.cells[top]
    case None => None
    case Some(h) => if Compare(Timer(s, h).expired, now) != 1 then Some(h) else None
  }

  function ServiceStep(s: State, top: Address, now: Timespec, later: Timespec): (s': State)
    requires Inv(s) && Enabled(s, Service(top, now, later))
    ensures |s'.table.slots| == |s.table.slots|
  {
    match s.cells[top]
    case None => s.(queue := s.queue - multiset{top}, cells := s.cells - {top})
    case Some(h) =>
      assert TimerAgrees(s, h);
      var t := Timer(s, h);
      if Compare(t.expired, now) == 1 then s
      else if t.autoReset then s.(table := Put(s.table, h, t.(expired := Add(later, t.interval))))
      else s.(table := Put(s.table, h, t.(active := false)),
              queue := s.queue - multiset{top}, retired := s.retired + {top})
  }

  function Next(s: State, a: Action): (s': State)
    requires Inv(s) && Enabled(s, a)
    ensures Inv(s') && |s'.table.slots| == |s.table.slots|
  {
    match a
    case Create(ms, active, autoReset, now, cell) =>
      CreateKeepsInv(s, ms, active, autoReset, now, cell); CreateStep(s, ms, active, autoReset, now, cell)
    case Push(c) => PushKeepsInv(s, c); PushStep(s, c)
    case PushCreated(c) => PushCreatedKeepsInv(s, c); PushCreatedStep(s, c)
    case Stop(h) => StopKeepsInv(s, h); StopStep(s, h)
    case Restart(h, now, cell) => RestartKeepsInv(s, h, now, cell); RestartStep(s, h, now, cell)
    case Delete(h) => DeleteKeepsInv(s, h); DeleteStep(s, h)
    case Service(top, now, later) => ServiceKeepsInv(s, top, now, later); ServiceStep(s, top, now, later)
  }

  // ---------- every step keeps the invariant ----------

  lemma CreateKeepsContainers(s: State, ms: nat, active: bool, autoReset: bool, now: Timespec, cell: Address)
    requires Inv(s) && Enabled(s, Create(ms, active, autoReset, now, cell))
    ensures ContainersAccounted(CreateStep(s, ms, active, autoReset, now, cell))
    ensures CreationsPending(CreateStep(s, ms, active, autoReset, now, cell))
  {
    GetNewPartitioned(s.table);
  }

  lemma CreateKeepsTimers(s: State, ms: nat, active: bool, autoReset: bool, now: Timespec, cell: Address, k: nat)
    requires Inv(s) && Enabled(s, Create(ms, active, autoReset, now, cell))
    requires Good(CreateStep(s, ms, active, autoReset, now, cell).table, k)
    ensures TimerAgrees(CreateStep(s, ms, active, autoReset, now, cell), k)
  {
    GetNewPartitioned(s.table);
    if !Refused(s, ms) && k == GetNew(s.table).1 {
      IntervalRoundTrip(ms);
      AgreesWithNanos(now, FromMillis(ms));
    } else {
      assert TimerAgrees(s, k);
    }
  }

  lemma CreateKeepsInv(s: State, ms: nat, active: bool, autoReset: bool, now: Timespec, cell: Address)
    requires Inv(s) && Enabled(s, Create(ms, active, autoReset, now, cell))
    ensures Inv(CreateStep(s, ms, active, autoReset, now, cell))
  {
    if !Refused(s, ms) {
      var s' := CreateStep(s, ms, active, autoReset, now, cell);
      var (table, h) := GetNew(s.table);
      GetNewPartitioned(s.table);
      PutPartitioned(table, h, Timer(s', h));
      CreateKeepsContainers(s, ms, active, autoReset, now, cell);
      forall k | Good(s'.table, k) ensures TimerAgrees(s', k) {
        CreateKeepsTimers(s, ms, active, autoReset, now, cell, k);
      }
      assert LiveContainersAgree(s');
    }
  }

  lemma PushKeepsInv(s: State, c: Address)
    requires Inv(s) && c in s.pending && c !in s.creating
    ensures Inv(PushStep(s, c))
  {
  }

  lemma PushCreatedKeepsInv(s: State, c: Address)
    requires Inv(s) && c in s.creating && FindsOwn(s, c)
    ensures Inv(PushCreatedStep(s, c))
  {
    var s' := PushCreatedStep(s, c);
    forall k | Good(s'.table, k) ensures TimerAgrees(s', k) {
      assert TimerAgrees(s, k);
    }
  }

  /** What is needed of the push at the end of a creation: it must find a container, and keep the invariant. */
  ghost predicate CreationPushSafe(s: State, c: Address)
    requires Inv(s) && c in s.creating
  {
    CreationPush(s, c).Some? && Inv(CreationPush(s, c).value)
  }

  /** The push of a creation is safe if and only if it finds the creation's own container. */
  lemma CreationPushExact(s: State, c: Address)
    requires Inv(s) && c in s.creating
    ensures CreationPushSafe(s, c) <==> FindsOwn(s, c)
  {
    var container := Timer(s, Index(s.table, s.creating[c])).container;
    if container == Some(c) {
      PushCreatedKeepsInv(s, c);
    } else if container.Some? {
      var s' := CreationPush(s, c).value;
      assert c in s'.cells && !Waiting(s', c) && c !in s'.retired;
    }
  }

  /** When all the handles are taken, an active creation goes on to push the container of slot 0: a null
      pointer, or a container that is accounted for already. */
  lemma ExhaustedCreationBreaks(s: State)
    requires Inv(s) && s.table.free == [] && 0 < |s.table.slots| <= NO_HANDLE
    ensures match Timer(s, Index(s.table, NO_HANDLE)).container
            case None => true
            case Some(p) => !Inv(s.(queue := s.queue + multiset{p}))
  {
    assert Good(s.table, 0) && TimerAgrees(s, 0);
  }

  lemma StopKeepsInv(s: State, h: nat)
    requires Inv(s)
    ensures Inv(StopStep(s, h))
  {
    if Good(s.table, h) && Timer(s, h).active {
      var s' := StopStep(s, h);
      assert TimerAgrees(s, h);
      PutPartitioned(s.table, h, Timer(s', h));
      forall k | Good(s'.table, k) ensures TimerAgrees(s', k) {
        assert TimerAgrees(s, k);
      }
    }
  }

  lemma RestartKeepsContainers(s: State, h: nat, now: Timespec, cell: Address)
    requires Inv(s) && Enabled(s, Restart(h, now, cell))
    ensures ContainersAccounted(RestartStep(s, h, now, cell)) && CreationsPending(RestartStep(s, h, now, cell))
  {
    if Good(s.table, h) {
      assert TimerAgrees(s, h);
    }
  }

  lemma RestartKeepsTimers(s: State, h: nat, now: Timespec, cell: Address, k: nat)
    requires Inv(s) && Enabled(s, Restart(h, now, cell)) && Good(s.table, k)
    ensures TimerAgrees(RestartStep(s, h, now, cell), k)
  {
    assert TimerAgrees(s, k);
    if Good(s.table, h) {
      assert TimerAgrees(s, h);
      AgreesWithNanos(now, Timer(s, h).interval);
    }
  }

  lemma RestartKeepsInv(s: State, h: nat, now: Timespec, cell: Address)
    requires Inv(s) && Enabled(s, Restart(h, now, cell))
    ensures Inv(RestartStep(s, h, now, cell))
  {
    if Good(s.table, h) {
      var s' := RestartStep(s, h, now, cell);
      assert TimerAgrees(s, h);
      PutPartitioned(s.table, h, Timer(s', h));
      RestartKeepsContainers(s, h, now, cell);
      forall k | Good(s'.table, k) ensures TimerAgrees(s', k) {
        RestartKeepsTimers(s, h, now, cell, k);
      }
      assert LiveContainersAgree(s');
    }
  }

  lemma DeleteKeepsInv(s: State, h: nat)
    requires Inv(s)
    ensures Inv(DeleteStep(s, h))
  {
    if Good(s.table, h) {
      var s' := DeleteStep(s, h);
      assert TimerAgrees(s, h);
      FreePartitioned(s.table, h);
      forall k | Good(s'.table, k) ensures TimerAgrees(s', k) {
        assert Good(s.table, k) && TimerAgrees(s, k);
      }
    }
  }

  lemma DiscardKeepsInv(s: State, top: Address)
    requires Inv(s) && top in s.queue && s.cells[top] == None
    ensures Inv(s.(queue := s.queue - multiset{top}, cells := s.cells - {top}))
  {
    var s' := s.(queue := s.queue - multiset{top}, cells := s.cells - {top});
    forall k | Good(s'.table, k) ensures TimerAgrees(s', k) {
      assert TimerAgrees(s, k);
    }
  }

  /** A timer whose expiry is moved stays in agreement with the queue. */
  lemma RearmKeepsInv(s: State, h: nat, expired: Timespec)
    requires Inv(s) && Good(s.table, h) && Normal(expired)
    ensures Inv(s.(table := Put(s.table, h, Timer(s, h).(expired := expired))))
  {
    var s' := s.(table := Put(s.table, h, Timer(s, h).(expired := expired)));
    PutPartitioned(s.table, h, Timer(s', h));
    forall k | Good(s'.table, k) ensures TimerAgrees(s', k) {
      assert TimerAgrees(s, k);
    }
  }

  /** A one-shot timer is suspended and its container retired. */
  lemma RetireKeepsInv(s: State, top: Address, h: nat)
    requires Inv(s) && top in s.queue && s.cells[top] == Some(h)
    ensures Inv(s.(table := Put(s.table, h, Timer(s, h).(active := false)),
                   queue := s.queue - multiset{top}, retired := s.retired + {top}))
  {
    var s' := s.(table := Put(s.table, h, Timer(s, h).(active := false)),
                 queue := s.queue - multiset{top}, retired := s.retired + {top});
    PutPartitioned(s.table, h, Timer(s', h));
    assert TimerAgrees(s, h);
    forall k | Good(s'.table, k) ensures TimerAgrees(s', k) {
      assert TimerAgrees(s, k);
    }
  }

  lemma ServiceKeepsInv(s: State, top: Address, now: Timespec, later: Timespec)
    requires Inv(s) && Enabled(s, Service(top, now, later))
    ensures Inv(ServiceStep(s, top, now, later))
  {
    match s.cells[top]
    case None => DiscardKeepsInv(s, top);
    case Some(h) =>
      assert TimerAgrees(s, h);
      AgreesWithNanos(later, Timer(s, h).interval);
      RearmKeepsInv(s, h, Add(later, Timer(s, h).interval));
      RetireKeepsInv(s, top, h);
  }
}
