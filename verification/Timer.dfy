/** The timer object. Each method is one atomic step of the scheduler; clock readings and the addresses
    returned by the allocator come from outside. */
module Timers {
  import opened Options
  import opened HandleTable
  import opened Timespecs
  import opened Scheduler
  import opened Runs

  const MAX_TIMER_COUNT := 100

  class TimerService {
    const timers: HandleList<TimerInfo>
    var cells: map<Address, Option<nat>>
    var queue: multiset<Address>
    ghost var pending: set<Address>
    ghost var creating: map<Address, nat>
    ghost var retired: set<Address>

    ghost function Value(): State
      reads this, timers, timers.data
    {
      State(timers.Value(), cells, queue, pending, creating, retired)
    }

    ghost predicate Valid()
      reads this, timers, timers.data
    {
      timers.Valid() && timers.size == MAX_TIMER_COUNT && Inv(Value())
    }

    constructor ()
      ensures Valid() && fresh(timers) && fresh(timers.data) && Value() == Initial(100)
    {
      timers := new HandleList(MAX_TIMER_COUNT, TimerInfo(Timespec(0, 0), Timespec(0, 0), true, false, None));
      cells, queue, pending, creating, retired := map[], multiset{}, {}, map[], {};
    }

    /** Fills a free slot. The container of an active timer is still to be pushed. */
    method CreateTimer(ms: nat, active: bool, autoReset: bool, now: Timespec, cell: Address) returns (h: nat)
      requires Valid() && Enabled(Value(), Create(ms, active, autoReset, now, cell))
      modifies this, timers, timers.data
      ensures Valid() && timers.data == old(timers.data)
      ensures Value() == Next(old(Value()), Create(ms, active, autoReset, now, cell))
      ensures h == NewHandle(old(Value()), ms)
    {
      if ms > MAX_TIMER_INTERVAL {
        return NO_HANDLE;
      }
      ghost var before := Value();
      GetNewPartitioned(timers.Value());
      h := timers.GetNewHandle();
      if h == NO_HANDLE {
        return;
      }
      IntervalRoundTrip(ms);
      var interval := FromMillis(ms);
      var container := None;
      if active {
        container := Some(cell);
        cells := cells[cell := Some(h)];
        pending, creating := pending + {cell}, creating[cell := h];
      }
      timers.Set(h, TimerInfo(Add(now, interval), interval, active, autoReset, container));
      CreateKeepsInv(before, ms, active, autoReset, now, cell);
    }

    /** The end of a creation: the container to put on the queue is read from the table again. */
    method PushCreatedContainer(h: nat, ghost c: Address)
      requires Valid() && Enabled(Value(), PushCreated(c)) && creating[c] == h
      modifies this
      ensures Valid() && Value() == Next(old(Value()), PushCreated(c))
    {
      PushCreatedKeepsInv(Value(), c);
      var info := timers.Get(h);
      queue := queue + multiset{info.container.value};
      pending, creating := pending - {c}, creating - {c};
    }

    /** The end of a restart: puts the container that it has allocated on the queue. */
    method PushContainer(c: Address)
      requires Valid() && Enabled(Value(), Push(c))
      modifies this
      ensures Valid() && Value() == Next(old(Value()), Push(c))
    {
      PushKeepsInv(Value(), c);
      queue := queue + multiset{c};
      pending := pending - {c};
    }

    method StopTimer(h: nat)
      requires Valid() && h != MAX_TIMER_COUNT
      modifies this, timers.data
      ensures Valid() && Value() == Next(old(Value()), Stop(h))
    {
      var good := timers.IsGoodHandle(h);
      if !good {
        return;
      }
      StopKeepsInv(Value(), h);
      var info := timers.Get(h);
      if info.active {
        if info.container.Some? {
          cells := cells[info.container.value := None];
        }
        timers.Set(h, info.(active := false, container := None));
      }
    }

    /** Rearms the timer with a new container, which is still to be pushed. */
    method RestartTimer(h: nat, now: Timespec, cell: Address) returns (container: Option<Address>)
      requires Valid() && h != MAX_TIMER_COUNT && Enabled(Value(), Restart(h, now, cell))
      modifies this, timers.data
      ensures Valid() && Value() == Next(old(Value()), Restart(h, now, cell))
      ensures container == if Good(old(timers.Value()), h) then Some(cell) else None
    {
      var good := timers.IsGoodHandle(h);
      if !good {
        return None;
      }
      RestartKeepsInv(Value(), h, now, cell);
      var info := timers.Get(h);
      if info.active && info.container.Some? {
        cells := cells[info.container.value := None];
      }
      cells := cells[cell := Some(h)];
      pending := pending + {cell};
      container := Some(cell);
      timers.Set(h, info.(expired := Add(now, info.interval), active := true, container := container));
    }

    method DeleteTimer(h: nat)
      requires Valid() && h != MAX_TIMER_COUNT
      modifies this, timers, timers.data
      ensures Valid() && timers.data == old(timers.data) && Value() == Next(old(Value()), Delete(h))
    {
      var good := timers.IsGoodHandle(h);
      if !good {
        return;
      }
      DeleteKeepsInv(Value(), h);
      var info := timers.Get(h);
      if info.container.Some? {
        cells := cells[info.container.value := None];
      }
      timers.FreeHandle(h);
    }

    method IsTimerActive(h: nat) returns (active: bool)
      requires Valid() && h != MAX_TIMER_COUNT
      ensures active == Armed(Value(), h)
    {
      var good := timers.IsGoodHandle(h);
      if !good {
        return false;
      }
      var info := timers.Get(h);
      active := info.active;
    }

    /** One iteration of the service thread on a queue that is not empty. Returns the timer dispatched, if any, and
        for how many microseconds the thread goes to sleep, if it does. */
    method ServiceIteration(top: Address, now: Timespec, later: Timespec)
      returns (fired: Option<nat>, sleep: Option<nat>)
      requires Valid() && Enabled(Value(), Service(top, now, later))
      modifies this, timers.data
      ensures Valid() && Value() == Next(old(Value()), Service(top, now, later))
      ensures fired == Dispatched(old(Value()), top, now)
      ensures sleep.Some? <==> old(cells)[top].Some? && fired == None
      ensures sleep.Some? ==> sleep.value == SleepTime(Timer(old(Value()), old(cells)[top].value).expired, now)
    {
      ServiceKeepsInv(Value(), top, now, later);
      fired, sleep := None, None;
      if cells[top] == None {
        queue := queue - multiset{top};
        cells := cells - {top};
        return;
      }
      var h := cells[top].value;
      var info := timers.Get(h);
      if Compare(info.expired, now) != 1 {
        fired := Some(h);
        FireTimer(top, h, now, later);
      } else {
        sleep := Some(SleepTime(info.expired, now));
      }
    }

    /** Dispatches the timer of a popped container: an auto-reset timer goes back on the queue. */
    method FireTimer(top: Address, h: nat, now: Timespec, later: Timespec)
      requires Valid() && Enabled(Value(), Service(top, now, later)) && Dispatched(Value(), top, now) == Some(h)
      modifies this, timers.data
      ensures Valid() && Value() == ServiceStep(old(Value()), top, now, later)
    {
      ghost var after := ServiceStep(Value(), top, now, later);
      ServiceKeepsInv(Value(), top, now, later);
      DispatchesActiveTimer(Value(), top, now);
      var info := timers.Get(h);
      assert info.active;
      queue := queue - multiset{top};
      if info.autoReset {
        queue := queue + multiset{top};
        assert queue == after.queue;
        timers.Set(h, info.(expired := Add(later, info.interval)));
      } else {
        retired := retired + {top};
        timers.Set(h, info.(active := false));
      }
      assert timers.Value() == after.table;
      assert Value() == after;
    }
  }
}
