/** The handle allocator under the timer table: slots, a LIFO free list and a count. */
module HandleTable {
  const NO_HANDLE := 0xFFFF_FFFF

  datatype Slot<T> = Slot(element: T, valid: bool)

  /** The value of a `Handle_List`. */
  datatype Table<T> = Table(slots: seq<Slot<T>>, free: seq<nat>, count: int)

  predicate Good<T>(t: Table<T>, h: nat) {
    h < |t.slots| && t.slots[h].valid
  }

  /** `GetNewHandle` */
  function GetNew<T>(t: Table<T>): (Table<T>, nat)
    requires forall h :: h in t.free ==> h < |t.slots|
  {
    if t.free == [] then (t, NO_HANDLE)
    else
      var h := t.free[0];
      assert h in t.free;
      (Table(t.slots[h := t.slots[h].(valid := true)], t.free[1..], t.count + 1), h)
  }

  /** `FreeHandle`: a bad handle is ignored. */
  function Free<T>(t: Table<T>, h: nat): Table<T> {
    if !Good(t, h) then t
    else Table(t.slots[h := t.slots[h].(valid := false)], [h] + t.free, t.count - 1)
  }

  /** The slot that `operator[]` refers to: a bad handle stands for slot 0. */
  function Index<T>(t: Table<T>, h: nat): (i: nat)
    requires |t.slots| > 0
    ensures i < |t.slots|
  {
    if Good(t, h) then h else 0
  }

  /** Writes the element of a slot. */
  function Put<T>(t: Table<T>, h: nat, element: T): Table<T>
    requires h < |t.slots|
  {
    t.(slots := t.slots[h := t.slots[h].(element := element)])
  }

  predicate NoRepeats(s: seq<nat>) {
    forall i, j :: 0 <= i < j < |s| ==> s[i] != s[j]
  }

  /** The free list and the valid handles partition the slots, and the count is what is not free. */
  predicate Partitioned<T>(t: Table<T>) {
    && NoRepeats(t.free)
    && (forall h :: h in t.free ==> h < |t.slots|)
    && (forall h :: 0 <= h < |t.slots| ==> (t.slots[h].valid <==> h !in t.free))
    && t.count + |t.free| == |t.slots|
  }

  function Numbers(from: nat, to: nat): seq<nat>
    requires from <= to
  {
    seq(to - from, i requires 0 <= i => from + i)
  }

  /** A new list of `size` slots. */
  function Fresh<T>(size: nat, zero: T): Table<T> {
    Table(seq(size, _ => Slot(zero, false)), Numbers(0, size), 0)
  }

  lemma FreshPartitioned<T>(size: nat, zero: T)
    ensures Partitioned(Fresh(size, zero))
  {
    var t := Fresh(size, zero);
    forall h | 0 <= h < size ensures h in t.free {
      assert t.free[h] == h;
    }
  }

  /** A new handle was not valid before and is now; nothing else changes, and it is the latest one freed. */
  lemma GetNewPartitioned<T>(t: Table<T>)
    requires Partitioned(t)
    ensures var (t', h) := GetNew(t);
      && Partitioned(t')
      && (t.free == [] ==> t' == t && h == 0xFFFF_FFFF)
      && (t.free != [] ==> (!Good(t, h) && Good(t', h) && t'.count == t.count + 1
                            && forall k :: 0 <= k < |t.slots| && k != h ==> t'.slots[k] == t.slots[k]))
  {
    if t.free != [] {
      var h := t.free[0];
      var rest := t.free[1..];
      assert forall k :: k in t.free <==> k == h || k in rest;
      assert h !in rest;
    }
  }

  lemma FreePartitioned<T>(t: Table<T>, h: nat)
    requires Partitioned(t) && Good(t, h)
    ensures Partitioned(Free(t, h)) && !Good(Free(t, h), h)
    ensures GetNew(Free(t, h)) == (t, h)
  {
    var t' := Free(t, h);
    assert forall k :: k in t'.free <==> k == h || k in t.free;
    assert t'.free[1..] == t.free;
    assert GetNew(t').0.slots == t.slots;
  }

  lemma PutPartitioned<T>(t: Table<T>, h: nat, element: T)
    requires Partitioned(t) && h < |t.slots|
    ensures Partitioned(Put(t, h, element))
  {
  }

  /** The numbers below `n`. */
  function Below(n: nat): (r: set<nat>)
    ensures |r| == n && forall k: nat :: k in r <==> k < n
  {
    if n == 0 then {} else Below(n - 1) + {n - 1}
  }

  function Elements(s: seq<nat>): (r: set<nat>)
    ensures forall k :: k in r <==> k in s
    ensures NoRepeats(s) ==> |r| == |s|
  {
    if s == [] then {}
    else
      assert forall k :: k in s <==> k in s[1..] || k == s[0];
      Elements(s[1..]) + {s[0]}
  }

  function ValidHandles<T>(t: Table<T>): set<nat> {
    set h | h in Below(|t.slots|) && Good(t, h)
  }

  /** The count is the number of valid handles. */
  lemma CountIsValidHandles<T>(t: Table<T>)
    requires Partitioned(t)
    ensures t.count == |ValidHandles(t)|
  {
    var (valid, free) := (ValidHandles(t), Elements(t.free));
    assert valid + free == Below(|t.slots|);
    assert valid !! free;
  }

  datatype Operation = New | Release(h: nat)

  function Run<T>(t: Table<T>, operations: seq<Operation>): Table<T>
    requires Partitioned(t)
    decreases |operations|
  {
    if operations == [] then t
    else
      match operations[0]
      case New => GetNewPartitioned(t); Run(GetNew(t).0, operations[1..])
      case Release(h) =>
        if !Good(t, h) then Run(t, operations[1..])
        else FreePartitioned(t, h); Run(Free(t, h), operations[1..])
  }

  /** In every state reached from a new list by taking and releasing handles, the free list and the valid
      handles partition the slots, the count is the number of valid handles, and the next handle handed out
      is one that is not valid. */
  lemma {:induction false} AllocatorSafe<T>(t: Table<T>, operations: seq<Operation>)
    requires Partitioned(t)
    ensures var end := Run(t, operations);
      && Partitioned(end) && |end.slots| == |t.slots| && end.count == |ValidHandles(end)|
      && (end.free == [] || !Good(end, GetNew(end).1))
    decreases |operations|
  {
    if operations == [] {
      CountIsValidHandles(t);
      GetNewPartitioned(t);
    } else {
      match operations[0]
      case New =>
        GetNewPartitioned(t);
        AllocatorSafe(GetNew(t).0, operations[1..]);
      case Release(h) =>
        if Good(t, h) {
          FreePartitioned(t, h);
          AllocatorSafe(Free(t, h), operations[1..]);
        } else {
          AllocatorSafe(t, operations[1..]);
        }
    }
  }

  // ---------- the list object ----------

  class HandleList<T(0)> {
    const size: nat
    var data: array<Slot<T>>
    var freeHandles: seq<nat>
    var count: int

    /** The abstract value. */
    ghost function Value(): Table<T>
      reads this, data
    {
      Table(data[..], freeHandles, count)
    }

    ghost predicate Valid()
      reads this, data
    {
      data.Length == size && Partitioned(Value())
    }

    constructor (size: nat, zero: T)
      requires size <= NO_HANDLE
      ensures Valid() && fresh(data) && this.size == size && Value() == Fresh(size, zero)
    {
      this.size := size;
      data := new Slot<T>[size](_ => Slot(zero, false));
      count, freeHandles := 0, [];
      new;
      var left := size;
      while left > 0
        invariant left <= size && freeHandles == Numbers(left, size) && count == 0
        invariant fresh(data) && data.Length == size
        invariant forall i :: 0 <= i < size ==> data[i] == Slot(zero, false)
      {
        left := left - 1;
        freeHandles := [left] + freeHandles;
      }
      assert data[..] == Fresh(size, zero).slots;
      FreshPartitioned(size, zero);
    }

    /** A handle equal to the size passes the bound check of the original and reads beyond the slots. */
    method IsGoodHandle(h: nat) returns (good: bool)
      requires Valid() && h != size
      ensures good == Good(Value(), h)
    {
      if h > size {
        return false;
      }
      good := data[h].valid;
    }

    method GetNewHandle() returns (h: nat)
      requires Valid()
      modifies this, data
      ensures Valid() && data == old(data)
      ensures (Value(), h) == GetNew(old(Value()))
    {
      GetNewPartitioned(Value());
      h := NO_HANDLE;
      if freeHandles != [] {
        h := freeHandles[0];
        freeHandles := freeHandles[1..];
        data[h] := data[h].(valid := true);
        count := count + 1;
      }
    }

    method FreeHandle(h: nat)
      requires Valid() && h != size
      modifies this, data
      ensures Valid() && data == old(data)
      ensures Value() == Free(old(Value()), h)
    {
      var good := IsGoodHandle(h);
      if !good {
        return;
      }
      FreePartitioned(Value(), h);
      data[h] := data[h].(valid := false);
      freeHandles := [h] + freeHandles;
      count := count - 1;
    }

    /** Reading through `operator[]`. */
    method Get(h: nat) returns (element: T)
      requires Valid() && size > 0 && h != size
      ensures element == Value().slots[Index(Value(), h)].element
    {
      var good := IsGoodHandle(h);
      element := if good then data[h].element else data[0].element;
    }

    /** Writing through `operator[]`. */
    method Set(h: nat, element: T)
      requires Valid() && size > 0 && h != size
      modifies data
      ensures Valid() && Value() == Put(old(Value()), Index(old(Value()), h), element)
    {
      PutPartitioned(Value(), Index(Value(), h), element);
      var good := IsGoodHandle(h);
      var i := if good then h else 0;
      data[i] := data[i].(element := element);
    }
  }
}
