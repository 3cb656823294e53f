/**
  * JBasicObjectList: a table of references with a cursor where the search for a free slot starts and a
  * count of slots believed free. Callers keep the index that adding an object gave them.
  */
module ObjectTable {
  /** A reference; 0 is null. */
  type Ref = int

  const NULL: Ref := 0

  datatype Table = Table(slots: seq<Ref>, cursor: nat, available: int)

  datatype Added = Rejected | At(index: nat) | Unreachable

  predicate Shaped(t: Table) {
    t.cursor < |t.slots| || (t.cursor == 0 && t.slots == [])
  }

  function Nulls(slots: seq<Ref>): (n: nat)
    ensures n <= |slots|
  {
    if slots == [] then 0
    else Nulls(slots[..|slots| - 1]) + if slots[|slots| - 1] == NULL then 1 else 0
  }

  function Blank(n: nat): seq<Ref> { seq(n, i => NULL) }

  /** The count never exceeds the number of free slots; compaction forgets the holes it leaves, so it may
      be lower. */
  predicate Fits(t: Table) {
    Shaped(t) && 0 <= t.available <= Nulls(t.slots)
  }

  // ----- what each operation does to the table

  function GrowTo(t: Table, n: nat): Table
    requires n >= |t.slots|
  {
    Table(t.slots + Blank(n - |t.slots|), t.cursor, t.available + (n - |t.slots|))
  }

  function Growth(length: nat): nat {
    if length == 0 then 16 else if length < 128 then length else 128
  }

  function Slot(start: nat, i: nat, length: nat): nat
    requires start < length && i < length
  {
    (start + i) % length
  }

  /** The first free slot, searched cyclically from start + i on. */
  function Scan(slots: seq<Ref>, start: nat, i: nat): (r: Added)
    requires start < |slots| && i <= |slots|
    ensures r.At? ==> r.index < |slots| && slots[r.index] == NULL
    decreases |slots| - i
  {
    if i == |slots| then Unreachable
    else if slots[Slot(start, i, |slots|)] == NULL then At(Slot(start, i, |slots|))
    else Scan(slots, start, i + 1)
  }

  function Place(t: Table, obj: Ref): (Table, Added)
    requires Shaped(t)
  {
    var r := if t.slots == [] then Unreachable else Scan(t.slots, t.cursor, 0);
    match r
    case At(i) => (Table(t.slots[i := obj], (i + 1) % |t.slots|, t.available - 1), r)
    case _ => (t, r)
  }

  function Add(t: Table, obj: Ref): (Table, Added)
    requires Shaped(t)
  {
    if obj == NULL then (t, Rejected)
    else if t.available == 0 then Place(GrowTo(t, |t.slots| + Growth(|t.slots|)), obj)
    else Place(t, obj)
  }

  function Update(t: Table, i: int, obj: Ref): Table {
    if 0 <= i < |t.slots| then t.(slots := t.slots[i := obj]) else t
  }

  function Remove(t: Table, i: int): Table {
    if 0 <= i < |t.slots| then Table(t.slots[i := NULL], i, t.available + 1) else t
  }

  /** One more than the index of the last object, 0 without objects. */
  function Extent(slots: seq<Ref>): (n: nat)
    ensures n <= |slots|
    ensures n > 0 ==> slots[n - 1] != NULL
    ensures forall i | n <= i < |slots| :: slots[i] == NULL
  {
    if slots == [] then 0
    else if slots[|slots| - 1] != NULL then |slots|
    else Extent(slots[..|slots| - 1])
  }

  function Finalize(t: Table): Table {
    var n := Extent(t.slots);
    if t.available == 0 || n == |t.slots| then t
    else Table(t.slots[..n], if n == 0 then 0 else n - 1, 0)
  }

  function Reserve(t: Table, capacity: int): Table {
    if capacity <= |t.slots| then t else GrowTo(t, capacity)
  }

  function Clear(t: Table): Table {
    Table(Blank(|t.slots|), 0, |t.slots|)
  }

  // ----- properties

  lemma {:induction false} NullsUpdate(slots: seq<Ref>, i: nat, obj: Ref)
    requires i < |slots|
    ensures Nulls(slots[i := obj]) ==
            Nulls(slots) - (if slots[i] == NULL then 1 else 0) + (if obj == NULL then 1 else 0)
  {
    var n := |slots| - 1;
    if i == n {
      assert slots[i := obj][..n] == slots[..n];
    } else {
      assert slots[i := obj][..n] == slots[..n][i := obj];
      NullsUpdate(slots[..n], i, obj);
    }
  }

  lemma {:induction false} NullsGrow(slots: seq<Ref>, n: nat)
    ensures Nulls(slots + Blank(n)) == Nulls(slots) + n
  {
    if n == 0 {
      assert slots + Blank(0) == slots;
    } else {
      NullsGrow(slots, n - 1);
      assert (slots + Blank(n))[..|slots| + n - 1] == slots + Blank(n - 1);
    }
  }

  lemma {:induction false} NullsPresent(slots: seq<Ref>)
    ensures Nulls(slots) > 0 <==> exists i :: 0 <= i < |slots| && slots[i] == NULL
  {
    if slots != [] {
      var front := slots[..|slots| - 1];
      NullsPresent(front);
      if i :| 0 <= i < |slots| && slots[i] == NULL {
        assert i < |front| ==> front[i] == NULL;
      }
      if Nulls(front) > 0 {
        var j :| 0 <= j < |front| && front[j] == NULL;
        assert slots[j] == NULL;
      }
    }
  }

  lemma {:induction false} ScanStops(slots: seq<Ref>, start: nat, i: nat)
    requires start < |slots| && i <= |slots|
    ensures Scan(slots, start, i).Unreachable? ==>
            forall k | i <= k < |slots| :: slots[Slot(start, k, |slots|)] != NULL
    ensures !Scan(slots, start, i).Rejected?
    decreases |slots| - i
  {
    if i < |slots| {
      ScanStops(slots, start, i + 1);
    }
  }

  lemma SlotsCover(start: nat, k: nat, length: nat) returns (i: nat)
    requires start < length && k < length
    ensures i < length && Slot(start, i, length) == k
  {
    if k >= start {
      i := k - start;
      assert (start + i) % length == k;
    } else {
      i := k + length - start;
      assert (start + i) == length + k;
      assert (length + k) % length == k;
    }
  }

  /** The cyclic search visits every slot: it fails only when no slot is free. */
  lemma ScanFinds(slots: seq<Ref>, start: nat)
    requires start < |slots|
    ensures Scan(slots, start, 0).At? <==> Nulls(slots) > 0
  {
    ScanStops(slots, start, 0);
    NullsPresent(slots);
    if k :| 0 <= k < |slots| && slots[k] == NULL {
      var i := SlotsCover(start, k, |slots|);
    }
  }

  lemma PlaceFinds(t: Table, obj: Ref)
    requires Shaped(t)
    ensures Place(t, obj).1.At? <==> Nulls(t.slots) > 0
    ensures Place(t, obj).1.Unreachable? <==> Nulls(t.slots) == 0
    ensures Place(t, obj).1.At? ==>
      var (u, r) := Place(t, obj);
      && r.index < |t.slots| && t.slots[r.index] == NULL && u.slots == t.slots[r.index := obj]
      && Shaped(u) && u.available == t.available - 1
  {
    if t.slots != [] {
      ScanFinds(t.slots, t.cursor);
      ScanStops(t.slots, t.cursor, 0);
    }
  }

  /** Adding runs off the end of its search exactly when the count promises a slot and there is none. */
  lemma UnreachableExactly(t: Table, obj: Ref)
    requires Shaped(t)
    ensures Add(t, obj).1.Unreachable? <==> obj != NULL && t.available != 0 && Nulls(t.slots) == 0
  {
    if t.available == 0 {
      NullsGrow(t.slots, Growth(|t.slots|));
      PlaceFinds(GrowTo(t, |t.slots| + Growth(|t.slots|)), obj);
    } else {
      PlaceFinds(t, obj);
    }
  }

  /** On a table in order, adding always finds a free slot, fills it, and changes no other. */
  lemma AddFindsSlot(t: Table, obj: Ref)
    requires Fits(t) && obj != NULL
    ensures
      var (u, r) := Add(t, obj);
      && r.At? && r.index < |u.slots| && u.slots[r.index] == obj
      && Fits(u) && |t.slots| <= |u.slots|
      && (r.index < |t.slots| ==> t.slots[r.index] == NULL)
      && forall i | 0 <= i < |t.slots| && i != r.index :: u.slots[i] == t.slots[i]
  {
    var g := if t.available == 0 then GrowTo(t, |t.slots| + Growth(|t.slots|)) else t;
    NullsGrow(t.slots, Growth(|t.slots|));
    PlaceFinds(g, obj);
    NullsUpdate(g.slots, Place(g, obj).1.index, obj);
  }

  lemma {:induction false} ScanIsFirst(slots: seq<Ref>, start: nat, i: nat) returns (k: nat)
    requires start < |slots| && i <= |slots| && Scan(slots, start, i).At?
    ensures i <= k < |slots| && Scan(slots, start, i).index == (start + k) % |slots|
    ensures forall j | i <= j < k :: slots[Slot(start, j, |slots|)] != NULL
    decreases |slots| - i
  {
    if slots[Slot(start, i, |slots|)] == NULL {
      k := i;
    } else {
      k := ScanIsFirst(slots, start, i + 1);
    }
  }

  /** The slot filled is the first free one, cyclically from the cursor, of the table as it is or, when no slot is
      believed free, grown: to 16 slots, else to twice as many, but by 128 at most. The cursor moves behind it. */
  lemma AddTakesFirst(t: Table, obj: Ref) returns (k: nat)
    requires Fits(t) && obj != NULL
    ensures
      var (u, r) := Add(t, obj);
      var n := |u.slots|;
      && n == (if t.available > 0 then |t.slots| else if |t.slots| == 0 then 16
               else if |t.slots| < 128 then 2 * |t.slots| else |t.slots| + 128)
      && k < n && r == At((t.cursor + k) % n) && u.cursor == (r.index + 1) % n
      && u.available == t.available + (n - |t.slots|) - 1
      && forall j | 0 <= j < k :: Slot(t.cursor, j, n) < |t.slots| && t.slots[Slot(t.cursor, j, n)] != NULL
  {
    var g := if t.available == 0 then GrowTo(t, |t.slots| + Growth(|t.slots|)) else t;
    NullsGrow(t.slots, Growth(|t.slots|));
    AddFindsSlot(t, obj);
    k := ScanIsFirst(g.slots, g.cursor, 0);
  }

  /** A slot just removed is the next one filled. */
  lemma RemovedIsReused(t: Table, i: nat, obj: Ref)
    requires Fits(t) && i < |t.slots| && obj != NULL
    ensures Shaped(Remove(t, i)) && Add(Remove(t, i), obj).1 == At(i)
  {
    var u := Remove(t, i);
    assert Slot(i, 0, |t.slots|) == i by {
      assert i % |t.slots| == i;
    }
    assert Scan(u.slots, i, 0) == At(i);
  }

  /** The other operations, slot by slot. Updating and removing change one slot, reserving adds free ones at the
      end, finalizing drops those behind the last object and forgets the rest, clearing frees all. */
  lemma OperationsInFull(t: Table, i: int, obj: Ref, capacity: int)
    requires Fits(t)
    ensures
      var u, inside := Update(t, i, obj), 0 <= i < |t.slots|;
      && |u.slots| == |t.slots| && u.cursor == t.cursor && u.available == t.available
      && forall k | 0 <= k < |t.slots| :: u.slots[k] == if k == i then obj else t.slots[k]
    ensures
      var u, inside := Remove(t, i), 0 <= i < |t.slots|;
      && |u.slots| == |t.slots| && u.cursor == (if inside then i else t.cursor)
      && u.available == (if inside then t.available + 1 else t.available)
      && forall k | 0 <= k < |t.slots| :: u.slots[k] == if k == i then NULL else t.slots[k]
    ensures
      var u := Reserve(t, capacity);
      && |u.slots| == (if capacity > |t.slots| then capacity else |t.slots|) && u.cursor == t.cursor
      && u.available == t.available + (|u.slots| - |t.slots|)
      && forall k | 0 <= k < |u.slots| :: u.slots[k] == if k < |t.slots| then t.slots[k] else NULL
    ensures
      var u := Finalize(t);
      && |u.slots| <= |t.slots| && (forall k | 0 <= k < |u.slots| :: u.slots[k] == t.slots[k])
      && (forall k | |u.slots| <= k < |t.slots| :: t.slots[k] == NULL)
      && (t.available > 0 && u.slots != [] ==> u.slots[|u.slots| - 1] != NULL)
      && (if |u.slots| == |t.slots| then u == t
          else t.available > 0 && u.available == 0 && u.cursor == if u.slots == [] then 0 else |u.slots| - 1)
    ensures
      var u := Clear(t);
      && |u.slots| == |t.slots| == u.available && u.cursor == 0
      && forall k | 0 <= k < |u.slots| :: u.slots[k] == NULL
  {
  }

  datatype Op =
    | DoAdd(obj: Ref)
    | DoUpdate(index: int, obj: Ref)
    | DoRemove(index: int)
    | DoReserve(capacity: int)
    | DoFinalize

  function Apply(t: Table, op: Op): Table
    requires Shaped(t)
  {
    match op
    case DoAdd(obj) => Add(t, obj).0
    case DoUpdate(i, obj) => Update(t, i, obj)
    case DoRemove(i) => Remove(t, i)
    case DoReserve(n) => Reserve(t, n)
    case DoFinalize => Finalize(t)
  }

  /** Callers remove and fill only slots that are occupied, unless compaction has left more slots free than
      the count knows of. */
  predicate Sane(t: Table, op: Op) {
    match op
    case DoUpdate(i, obj) =>
      0 <= i < |t.slots| && obj != NULL ==> t.slots[i] != NULL || t.available < Nulls(t.slots)
    case DoRemove(i) => 0 <= i < |t.slots| ==> t.slots[i] != NULL || t.available < Nulls(t.slots)
    case _ => true
  }

  predicate Touches(op: Op, i: int) {
    (op.DoUpdate? || op.DoRemove?) && op.index == i
  }

  ghost predicate SaneRun(t: Table, ops: seq<Op>)
    requires Shaped(t)
    decreases |ops|
  {
    ops == [] || (Sane(t, ops[0]) && Shaped(Apply(t, ops[0])) && SaneRun(Apply(t, ops[0]), ops[1..]))
  }

  ghost function End(t: Table, ops: seq<Op>): Table
    requires Shaped(t) && SaneRun(t, ops)
    decreases |ops|
  {
    if ops == [] then t else End(Apply(t, ops[0]), ops[1..])
  }

  /** An operation leaves the count within the free slots exactly when it is one of those. */
  lemma StepFits(t: Table, op: Op)
    requires Fits(t)
    ensures Fits(Apply(t, op)) <==> Sane(t, op)
  {
    match op
    case DoAdd(obj) =>
      if obj != NULL { AddFindsSlot(t, obj); }
    case DoUpdate(i, obj) =>
      if 0 <= i < |t.slots| { NullsUpdate(t.slots, i, obj); }
    case DoRemove(i) =>
      if 0 <= i < |t.slots| { NullsUpdate(t.slots, i, NULL); }
    case DoReserve(n) =>
      if n > |t.slots| { NullsGrow(t.slots, n - |t.slots|); }
    case DoFinalize =>
  }

  lemma StepStable(t: Table, op: Op, i: nat)
    requires Fits(t) && i < |t.slots| && t.slots[i] != NULL && !Touches(op, i)
    ensures i < |Apply(t, op).slots| && Apply(t, op).slots[i] == t.slots[i]
  {
    if op.DoAdd? && op.obj != NULL {
      AddFindsSlot(t, op.obj);
    }
  }

  /**
    * Through any run of adds, updates, removals, reservations and compactions by such callers, among them
    * all that update and remove only occupied slots, the count stays within the free slots, so adding never runs off its
    * search; and an object stays at its index until that very slot is updated or removed.
    */
  lemma {:induction false} IndexIsStable(t: Table, ops: seq<Op>, i: nat)
    requires Fits(t) && SaneRun(t, ops)
    ensures Fits(End(t, ops))
    ensures i < |t.slots| && t.slots[i] != NULL && (forall k | 0 <= k < |ops| :: !Touches(ops[k], i)) ==>
            i < |End(t, ops).slots| && End(t, ops).slots[i] == t.slots[i]
    decreases |ops|
  {
    if ops != [] {
      StepFits(t, ops[0]);
      if i < |t.slots| && t.slots[i] != NULL && !Touches(ops[0], i) {
        StepStable(t, ops[0], i);
      }
      IndexIsStable(Apply(t, ops[0]), ops[1..], i);
    }
  }

  /** Removing an empty slot breaks this: after removing the same slot of a full table twice, the second
      object added has nowhere to go. */
  lemma RemovedTwice(t: Table, i: nat, a: Ref, b: Ref)
    requires Fits(t) && Nulls(t.slots) == 0 && i < |t.slots| && a != NULL && b != NULL
    ensures
      var u := Remove(Remove(t, i), i);
      Shaped(u) && Shaped(Add(u, a).0) && Add(Add(u, a).0, b).1.Unreachable?
  {
    var u := Remove(Remove(t, i), i);
    NullsPresent(t.slots);
    NullsUpdate(t.slots, i, NULL);
    NullsUpdate(t.slots[i := NULL], i, NULL);
    assert t.slots[i := NULL][i := NULL] == t.slots[i := NULL];
    assert u.slots == t.slots[i := NULL] && Nulls(u.slots) == 1;
    PlaceFinds(u, a);
    var v, r := Place(u, a).0, Place(u, a).1;
    NullsUpdate(u.slots, r.index, a);
    assert Add(u, a) == (v, r);
    UnreachableExactly(v, b);
  }

  lemma ExtentIs(slots: seq<Ref>, n: nat)
    requires n <= |slots| && (n > 0 ==> slots[n - 1] != NULL)
    requires forall i | n <= i < |slots| :: slots[i] == NULL
    ensures Extent(slots) == n
  {
  }
}
