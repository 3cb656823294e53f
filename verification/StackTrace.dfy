/**
  * Rewriting the backtrace of a throwable: hidden frames disappear and a frame of a backup shows the
  * method it backs up. A backtrace is an array of objects; the first is an array of pointers, methods in
  * its first half and dex pcs in its second, the others are the objects of the frames.
  */
module StackTrace {
  import opened ObjectTable
  import opened ObjectList

  type Method = int

  datatype Frame = Frame(code: Method, pc: int, obj: Ref)

  /** The hidden methods, the targets of the live backups, which methods are native, and whether pointers have
      64 bits. */
  datatype Hooks = Hooks(hidden: set<Method>, targets: map<Method, Method>, native: set<Method>, wide: bool)

  // The dex pc of a native method, a 32-bit -2, as a pointer-sized integer.
  function NativePc(wide: bool): int {
    if wide then 0x1_0000_0000 - 2 else -2
  }

  datatype Trace = Unchanged | Rewritten(objects: seq<Ref>, pointers: seq<int>)

  function FrameAt(pointers: seq<int>, objects: seq<Ref>, i: nat): Frame
    requires i < |objects| && 2 * |objects| <= |pointers|
  {
    Frame(pointers[i], pointers[|objects| + i], objects[i])
  }

  /** How a frame shows. */
  function Mapped(h: Hooks, f: Frame): Frame {
    if f.code in h.targets then
      Frame(h.targets[f.code], if f.code in h.native then NativePc(h.wide) else f.pc, f.obj)
    else f
  }

  /** The frames that show, from the first n of the original, in order. */
  function Shown(h: Hooks, pointers: seq<int>, objects: seq<Ref>, n: nat): (s: seq<Frame>)
    requires n <= |objects| && 2 * |objects| <= |pointers|
    ensures |s| <= n
  {
    if n == 0 then []
    else
      var f := FrameAt(pointers, objects, n - 1);
      var before := Shown(h, pointers, objects, n - 1);
      if f.code in h.hidden then before else before + [Mapped(h, f)]
  }

  function Methods(s: seq<Frame>): seq<int> { seq(|s|, i requires 0 <= i < |s| => s[i].code) }

  function Pcs(s: seq<Frame>): seq<int> { seq(|s|, i requires 0 <= i < |s| => s[i].pc) }

  /** The frame objects as the list keeps them: null is not added. */
  function Objects(s: seq<Frame>): (r: seq<Ref>)
    ensures |r| <= |s|
  {
    if s == [] then []
    else
      var before := Objects(s[..|s| - 1]);
      if s[|s| - 1].obj == NULL then before else before + [s[|s| - 1].obj]
  }

  /** A list filled from the front. */
  ghost predicate Filled(t: Table, placed: seq<Ref>, size: nat) {
    && |placed| <= size && size > 0 && NULL !in placed
    && t.slots == placed + Blank(size - |placed|)
    && t.cursor == (if |placed| == size then 0 else |placed|) && t.available == size - |placed|
  }

  lemma Wraps(i: nat, size: nat)
    requires i <= size && size > 0
    ensures i % size == if i == size then 0 else i
  {
  }

  lemma FillNext(t: Table, placed: seq<Ref>, size: nat, obj: Ref)
    requires Filled(t, placed, size) && |placed| < size && obj != NULL
    ensures Shaped(t) && Filled(Add(t, obj).0, placed + [obj], size)
  {
    var i := |placed|;
    Wraps(i + 1, size);
    Wraps(i, size);
    assert Slot(i, 0, size) == i && t.slots[i] == NULL;
    assert Scan(t.slots, i, 0) == At(i);
    assert t.slots[i := obj] == (placed + [obj]) + Blank(size - i - 1);
  }

  lemma FillDone(t: Table, placed: seq<Ref>, size: nat)
    requires Filled(t, placed, size) && placed != []
    ensures Finalize(t).slots == placed
  {
    ExtentIs(t.slots, |placed|);
    assert t.slots[..|placed|] == placed;
  }

  lemma ObjectsAppend(s: seq<Frame>, f: Frame)
    ensures Objects(s + [f]) == if f.obj == NULL then Objects(s) else Objects(s) + [f.obj]
  {
    assert (s + [f])[..|s|] == s;
  }

  // Adds the object of one more frame to a list that holds `first` and the objects of s.
  method AddObject(list: JBasicObjectList, first: Ref, ghost s: seq<Frame>, ghost f: Frame, obj: Ref, ghost size: nat)
    requires list.Valid() && obj == f.obj && |s| + 1 < size
    requires Filled(list.Value(), [first] + Objects(s), size)
    modifies list, list.objects
    ensures list.Valid() && (list.objects == old(list.objects) || fresh(list.objects))
    ensures Filled(list.Value(), [first] + Objects(s + [f]), size)
  {
    ObjectsAppend(s, f);
    if obj != NULL {
      FillNext(list.Value(), [first] + Objects(s), size, obj);
      assert ([first] + Objects(s)) + [obj] == [first] + (Objects(s) + [obj]);
    }
    var _ := list.Add(obj);
  }

  function Pairs(s: seq<Frame>): seq<(Method, int)> { seq(|s|, i requires 0 <= i < |s| => (s[i].code, s[i].pc)) }

  lemma PairsAppend(s: seq<Frame>, f: Frame)
    ensures Pairs(s + [f]) == Pairs(s) + [(f.code, f.pc)]
  {
  }

  // Methods in the first half, dex pcs in the second.
  method PointerArray(kept: seq<(Method, int)>) returns (pointers: array<int>)
    ensures fresh(pointers)
    ensures pointers[..] == seq(|kept|, i requires 0 <= i < |kept| => kept[i].0) +
                            seq(|kept|, i requires 0 <= i < |kept| => kept[i].1)
  {
    var n := |kept|;
    pointers := new int[2 * n](_ => 0);
    for i := 0 to n
      invariant forall k | 0 <= k < i :: pointers[k] == kept[k].0
      invariant forall k | n <= k < n + i :: pointers[k] == kept[k - n].1
    {
      pointers[i] := kept[i].0;
      pointers[n + i] := kept[i].1;
    }
  }

  method Start(count: nat, first: Ref) returns (list: JBasicObjectList)
    requires first != NULL
    ensures fresh(list) && list.Valid() && list.objects != null && fresh(list.objects)
    ensures Filled(list.Value(), [first] + Objects([]), count + 1)
  {
    list := new JBasicObjectList();
    list.Reserve(count + 1);
    FillNext(list.Value(), [], count + 1, first);
    var _ := list.Add(first);
    assert [] + [first] == [first] + Objects([]);
  }

  method Finish(list: JBasicObjectList, first: Ref, newArray: Ref, ghost s: seq<Frame>, ghost count: nat)
    returns (all: seq<Ref>)
    requires list.Valid() && newArray != NULL && |s| <= count
    requires Filled(list.Value(), [first] + Objects(s), count + 1)
    modifies list, list.objects
    ensures all == [newArray] + Objects(s)
  {
    assert list.Value().slots[0 := newArray] == ([newArray] + Objects(s)) + Blank(count - |Objects(s)|);
    list.Update(0, newArray);
    FillDone(list.Value(), [newArray] + Objects(s), count + 1);
    list.Finalize();
    all := list.objects[..];
  }

  method MapFrame(h: Hooks, owner: Method, dexPc: int, ghost obj: Ref) returns (code: Method, pc: int)
    ensures Frame(code, pc, obj) == Mapped(h, Frame(owner, dexPc, obj))
  {
    code, pc := owner, dexPc;
    if code in h.targets {
      if code in h.native {
        pc := NativePc(h.wide);
      }
      code := h.targets[code];
    }
  }

  // ----- the new backtrace in terms of the old one

  /** `rows` lists the members of s in order. */
  ghost predicate Lists(rows: seq<nat>, s: set<nat>) {
    && (forall i, j | 0 <= i < j < |rows| :: rows[i] < rows[j])
    && (forall k :: k in s <==> k in rows)
  }

  ghost function Visible(h: Hooks, pointers: seq<int>, n: nat): set<nat>
    requires n <= |pointers|
  {
    set k | 0 <= k < n && pointers[k] !in h.hidden
  }

  ghost function WithObject(h: Hooks, pointers: seq<int>, objects: seq<Ref>, n: nat): set<nat>
    requires n <= |pointers| && n <= |objects|
  {
    set k | 0 <= k < n && pointers[k] !in h.hidden && objects[k] != NULL
  }

  /** `rows` are the frames of methods that are not hidden, `kept` those among them that have an object. A
      backup shows as its target, a native one with the dex pc of native methods; the rest of a frame is as
      it was. */
  ghost predicate Shows(h: Hooks, pointers: seq<int>, objects: seq<Ref>, newArray: Ref, rows: seq<nat>, kept: seq<nat>,
                        all: seq<Ref>, rewritten: seq<int>) {
    var count := |objects|;
    && 2 * count <= |pointers|
    && Lists(rows, Visible(h, pointers, count)) && Lists(kept, WithObject(h, pointers, objects, count))
    && |rewritten| == 2 * |rows| && |all| == 1 + |kept| && all[0] == newArray
    && (forall i | 0 <= i < |rows| ::
          rows[i] in Visible(h, pointers, count) &&
          MethodShows(h, pointers, rows[i], rewritten[i]) && PcShows(h, pointers, count, rows[i], rewritten[|rows| + i]))
    && forall i | 0 <= i < |kept| :: kept[i] < count && all[1 + i] == objects[kept[i]]
  }

  predicate MethodShows(h: Hooks, pointers: seq<int>, row: nat, shown: Method)
    requires row < |pointers|
  {
    var owner := pointers[row];
    shown == if owner in h.targets then h.targets[owner] else owner
  }

  predicate PcShows(h: Hooks, pointers: seq<int>, count: nat, row: nat, shown: int)
    requires row < |pointers| && count + row < |pointers|
  {
    var owner := pointers[row];
    shown == if owner in h.targets && owner in h.native then if h.wide then 4294967294 else -2
             else pointers[count + row]
  }

  lemma ListsOneMore(rows: seq<nat>, s: set<nat>, n: nat)
    requires Lists(rows, s) && forall k | k in s :: k < n
    ensures Lists(rows + [n], s + {n})
  {
    assert forall i | 0 <= i < |rows| :: rows[i] in s;
  }

  lemma ListsFront(rows: seq<nat>, s: set<nat>)
    requires Lists(rows, s) && rows != []
    ensures
      var n := |rows| - 1;
      && rows == rows[..n] + [rows[n]] && rows[n] in s && Lists(rows[..n], s - {rows[n]})
      && forall k | k in s :: k <= rows[n]
  {
    var n := |rows| - 1;
    assert rows == rows[..n] + [rows[n]];
    assert rows[n] !in rows[..n];
  }

  lemma {:induction false} ListsSize(rows: seq<nat>, s: set<nat>)
    requires Lists(rows, s)
    ensures |rows| == |s|
  {
    if rows == [] {
      assert s == {};
    } else {
      ListsFront(rows, s);
      ListsSize(rows[..|rows| - 1], s - {rows[|rows| - 1]});
    }
  }

  lemma {:induction false} ListsUnique(a: seq<nat>, b: seq<nat>, s: set<nat>)
    requires Lists(a, s) && Lists(b, s)
    ensures a == b
  {
    ListsSize(a, s);
    ListsSize(b, s);
    if a != [] {
      var n := |a| - 1;
      ListsFront(a, s);
      ListsFront(b, s);
      ListsUnique(a[..n], b[..n], s - {a[n]});
    }
  }

  /** The frames that show are those of methods that are not hidden, all of them, in order. */
  lemma {:induction false} ShownFrames(h: Hooks, pointers: seq<int>, objects: seq<Ref>, n: nat) returns (rows: seq<nat>)
    requires n <= |objects| && 2 * |objects| <= |pointers|
    ensures
      var s := Shown(h, pointers, objects, n);
      && |rows| == |s| && Lists(rows, Visible(h, pointers, n))
      && forall i | 0 <= i < |s| :: rows[i] < n && s[i] == Mapped(h, FrameAt(pointers, objects, rows[i]))
  {
    rows := [];
    if n > 0 {
      rows := ShownFrames(h, pointers, objects, n - 1);
      if pointers[n - 1] !in h.hidden {
        ListsOneMore(rows, Visible(h, pointers, n - 1), n - 1);
        rows := rows + [n - 1];
        assert Visible(h, pointers, n) == Visible(h, pointers, n - 1) + {n - 1};
      } else {
        assert Visible(h, pointers, n) == Visible(h, pointers, n - 1);
      }
    }
  }

  lemma {:induction false} ShownObjects(h: Hooks, pointers: seq<int>, objects: seq<Ref>, n: nat) returns (kept: seq<nat>)
    requires n <= |objects| && 2 * |objects| <= |pointers|
    ensures
      var s := Shown(h, pointers, objects, n);
      && |kept| == |Objects(s)| && Lists(kept, WithObject(h, pointers, objects, n))
      && forall i | 0 <= i < |kept| :: kept[i] < n && Objects(s)[i] == objects[kept[i]]
  {
    kept := [];
    if n > 0 {
      var k := n - 1;
      kept := ShownObjects(h, pointers, objects, k);
      var before, s := WithObject(h, pointers, objects, k), Shown(h, pointers, objects, k);
      ShownNext(h, pointers, objects, k);
      if pointers[k] !in h.hidden {
        ObjectsAppend(s, Mapped(h, Frame(pointers[k], pointers[|objects| + k], objects[k])));
      }
      if pointers[k] !in h.hidden && objects[k] != NULL {
        ListsOneMore(kept, before, k);
        kept := kept + [k];
        assert WithObject(h, pointers, objects, n) == before + {k};
      } else {
        assert WithObject(h, pointers, objects, n) == before;
      }
    }
  }

  lemma ShownShows(h: Hooks, pointers: seq<int>, objects: seq<Ref>, newArray: Ref) returns (rows: seq<nat>, kept: seq<nat>)
    requires 2 * |objects| <= |pointers|
    ensures var s := Shown(h, pointers, objects, |objects|);
            Shows(h, pointers, objects, newArray, rows, kept, [newArray] + Objects(s), Methods(s) + Pcs(s))
  {
    rows := ShownFrames(h, pointers, objects, |objects|);
    kept := ShownObjects(h, pointers, objects, |objects|);
    var s, count := Shown(h, pointers, objects, |objects|), |objects|;
    var all, rewritten := [newArray] + Objects(s), Methods(s) + Pcs(s);
    assert |rewritten| == 2 * |rows|;
    forall i | 0 <= i < |rows|
      ensures rows[i] in Visible(h, pointers, count) && MethodShows(h, pointers, rows[i], rewritten[i])
      ensures PcShows(h, pointers, count, rows[i], rewritten[|rows| + i])
    {
      assert rewritten[i] == s[i].code && rewritten[|rows| + i] == s[i].pc;
    }
    assert forall i | 0 <= i < |kept| :: all[1 + i] == Objects(s)[i];
  }

  /** The new backtrace, as the rows of the old one that show. */
  method FillInStackTrace(h: Hooks, pointers: seq<int>, pointerArray: Ref, objects: seq<Ref>, newArray: Ref)
    returns (r: Trace)
    requires pointerArray != NULL && newArray != NULL
    ensures
      if |objects| == 0 || |pointers| / 2 != |objects| then r == Unchanged
      else r.Rewritten? && exists rows, kept :: Shows(h, pointers, objects, newArray, rows, kept, r.objects, r.pointers)
  {
    r := Unchanged;
    if |objects| != 0 && |pointers| / 2 == |objects| {
      r := Rewrite(h, pointers, pointerArray, objects, newArray);
      ghost var rows, kept := ShownShows(h, pointers, objects, newArray);
    }
  }

  method KeepFrame(h: Hooks, list: JBasicObjectList, first: Ref, owner: Method, dexPc: int, obj: Ref,
                   kept: seq<(Method, int)>, ghost s: seq<Frame>, ghost count: nat)
    returns (more: seq<(Method, int)>, ghost t: seq<Frame>)
    requires list.Valid() && |s| < count && kept == Pairs(s)
    requires Filled(list.Value(), [first] + Objects(s), count + 1)
    modifies list, list.objects
    ensures list.Valid() && (list.objects == old(list.objects) || fresh(list.objects))
    ensures t == s + [Mapped(h, Frame(owner, dexPc, obj))] && more == Pairs(t)
    ensures Filled(list.Value(), [first] + Objects(t), count + 1)
  {
    var code, pc := MapFrame(h, owner, dexPc, obj);
    t := s + [Frame(code, pc, obj)];
    PairsAppend(s, Frame(code, pc, obj));
    more := kept + [(code, pc)];
    AddObject(list, first, s, Frame(code, pc, obj), obj, count + 1);
  }

  method Assemble(list: JBasicObjectList, kept: seq<(Method, int)>, first: Ref, newArray: Ref, ghost s: seq<Frame>,
                  ghost count: nat)
    returns (r: Trace)
    requires list.Valid() && newArray != NULL && |s| <= count && kept == Pairs(s)
    requires Filled(list.Value(), [first] + Objects(s), count + 1)
    modifies list, list.objects
    ensures r == Rewritten([newArray] + Objects(s), Methods(s) + Pcs(s))
  {
    var rewritten := PointerArray(kept);
    assert rewritten[..] == Methods(s) + Pcs(s);
    var all := Finish(list, first, newArray, s, count);
    r := Rewritten(all, rewritten[..]);
  }

  lemma ShownNext(h: Hooks, pointers: seq<int>, objects: seq<Ref>, i: nat)
    requires i < |objects| && 2 * |objects| <= |pointers|
    ensures
      var s := Shown(h, pointers, objects, i);
      && |s| <= i < |pointers| && |objects| + i < |pointers|
      && Shown(h, pointers, objects, i + 1) ==
         if pointers[i] in h.hidden then s
         else s + [Mapped(h, Frame(pointers[i], pointers[|objects| + i], objects[i]))]
  {
  }

  method Rewrite(h: Hooks, pointers: seq<int>, pointerArray: Ref, objects: seq<Ref>, newArray: Ref) returns (r: Trace)
    requires pointerArray != NULL && newArray != NULL && |objects| > 0 && 2 * |objects| <= |pointers|
    ensures
      var s := Shown(h, pointers, objects, |objects|);
      r == Rewritten([newArray] + Objects(s), Methods(s) + Pcs(s))
  {
    var list := Start(|objects|, pointerArray);
    var kept := KeepFrames(h, pointers, pointerArray, objects, list);
    r := Assemble(list, kept, pointerArray, newArray, Shown(h, pointers, objects, |objects|), |objects|);
  }

  method KeepFrames(h: Hooks, pointers: seq<int>, first: Ref, objects: seq<Ref>, list: JBasicObjectList)
    returns (kept: seq<(Method, int)>)
    requires 2 * |objects| <= |pointers| && list.Valid()
    requires Filled(list.Value(), [first] + Objects([]), |objects| + 1)
    modifies list, list.objects
    ensures list.Valid() && (list.objects == old(list.objects) || fresh(list.objects))
    ensures
      var s := Shown(h, pointers, objects, |objects|);
      kept == Pairs(s) && Filled(list.Value(), [first] + Objects(s), |objects| + 1)
  {
    var count := |objects|;
    kept := [];
    ghost var s: seq<Frame> := [];
    for i := 0 to count
      invariant list.Valid() && (list.objects == old(list.objects) || fresh(list.objects))
      invariant s == Shown(h, pointers, objects, i) && kept == Pairs(s)
      invariant Filled(list.Value(), [first] + Objects(s), count + 1)
    {
      ShownNext(h, pointers, objects, i);
      if pointers[i] in h.hidden {
        continue;
      }
      kept, s := KeepFrame(h, list, first, pointers[i], pointers[count + i], objects[i], kept, s, count);
    }
  }

  /** The objects of the new backtrace belong to its methods and dex pcs, index by index, exactly when no
      frame that shows lacks its object. */
  lemma AlignedExactly(h: Hooks, pointers: seq<int>, objects: seq<Ref>, newArray: Ref, rows: seq<nat>, kept: seq<nat>,
                       all: seq<Ref>, rewritten: seq<int>)
    requires Shows(h, pointers, objects, newArray, rows, kept, all, rewritten)
    ensures forall i | 0 <= i < |rows| :: rows[i] < |objects|
    ensures |kept| == |rows| <==> forall i | 0 <= i < |rows| :: objects[rows[i]] != NULL
    ensures |kept| == |rows| ==> kept == rows
  {
    var visible, whole := Visible(h, pointers, |objects|), WithObject(h, pointers, objects, |objects|);
    ListsSize(rows, visible);
    ListsSize(kept, whole);
    assert forall i | 0 <= i < |rows| :: rows[i] in visible;
    assert whole <= visible;
    if |kept| == |rows| {
      SameSize(whole, visible);
      ListsUnique(kept, rows, visible);
    } else {
      assert whole != visible;
    }
  }

  lemma SameSize(a: set<nat>, b: set<nat>)
    requires a <= b && |a| == |b|
    ensures a == b
  {
    assert |b - a| == |b| - |a|;
  }
}
