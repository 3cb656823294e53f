/** Jit::MapBootImageMethods: LSPlant shows ART the original entry points while it maps the boot image's
    methods into the JIT zygote, and puts its own back afterwards. */
module MapBootImage {
  import opened Wrappers
  import opened ArtMethods
  import opened HookWorld
  import opened HookInvariants

  // ----- what becomes of one hooked method

  /** About a hooked method and its backup: what ART leaves in the method and in the backup, the entry point
      the backup had before, and the data and the entry point remembered for the method. */
  datatype Facts = Facts(given: Mapped, left: Mapped, current: Address, own: Address, remembered: Address)

  ghost function FactsOf(w: World, art: map<Method, Mapped>, m: Method): Facts
    requires HoldersExist(w) && m in w.hooked
  {
    var b, before := w.hooked[m].backup, BeforeFinish(w, art);
    Facts(Given(w, art, m), Mapped(before.mem[b].data, before.mem[b].entryPoint),
          w.mem[b].entryPoint, w.mem[m].data, Undeoptimized(w)[m].entryPoint)
  }

  // The records of the method `m` and of its backup `b`, when each has been visited or not, and, if both
  // have, when `b` was the first or not.
  ghost predicate Progress(f: Facts, mem: map<Method, Record>, m: Method, b: Method,
                           mDone: bool, bDone: bool, bFirst: bool) {
    && m in mem && b in mem
    && mem[b].data == (if mDone then f.given.data else f.left.data)
    && (mDone ==> mem[m].entryPoint == f.remembered && mem[m].data == DataLeft(f, bFirst))
    && (!mDone ==> mem[m].data == f.given.data && mem[m].entryPoint == f.given.entryPoint)
    && mem[b].entryPoint ==
       (if !mDone then if bDone then f.current else f.left.entryPoint
        else if !bDone || bFirst then f.given.entryPoint
        else f.current)
  }

  // The method gets its own data back when ART left it as its backup was at the visit.
  function DataLeft(f: Facts, bFirst: bool): Address {
    if f.given == Mapped(f.left.data, if bFirst then f.current else f.left.entryPoint) then f.own else f.given.data
  }

  lemma {:induction false} BeforeIn(order: seq<Method>, x: Method, y: Method)
    ensures Before(order, x, y) ==> x in order
    decreases |order|
  {
    if order != [] {
      var front, last := order[..|order| - 1], order[|order| - 1];
      assert order == front + [last];
      BeforeIn(front, x, y);
    }
  }

  /** In an order without repetitions, by index. */
  lemma {:induction false} BeforeMeans(order: seq<Method>, x: Method, y: Method, j: nat)
    requires j < |order| && order[j] == y && forall i, k | 0 <= i < k < |order| :: order[i] != order[k]
    ensures Before(order, x, y) <==> exists i :: 0 <= i < j && order[i] == x
    decreases |order|
  {
    var n := |order| - 1;
    var front := order[..n];
    assert order == front + [order[n]];
    if j == n {
      assert x in front <==> exists i :: 0 <= i < n && front[i] == x;
      assert forall i | 0 <= i < n :: front[i] == order[i];
    } else {
      assert front[j] == y && order[n] != y;
      BeforeMeans(front, x, y, j);
      assert forall i | 0 <= i < j :: front[i] == order[i];
    }
  }

  lemma FinishHooked(mem: map<Method, Record>, s: Remembered, f: Facts, m: Method, b: Method, bDone: bool)
    requires m != b && Progress(f, mem, m, b, false, bDone, false)
    requires s.backup == Some(b) && s.entryPoint == f.remembered && s.data == f.own
    ensures Progress(f, FinishRecords(mem, m, s), m, b, true, bDone, bDone)
  {
  }

  lemma FinishBackup(mem: map<Method, Record>, s: Remembered, f: Facts, m: Method, b: Method, mDone: bool)
    requires m != b && Progress(f, mem, m, b, mDone, false, false)
    requires s.backup == None && s.entryPoint == f.current
    ensures Progress(f, FinishRecords(mem, b, s), m, b, mDone, true, false)
  {
  }


  // The visit of a method leaves those alone that are not its backup.
  lemma FinishLeaves(mem: map<Method, Record>, s: Remembered, visited: Method, m: Method)
    requires visited in mem && m in mem && (s.backup.Some? ==> s.backup.value in mem && s.backup.value != m)
    ensures var after := FinishRecords(mem, visited, s);
            && (m != visited ==> after[m] == mem[m])
            && (m == visited && s.backup.None? ==> after[m] == mem[m].(entryPoint := s.entryPoint))
  {
  }

  lemma FinishOther(mem: map<Method, Record>, s: Remembered, m: Method, b: Method, other: Method)
    requires other != m && other != b && other in mem && m in mem && b in mem
    requires s.backup.Some? ==> s.backup.value in mem && s.backup.value != m && s.backup.value != b
    ensures var after := FinishRecords(mem, other, s); after[m] == mem[m] && after[b] == mem[b]
  {
  }

  // A hooked method shares its backup with no other, and neither is the backup of a third.
  ghost predicate OwnBackup(w: World, m: Method, b: Method) {
    && m in w.hooked && b == w.hooked[m].backup && b in w.deopted && b !in w.hooked
    && forall n | n in w.hooked && n != m :: w.hooked[n].backup != b && w.hooked[n].backup != m
  }

  ghost predicate Reached(f: Facts, mem: map<Method, Record>, m: Method, b: Method, done: seq<Method>) {
    Progress(f, mem, m, b, m in done, b in done, Before(done, b, m))
  }

  lemma FinishOneReaches(w: World, u: World, f: Facts, m: Method, b: Method, front: seq<Method>, last: Method)
    requires HoldersExist(w) && w.deopted.Keys <= w.mem.Keys && u.mem.Keys == w.mem.Keys && OwnBackup(w, m, b)
    requires f.current == w.mem[b].entryPoint && f.remembered == Undeoptimized(w)[m].entryPoint && f.own == w.mem[m].data
    requires last !in front && last in w.hooked.Keys + w.deopted.Keys && Reached(f, u.mem, m, b, front)
    ensures Reached(f, FinishOne(u, RememberedMethods(w), last).mem, m, b, front + [last])
  {
    var saved := RememberedMethods(w);
    var order := front + [last];
    BeforeAppend(front, last, b, m);
    assert (m in order <==> m in front || m == last) && (b in order <==> b in front || b == last);
    BeforeIn(front, b, m);
    if last == m {
      FinishHooked(u.mem, saved[m], f, m, b, b in front);
    } else if last == b {
      FinishBackup(u.mem, saved[b], f, m, b, m in front);
    } else {
      FinishOther(u.mem, saved[last], m, b, last);
    }
  }

  lemma NoneReached(w: World, art: map<Method, Mapped>, m: Method, b: Method)
    requires HoldersExist(w) && OwnBackup(w, m, b)
    ensures Reached(FactsOf(w, art, m), BeforeFinish(w, art).mem, m, b, [])
  {
  }

  lemma {:induction false} AllReach(w: World, art: map<Method, Mapped>, m: Method, b: Method, order: seq<Method>)
    requires HoldersExist(w) && w.deopted.Keys <= w.mem.Keys && OwnBackup(w, m, b)
    requires forall i, j | 0 <= i < j < |order| :: order[i] != order[j]
    requires forall n | n in order :: n in w.hooked.Keys + w.deopted.Keys
    ensures Reached(FactsOf(w, art, m), FinishAll(BeforeFinish(w, art), RememberedMethods(w), order).mem, m, b, order)
    decreases |order|
  {
    if order == [] {
      NoneReached(w, art, m, b);
    } else {
      var front, last := order[..|order| - 1], order[|order| - 1];
      LastElement(order);
      AllReach(w, art, m, b, front);
      var u := FinishAll(BeforeFinish(w, art), RememberedMethods(w), front);
      FinishOneReaches(w, u, FactsOf(w, art, m), m, b, front, last);
    }
  }

  lemma BackupIsOwn(w: World, m: Method)
    requires TablesInverse(w) && w.backups.Keys <= w.deopted.Keys && m in w.hooked
    ensures OwnBackup(w, m, w.hooked[m].backup)
  {
    HoldersApart(w);
    assert w.hooked[m].backup in w.backups;
    assert forall n | n in w.hooked :: w.hooked[n].backup in w.backups;
  }

  // What the backup `b` has when the hooked method `m` is visited.
  ghost function LeftBehind(w: World, art: map<Method, Mapped>, order: seq<Method>, b: Method, m: Method): Mapped
    requires b in w.mem && b in w.deopted
  {
    Mapped(if b in art then art[b].data else w.mem[b].data,
           if Before(order, b, m) then w.mem[b].entryPoint
           else if b in art then art[b].entryPoint
           else w.deopted[b])
  }

  /** What the mapping leaves in a hooked method and in its backup. The live backup is in the deoptimization
      table too, with the entry point it was given when the method was hooked. That entry point is put back
      before the method borrows it, so the result depends on which of the two is visited first. */
  lemma MappingOfHooked(w: World, art: map<Method, Mapped>, order: seq<Method>, m: Method)
    requires Inv(w) && Enumerates(order, w.hooked.Keys + w.deopted.Keys) && m in w.hooked
    ensures var v, b := ApplyMapBootImage(w, art, order), w.hooked[m].backup;
            && m in v.mem && b in v.mem && b in w.mem && b in w.deopted
            && v.mem[m].entryPoint == (if m in w.deopted then w.deopted[m] else w.past.trampolines[m])
            && v.mem[m].data == (if Given(w, art, m) == LeftBehind(w, art, order, b, m) then w.mem[m].data
                                 else Given(w, art, m).data)
            && v.mem[b].data == (if m in art then art[m].data else w.mem[b].data)
            && v.mem[b].entryPoint == if !Before(order, b, m) then w.mem[b].entryPoint
                                      else if m in art then art[m].entryPoint
                                      else w.deopted[b]
  {
    BackupIsOwn(w, m);
    AllReach(w, art, m, w.hooked[m].backup, order);
    assert m in order && w.hooked[m].backup in order;
  }

  /** What it leaves in a method that is neither hooked nor a backup: what ART gave it, except that a
      deoptimized one enters where it did before. */
  lemma MappingOfOther(w: World, art: map<Method, Mapped>, order: seq<Method>, m: Method)
    requires Inv(w) && Enumerates(order, w.hooked.Keys + w.deopted.Keys)
    requires m in w.mem && m !in w.hooked && m !in w.backups
    ensures var v := ApplyMapBootImage(w, art, order);
            && m in v.mem && v.mem[m].data == (if m in art then art[m].data else w.mem[m].data)
            && v.mem[m].entryPoint == (if m in w.deopted || m !in art then w.mem[m].entryPoint else art[m].entryPoint)
  {
    assert forall n | n in w.hooked :: w.hooked[n].backup in w.backups;
    OtherReaches(w, art, m, order);
  }

  lemma {:induction false} OtherReaches(w: World, art: map<Method, Mapped>, m: Method, order: seq<Method>)
    requires HoldersExist(w) && w.deopted.Keys <= w.mem.Keys && m in w.mem && m !in w.hooked
    requires forall n | n in w.hooked :: w.hooked[n].backup != m
    requires forall n | n in order :: n in w.hooked.Keys + w.deopted.Keys
    ensures var before := BeforeFinish(w, art).mem[m];
            var v := FinishAll(BeforeFinish(w, art), RememberedMethods(w), order);
            && v.mem[m].data == before.data
            && v.mem[m].entryPoint == if m in order then w.mem[m].entryPoint else before.entryPoint
    decreases |order|
  {
    if order != [] {
      var front, last := order[..|order| - 1], order[|order| - 1];
      assert order == front + [last];
      OtherReaches(w, art, m, front);
      FinishLeaves(FinishAll(BeforeFinish(w, art), RememberedMethods(w), front).mem, RememberedMethods(w)[last], last, m);
    }
  }

  /** The mapping changes entry points, data, and what the deoptimization table says of its methods. */
  lemma {:induction false} FinishFrame(w: World, u: World, order: seq<Method>)
    requires HoldersExist(w) && w.deopted.Keys <= w.mem.Keys && OnlyPointers(w, u)
    requires forall n | n in order :: n in w.hooked.Keys + w.deopted.Keys
    ensures OnlyPointers(w, FinishAll(u, RememberedMethods(w), order))
    decreases |order|
  {
    if order != [] {
      var front, last := order[..|order| - 1], order[|order| - 1];
      assert forall n | n in front :: n in order;
      assert last in order;
      FinishFrame(w, u, front);
      FinishOneFrame(w, FinishAll(u, RememberedMethods(w), front), last);
    }
  }

  lemma FinishOneFrame(w: World, u: World, m: Method)
    requires HoldersExist(w) && w.deopted.Keys <= w.mem.Keys && OnlyPointers(w, u)
    requires m in w.hooked.Keys + w.deopted.Keys
    ensures OnlyPointers(w, FinishOne(u, RememberedMethods(w), m))
  {
    assert m in u.deopted || RememberedMethods(w)[m].backup.Some?;
  }

  lemma MappingFrame(w: World, art: map<Method, Mapped>, order: seq<Method>)
    requires HoldersExist(w) && w.deopted.Keys <= w.mem.Keys && Enumerates(order, w.hooked.Keys + w.deopted.Keys)
    ensures OnlyPointers(w, ApplyMapBootImage(w, art, order)) && HoldersExist(ApplyMapBootImage(w, art, order))
  {
    FinishFrame(w, BeforeFinish(w, art), order);
  }

  // ----- what the mapping records

  lemma {:induction false} HookedRecorded(w: World, u: World, order: seq<Method>, m: Method)
    requires HoldersExist(w) && w.deopted.Keys <= w.mem.Keys && u.mem.Keys == w.mem.Keys && m in w.hooked && m in u.deopted
    requires forall n | n in order :: n in w.hooked.Keys + w.deopted.Keys
    ensures var v := FinishAll(u, RememberedMethods(w), order); m in v.deopted && v.deopted[m] == u.deopted[m]
    decreases |order|
  {
    if order != [] {
      var front := order[..|order| - 1];
      assert forall n | n in front :: n in order;
      HookedRecorded(w, u, front, m);
    }
  }

  lemma {:induction false} OtherRecorded(w: World, art: map<Method, Mapped>, m: Method, order: seq<Method>)
    requires HoldersExist(w) && w.deopted.Keys <= w.mem.Keys && m in w.deopted && m !in w.hooked
    requires forall n | n in w.hooked :: w.hooked[n].backup != m
    requires forall n | n in order :: n in w.hooked.Keys + w.deopted.Keys
    requires forall i, j | 0 <= i < j < |order| :: order[i] != order[j]
    ensures var before, v := BeforeFinish(w, art).mem[m], FinishAll(BeforeFinish(w, art), RememberedMethods(w), order);
            && m in v.deopted
            && v.deopted[m] == if m in order && before.entryPoint != w.mem[m].entryPoint then before.entryPoint
                               else w.deopted[m]
    decreases |order|
  {
    if order != [] {
      var front, last := order[..|order| - 1], order[|order| - 1];
      LastElement(order);
      OtherRecorded(w, art, m, front);
      OtherReaches(w, art, m, front);
    }
  }

  // What the entry of the backup `b` becomes, which is compared with what it was when `b` is visited.
  ghost function RecordedAs(w: World, f: Facts, m: Method, b: Method, done: seq<Method>): Address
    requires b in w.deopted
  {
    var seen := if Before(done, m, b) then f.given.entryPoint else f.left.entryPoint;
    if b in done && seen != f.current then seen else w.deopted[b]
  }

  lemma {:induction false} BackupRecorded(w: World, art: map<Method, Mapped>, m: Method, b: Method, order: seq<Method>)
    requires HoldersExist(w) && w.deopted.Keys <= w.mem.Keys && OwnBackup(w, m, b)
    requires forall i, j | 0 <= i < j < |order| :: order[i] != order[j]
    requires forall n | n in order :: n in w.hooked.Keys + w.deopted.Keys
    ensures var v := FinishAll(BeforeFinish(w, art), RememberedMethods(w), order);
            b in v.deopted && v.deopted[b] == RecordedAs(w, FactsOf(w, art, m), m, b, order)
    decreases |order|
  {
    if order != [] {
      var front, last := order[..|order| - 1], order[|order| - 1];
      LastElement(order);
      BackupRecorded(w, art, m, b, front);
      AllReach(w, art, m, b, front);
      BackupRecordedOnce(w, FinishAll(BeforeFinish(w, art), RememberedMethods(w), front), FactsOf(w, art, m), m, b, front, last);
      assert order == front + [last];
    }
  }

  lemma BackupRecordedOnce(w: World, u: World, f: Facts, m: Method, b: Method, front: seq<Method>, last: Method)
    requires HoldersExist(w) && w.deopted.Keys <= w.mem.Keys && u.mem.Keys == w.mem.Keys && OwnBackup(w, m, b)
    requires f.current == w.mem[b].entryPoint && last !in front && last in w.hooked.Keys + w.deopted.Keys
    requires Reached(f, u.mem, m, b, front) && b in u.deopted && u.deopted[b] == RecordedAs(w, f, m, b, front)
    ensures var v := FinishOne(u, RememberedMethods(w), last);
            b in v.deopted && v.deopted[b] == RecordedAs(w, f, m, b, front + [last])
  {
    BeforeAppend(front, last, m, b);
    assert b in front + [last] <==> b in front || b == last;
    if last == b {
      assert u.mem[b].entryPoint == if m in front then f.given.entryPoint else f.left.entryPoint;
      VisitRecords(u, RememberedMethods(w), b, w.deopted[b]);
    } else {
      VisitRecords(u, RememberedMethods(w), last, 0);
    }
  }

  lemma BeforeAppend(front: seq<Method>, last: Method, x: Method, y: Method)
    ensures Before(front + [last], x, y) == if last == y then x in front else Before(front, x, y)
  {
    assert (front + [last])[..|front|] == front;
  }

  lemma VisitRecords(u: World, saved: map<Method, Remembered>, m: Method, recorded: Address)
    requires m in saved && m in u.mem && (saved[m].backup.Some? ==> saved[m].backup.value in u.mem)
    ensures var v := FinishOne(u, saved, m);
            && (forall n | n in u.deopted && n != m :: n in v.deopted && v.deopted[n] == u.deopted[n])
            && (saved[m].backup.None? && m in u.deopted && u.deopted[m] == recorded ==>
                  m in v.deopted &&
                  v.deopted[m] == if u.mem[m].entryPoint != saved[m].entryPoint then u.mem[m].entryPoint else recorded)
  {
  }

  /** What the deoptimization table says of a method afterwards. Of a hooked one, what it did. Of any other, the
      entry point that the method had when it was visited, unless that is the one it enters through: then
      what the table said before. A live backup that is visited after its method has what ART gave the
      method; every other method what ART gave it or else what the table said. */
  lemma MappingRecords(w: World, art: map<Method, Mapped>, order: seq<Method>, m: Method)
    requires Inv(w) && Enumerates(order, w.hooked.Keys + w.deopted.Keys) && m in w.deopted
    ensures var v := ApplyMapBootImage(w, art, order);
            && m in v.deopted && m in w.mem
            && (m in w.hooked ==> v.deopted[m] == w.deopted[m])
            && (m !in w.hooked ==>
                  var giver := if m in w.backups && Before(order, w.backups[m], m) then w.backups[m] else m;
                  var seen := if giver in art then art[giver].entryPoint else w.deopted[m];
                  v.deopted[m] == if seen != w.mem[m].entryPoint then seen else w.deopted[m])
  {
    if m in w.hooked {
      HookedRecorded(w, BeforeFinish(w, art), order, m);
    } else if m in w.backups {
      RecordsOfBackup(w, art, order, w.backups[m], m);
    } else {
      RecordsOfOther(w, art, order, m);
    }
  }

  lemma RecordsOfBackup(w: World, art: map<Method, Mapped>, order: seq<Method>, t: Method, b: Method)
    requires TablesInverse(w) && w.backups.Keys <= w.deopted.Keys && HoldersExist(w) && w.deopted.Keys <= w.mem.Keys
    requires Enumerates(order, w.hooked.Keys + w.deopted.Keys) && b in w.backups && w.backups[b] == t
    ensures var v := ApplyMapBootImage(w, art, order);
            var giver := if Before(order, t, b) then t else b;
            var seen := if giver in art then art[giver].entryPoint else w.deopted[b];
            b in v.deopted && v.deopted[b] == if seen != w.mem[b].entryPoint then seen else w.deopted[b]
  {
    BackupIsOwn(w, t);
    BackupRecorded(w, art, t, b, order);
    assert b in order;
  }

  lemma RecordsOfOther(w: World, art: map<Method, Mapped>, order: seq<Method>, m: Method)
    requires TablesInverse(w) && HoldersExist(w) && w.deopted.Keys <= w.mem.Keys
    requires Enumerates(order, w.hooked.Keys + w.deopted.Keys)
    requires m in w.deopted && m !in w.hooked && m !in w.backups
    ensures var v := ApplyMapBootImage(w, art, order);
            var seen := if m in art then art[m].entryPoint else w.deopted[m];
            m in v.deopted && v.deopted[m] == if seen != w.mem[m].entryPoint then seen else w.deopted[m]
  {
    assert forall n | n in w.hooked :: w.hooked[n].backup in w.backups;
    OtherRecorded(w, art, m, order);
    assert m in order;
  }

  // The entry point with which a mapping shows a method to ART.
  function ShownToArt(w: World, m: Method): Address
    requires HoldersExist(w) && m in w.mem
  {
    Unhooked(Undeoptimized(w), w.hooked)[m].entryPoint
  }

  /** The next mapping shows ART, of a deoptimized method that is neither hooked nor a live backup, the code that
      ART gave it in this one, or the same as this one showed when ART gave none or the bridge it runs
      through. A hooked method that no caller deoptimized shows what the table says of its backup. */
  lemma NextMappingShows(w: World, art: map<Method, Mapped>, order: seq<Method>, m: Method)
    requires Inv(w) && Enumerates(order, w.hooked.Keys + w.deopted.Keys) && m in w.deopted
    requires m !in w.hooked && m !in w.backups
    ensures var v := ApplyMapBootImage(w, art, order);
            && HoldersExist(w) && HoldersExist(v) && m in w.mem && m in v.mem
            && ShownToArt(w, m) == w.deopted[m]
            && (m in art && art[m].entryPoint != w.mem[m].entryPoint ==> ShownToArt(v, m) == art[m].entryPoint)
            && (m !in art || art[m].entryPoint == w.mem[m].entryPoint ==> ShownToArt(v, m) == ShownToArt(w, m))
  {
    MappingRecords(w, art, order, m);
    MappingFrame(w, art, order);
  }

  // ----- what the mapping keeps

  /** A hooked method enters through its trampoline again afterwards exactly when the deoptimization table
      says nothing else about it: it is not in it, or was put there while it was already hooked. */
  lemma HookSurvivesMapping(w: World, art: map<Method, Mapped>, order: seq<Method>, m: Method)
    requires Inv(w) && Enumerates(order, w.hooked.Keys + w.deopted.Keys) && m in w.hooked
    ensures var v := ApplyMapBootImage(w, art, order);
            m in v.mem && (v.mem[m].entryPoint == w.past.trampolines[m] <==>
                           m !in w.deopted || w.deopted[m] == w.past.trampolines[m])
  {
    MappingOfHooked(w, art, order, m);
  }

  /** A deoptimized method stays in the interpreter exactly when it is not hooked, or is visited before its
      backup, or had the bridge while the mapping was not yet undone. */
  lemma BridgeSurvivesMapping(w: World, art: map<Method, Mapped>, order: seq<Method>, m: Method)
    requires Inv(w) && Enumerates(order, w.hooked.Keys + w.deopted.Keys) && m in w.past.sunk
    ensures var v := ApplyMapBootImage(w, art, order);
            Holder(v, m) in v.mem && (m in w.hooked ==> w.hooked[m].backup in w.mem) &&
            (Effective(v, m).entryPoint == w.bridge <==>
             (m in w.hooked && Before(order, w.hooked[m].backup, m) ==> Given(w, art, m).entryPoint == w.bridge))
  {
    MappingFrame(w, art, order);
    assert Effective(w, m).entryPoint == w.bridge;
    if m in w.hooked {
      MappingOfHooked(w, art, order, m);
    } else {
      MappingOfOther(w, art, order, m);
    }
  }

  /** Everything that every step keeps is kept by the mapping exactly when `MappingFits`. */
  lemma MappingKeepsExactly(w: World, art: map<Method, Mapped>, order: seq<Method>)
    requires Inv(w) && Enumerates(order, w.hooked.Keys + w.deopted.Keys)
    ensures Inv(ApplyMapBootImage(w, art, order)) <==> MappingFits(w, art, order)
  {
    var v := ApplyMapBootImage(w, art, order);
    MappingFrame(w, art, order);
    OnlyPointersFrame(w, v);
    forall m | m in w.hooked
      ensures v.mem[m].entryPoint == w.past.trampolines[m] <==> m !in w.deopted || w.deopted[m] == w.past.trampolines[m]
    {
      HookSurvivesMapping(w, art, order, m);
    }
    forall m | m in w.past.sunk
      ensures Effective(v, m).entryPoint == w.bridge <==>
              (m in w.hooked && Before(order, w.hooked[m].backup, m) ==> Given(w, art, m).entryPoint == w.bridge)
    {
      BridgeSurvivesMapping(w, art, order, m);
    }
  }

  /** What ART wanted of the entry point of a method that stays `w`'s where ART leaves it alone. */
  function Wanted(w: World, art: map<Method, Mapped>, m: Method): Address
    requires Holder(w, m) in w.mem
  {
    if m in art then art[m].entryPoint else Effective(w, m).entryPoint
  }

  /** What the visiting order must do for ART's wish to reach the backup of a hooked method. */
  ghost predicate OrderFits(w: World, art: map<Method, Mapped>, order: seq<Method>, m: Method)
    requires m in w.hooked && w.hooked[m].backup in w.mem && w.hooked[m].backup in w.deopted
  {
    var b := w.hooked[m].backup;
    if Before(order, b, m) then m in art || w.deopted[b] == w.mem[b].entryPoint
    else m !in art || art[m].entryPoint == w.mem[b].entryPoint
  }

  /** Mapping is transparent for a hooked method exactly when the visiting order and the entry point it had
      when it was hooked happen to fit. Its data always is. */
  lemma MappingTransparentExactly(w: World, art: map<Method, Mapped>, order: seq<Method>, m: Method)
    requires Inv(w) && Enumerates(order, w.hooked.Keys + w.deopted.Keys) && m in w.hooked
    ensures var v, b := ApplyMapBootImage(w, art, order), w.hooked[m].backup;
            && Holder(v, m) in v.mem && b in w.mem && b in w.deopted
            && Effective(v, m).data == (if m in art then art[m].data else w.mem[b].data)
            && (Effective(v, m).entryPoint == Wanted(w, art, m) <==> OrderFits(w, art, order, m))
  {
    MappingOfHooked(w, art, order, m);
    MappingFrame(w, art, order);
  }

  // ----- without knowing the order

  lemma {:induction false} SomeOrder(s: set<Method>) returns (order: seq<Method>)
    ensures Enumerates(order, s)
    decreases s
  {
    if m :| m in s {
      var rest := SomeOrder(s - {m});
      order := rest + [m];
    } else {
      order := [];
    }
  }

  /** Two methods can be visited either way round. */
  lemma OrderWith(s: set<Method>, x: Method, y: Method) returns (order: seq<Method>)
    requires x in s && y in s && x != y
    ensures Enumerates(order, s) && Before(order, x, y) && !Before(order, y, x)
  {
    var rest := SomeOrder(s - {x, y});
    order := rest + [x] + [y];
    assert order[..|order| - 1] == rest + [x];
    assert (rest + [x])[..|rest + [x]| - 1] == rest;
  }

  /** Whatever the visiting order, mapping is transparent for a hooked method exactly when the entry point
      that the method has under ART, the one ART gives it or else the one recorded for its backup, is the
      one its backup has now. */
  lemma TransparentInEveryOrder(w: World, art: map<Method, Mapped>, m: Method)
    requires Inv(w) && m in w.hooked
    ensures w.hooked[m].backup in w.mem
    ensures (forall order | Enumerates(order, w.hooked.Keys + w.deopted.Keys) ::
               var v := ApplyMapBootImage(w, art, order);
               Holder(v, m) in v.mem && Effective(v, m).entryPoint == Wanted(w, art, m)) <==>
            Given(w, art, m).entryPoint == w.mem[w.hooked[m].backup].entryPoint
  {
    var s, b := w.hooked.Keys + w.deopted.Keys, w.hooked[m].backup;
    BackupIsOwn(w, m);
    forall order | Enumerates(order, s)
      ensures var v := ApplyMapBootImage(w, art, order);
              && Holder(v, m) in v.mem
              && (Effective(v, m).entryPoint == Wanted(w, art, m) <==> OrderFits(w, art, order, m))
    {
      MappingTransparentExactly(w, art, order, m);
    }
    var first := OrderWith(s, b, m);
    var second := OrderWith(s, m, b);
    assert Enumerates(first, s) && Enumerates(second, s);
  }

  /** Whatever the visiting order, a hooked method that was deoptimized stays in the interpreter exactly when
      the entry point it has under ART is the bridge. */
  lemma BridgeInEveryOrder(w: World, art: map<Method, Mapped>, m: Method)
    requires Inv(w) && m in w.hooked && m in w.past.sunk
    ensures w.hooked[m].backup in w.mem
    ensures (forall order | Enumerates(order, w.hooked.Keys + w.deopted.Keys) ::
               var v := ApplyMapBootImage(w, art, order);
               Holder(v, m) in v.mem && Effective(v, m).entryPoint == w.bridge) <==>
            Given(w, art, m).entryPoint == w.bridge
  {
    var s, b := w.hooked.Keys + w.deopted.Keys, w.hooked[m].backup;
    BackupIsOwn(w, m);
    forall order | Enumerates(order, s)
      ensures var v := ApplyMapBootImage(w, art, order);
              && Holder(v, m) in v.mem
              && (Effective(v, m).entryPoint == w.bridge <==>
                  (Before(order, b, m) ==> Given(w, art, m).entryPoint == w.bridge))
    {
      BridgeSurvivesMapping(w, art, order, m);
    }
    var first := OrderWith(s, b, m);
    assert Enumerates(first, s);
  }
}
