/** What every step keeps about the tables, the trampolines, the deoptimized methods and the entry points
    saved while a class is being initialized. */
module HookInvariants {
  import opened ArtMethods
  import opened HookWorld

  // hooked_methods_ and backuped_methods_ are inverse to each other, with disjoint domains.
  ghost predicate TablesInverse(w: World) {
    && (forall m | m in w.hooked :: w.hooked[m].backup in w.backups && w.backups[w.hooked[m].backup] == m)
    && (forall b | b in w.backups :: w.backups[b] in w.hooked && w.hooked[w.backups[b]].backup == b)
    && w.hooked.Keys !! w.backups.Keys
    && w.proxies <= w.backups.Keys
  }

  // `classes` is the set `members` grouped by declaring class, without empty groups.
  ghost predicate Grouped(classes: map<ClassDef, set<Method>>, members: set<Method>, mem: map<Method, Record>)
    requires members <= mem.Keys
  {
    && (forall c | c in classes :: classes[c] != {})
    && (forall c, m | c in classes && m in classes[c] :: m in members && mem[m].declaringClass == c)
    && (forall m | m in members :: mem[m].declaringClass in classes && m in classes[mem[m].declaringClass])
  }

  ghost predicate Exist(w: World) {
    && w.hooked.Keys <= w.mem.Keys
    && w.backups.Keys <= w.past.generated <= w.mem.Keys
    && w.deopted.Keys <= w.mem.Keys
    && w.past.sunk <= w.mem.Keys
  }

  ghost predicate Tables(w: World) {
    && Exist(w)
    && TablesInverse(w)
    && Grouped(w.hookedClasses, w.hooked.Keys, w.mem)
    && w.backups.Keys <= w.deopted.Keys
    && (forall b | b in w.backups :: w.mem[b].declaringClass == w.mem[w.backups[b]].declaringClass)
  }

  // Every trampoline is used by one method only.
  ghost predicate TrampolinesApart(w: World) {
    && w.past.trampolines.Keys == w.hooked.Keys
    && w.past.trampolines.Values <= w.past.issued
    && 0 !in w.past.issued
    && (forall m, n | m in w.hooked && n in w.hooked && m != n ::
          w.past.trampolines[m] != w.past.trampolines[n])
  }

  // The entry point of a hooked method is its own trampoline.
  ghost predicate HooksInPlace(w: World)
    requires w.past.trampolines.Keys == w.hooked.Keys <= w.mem.Keys
  {
    forall m | m in w.hooked :: w.mem[m].entryPoint == w.past.trampolines[m]
  }

  // The groups of deoptimized methods hold nothing else.
  ghost predicate DeoptGroupsFit(w: World)
    requires Exist(w)
  {
    forall c, m | c in w.deoptClasses && m in w.deoptClasses[c] ::
      && m in w.deopted
      && (c !in w.past.hookerClasses ==> w.mem[m].declaringClass == c)
      && (c !in w.past.hookerClasses && m in w.backups ==> w.backups[m] in w.past.tainted)
  }

  ghost predicate DeoptsRecorded(w: World)
    requires Exist(w)
  {
    && DeoptGroupsFit(w)
    && (forall m | m in w.deopted && m !in w.past.generated ::
          && m in w.past.tainted
          && w.mem[m].declaringClass in w.deoptClasses
          && m in w.deoptClasses[w.mem[m].declaringClass])
    && w.past.sunk <= w.deopted.Keys
    && w.past.sunk !! w.backups.Keys
  }

  // A deoptimized method runs in the interpreter, except while its restoration is still to come.
  ghost predicate SunkExcept(w: World, todo: set<Method>)
    requires HoldersExist(w) && w.past.sunk <= w.mem.Keys
  {
    forall m | m in w.past.sunk && (m in w.hooked || m !in todo) :: Effective(w, m).entryPoint == w.bridge
  }

  ghost predicate EntryFits(w: World, c: ClassDef, m: Method, entry: Address)
    requires w.past.trampolines.Keys == w.hooked.Keys
  {
    && m in w.mem && w.mem[m].declaringClass == c
    && (m in w.hooked ==> entry == w.past.trampolines[m])
    && (m !in w.hooked ==> m in w.deopted)
    && (m !in w.hooked && m in w.past.sunk ==> entry == w.bridge)
    && (m in w.backups ==> w.backups[m] in w.past.tainted)
    && (m in w.backups && w.backups[m] in w.past.sunk ==> entry == w.bridge)
  }

  ghost predicate PendingFits(w: World)
    requires w.past.trampolines.Keys == w.hooked.Keys
  {
    && (forall t, c | t in w.pending && c in w.pending[t] :: c in w.past.window && w.past.window[c] == t)
    && (forall t, c, m | t in w.pending && c in w.pending[t] && m in w.pending[t][c] ::
          EntryFits(w, c, m, w.pending[t][c][m]))
    && (forall c | c in w.past.window :: c !in w.past.hookerClasses && c != 0)
  }

  // The static methods of a class in its window are all saved.
  ghost predicate PendingCovers(w: World)
    requires Exist(w)
  {
    forall m | m in w.hooked.Keys + w.deopted.Keys && m !in w.past.generated && w.mem[m].IsStatic()
               && w.mem[m].declaringClass in w.past.window ::
      Savedly(w, m)
  }

  ghost predicate Frame(w: World) {
    Tables(w) && TrampolinesApart(w) && DeoptsRecorded(w) && PendingFits(w) && PendingCovers(w)
  }

  /** The invariant of every reachable state. */
  ghost predicate Inv(w: World) {
    Frame(w) && HooksInPlace(w) && SunkExcept(w, {})
  }

  /** What LSPlant relies on: nothing is hooked, unhooked or deoptimized in a class between its becoming
      initialized and its fixup; code that ART installs is never a trampoline; ART binds no native code to
      a live backup; generated classes are initialized from the start; a class is initialized once, and
      its fixup rewrites static methods of its own only; the boot image is mapped while no hooked method is
      deoptimized, or none for which it matters. */
  ghost predicate Allowed(w: World, e: Event) {
    && Known(w, e)
    && match e
       case Hook(target, _, _, hookRecord, trampoline, _) =>
         && trampoline !in w.past.issued
         && w.mem[target].declaringClass !in w.past.window
         && hookRecord.declaringClass !in w.past.window
       case UnHook(m) => w.mem[m].declaringClass !in w.past.window
       case Deoptimize(m) => w.mem[m].declaringClass !in w.past.window
       case UpdateCode(_, code) => code !in w.past.issued
       case UpdateToInterpreter(_, entry) => entry !in w.past.issued
       case InitializeCode(_, code, entry) => code !in w.past.issued && entry !in w.past.issued
       case SetNative(m, _) => m !in w.backups
       case SetInitialized(c, _) => c !in w.past.window && c !in w.past.hookerClasses
       case Fixup(c, self, writes, _) => WritesFit(w, c, self, writes)
       case MapMethods(art, order) => HoldersExist(w) && MappingFits(w, art, order)
  }

  // A fixup relinks static methods of the classes whose windows it closes.
  ghost predicate WritesFit(w: World, c: ClassDef, self: Thread, writes: map<Method, Address>) {
    forall m | m in writes ::
      && m in w.mem && m !in w.past.generated && w.mem[m].IsStatic()
      && w.mem[m].declaringClass in Closed(w, c, self)
      && writes[m] !in w.past.issued
  }

  // What the mapping of the boot image needs of the hooked methods that are deoptimized; nothing when there
  // are none. Such a method was deoptimized after it was hooked, and what it has while the mapping is not
  // yet undone is the bridge, unless it is visited before its backup.
  ghost predicate MappingFits(w: World, art: map<Method, Mapped>, order: seq<Method>)
    requires HoldersExist(w)
  {
    forall m | m in w.hooked && m in w.deopted ::
      && m in w.past.trampolines && w.deopted[m] == w.past.trampolines[m]
      && (m in w.past.sunk && Before(order, w.hooked[m].backup, m) ==> Given(w, art, m).entryPoint == w.bridge)
  }

  // ----- steps outside every window

  // The tables say the same about `m` in both states.
  ghost predicate SameStatus(w: World, v: World, m: Method)
    requires m in w.mem
  {
    && m in v.mem
    && v.mem[m].declaringClass == w.mem[m].declaringClass
    && v.mem[m].IsStatic() == w.mem[m].IsStatic()
    && (m in v.hooked <==> m in w.hooked)
    && (m in v.deopted <==> m in w.deopted)
    && (m in v.past.sunk <==> m in w.past.sunk)
    && (m in v.backups <==> m in w.backups)
    && (m in v.past.generated <==> m in w.past.generated)
  }

  ghost predicate SameLinks(w: World, v: World, m: Method) {
    && (m in w.hooked ==>
          m in w.past.trampolines && m in v.past.trampolines && v.past.trampolines[m] == w.past.trampolines[m])
    && (m in w.backups ==>
          && m in v.backups && v.backups[m] == w.backups[m]
          && (w.backups[m] in w.past.tainted ==> w.backups[m] in v.past.tainted)
          && (w.backups[m] in v.past.sunk ==> w.backups[m] in w.past.sunk))
  }

  lemma OutsideWindow(w: World, v: World)
    requires Exist(w) && Exist(v)
    requires w.past.trampolines.Keys == w.hooked.Keys && v.past.trampolines.Keys == v.hooked.Keys
    requires PendingFits(w) && PendingCovers(w)
    requires v.pending == w.pending && v.past.window == w.past.window && v.bridge == w.bridge
    requires forall c | c in w.past.window :: c !in v.past.hookerClasses
    requires forall m | m in w.mem && w.mem[m].declaringClass in w.past.window ::
               SameStatus(w, v, m) && SameLinks(w, v, m)
    requires forall m | m in v.hooked.Keys + v.deopted.Keys && m !in v.past.generated :: m in w.mem
    requires forall m | m in w.mem :: m in v.mem && v.mem[m].declaringClass == w.mem[m].declaringClass
    ensures PendingFits(v) && PendingCovers(v)
  {
    forall t, c, m | t in v.pending && c in v.pending[t] && m in v.pending[t][c]
      ensures EntryFits(v, c, m, v.pending[t][c][m])
    {
      assert EntryFits(w, c, m, w.pending[t][c][m]);
      assert SameStatus(w, v, m) && SameLinks(w, v, m);
    }
    forall m | m in v.hooked.Keys + v.deopted.Keys && m !in v.past.generated && v.mem[m].IsStatic()
               && v.mem[m].declaringClass in v.past.window
      ensures Savedly(v, m)
    {
      assert SameStatus(w, v, m);
      assert Savedly(w, m);
    }
  }

  // ----- hooking

  // What a successful hook of `t` with the methods `h` and `b` of class `c` changes.
  ghost predicate HookStep(w: World, v: World, t: Method, h: Method, b: Method, c: ClassDef, address: Address) {
    && t in w.mem && h !in w.mem && b !in w.mem && h != b && t !in w.hooked && t !in w.backups
    && v.bridge == w.bridge && address !in w.past.issued && address != 0
    && v.mem.Keys == w.mem.Keys + {h, b}
    && (forall m | m in w.mem && m != t :: v.mem[m] == w.mem[m])
    && v.mem[t].declaringClass == w.mem[t].declaringClass == v.mem[b].declaringClass
    && v.mem[t].entryPoint == address && v.mem[b].entryPoint == w.mem[t].entryPoint
    && v.mem[b].data == w.mem[t].data
    && w.mem[t].declaringClass !in w.past.window && c !in w.past.window
    && v.hooked == w.hooked[t := HookRecord(h, b)]
    && v.backups == w.backups[b := t]
    && v.hookedClasses == GroupAdd(w.hookedClasses, w.mem[t].declaringClass, t)
    && v.deopted.Keys == w.deopted.Keys + {b}
    && v.deoptClasses == GroupAdd(w.deoptClasses, c, b)
    && w.proxies <= v.proxies <= w.proxies + {b}
    && v.pending == w.pending && v.past.window == w.past.window
    && v.past.generated == w.past.generated + {h, b}
    && v.past.hookerClasses == w.past.hookerClasses + {c}
    && v.past.trampolines == w.past.trampolines[t := address]
    && v.past.issued == w.past.issued + {address}
    && v.past.tainted == w.past.tainted && v.past.sunk == w.past.sunk
  }

  lemma HookIsHookStep(w: World, e: Event)
    requires e.Hook? && Allowed(w, e) && CanHook(w, e.target, e.trampoline)
    ensures HookStep(w, ApplyHook(w, e), e.target, e.hook, e.backup, e.hookRecord.declaringClass, e.trampoline)
  {
  }

  lemma GroupedAdd(classes: map<ClassDef, set<Method>>, members: set<Method>, mem: map<Method, Record>,
                   after: map<Method, Record>, t: Method)
    requires members + {t} <= mem.Keys <= after.Keys && Grouped(classes, members, mem)
    requires forall m | m in mem :: after[m].declaringClass == mem[m].declaringClass
    ensures Grouped(GroupAdd(classes, mem[t].declaringClass, t), members + {t}, after)
  {
  }

  lemma HookStepInverse(w: World, v: World, t: Method, h: Method, b: Method, c: ClassDef, address: Address)
    requires HookStep(w, v, t, h, b, c, address) && Exist(w) && TablesInverse(w)
    ensures Exist(v) && TablesInverse(v)
  {
  }

  lemma HookStepTables(w: World, v: World, t: Method, h: Method, b: Method, c: ClassDef, address: Address)
    requires HookStep(w, v, t, h, b, c, address) && Tables(w)
    ensures Tables(v)
  {
    HookStepInverse(w, v, t, h, b, c, address);
    GroupedAdd(w.hookedClasses, w.hooked.Keys, w.mem, v.mem, t);
    assert v.hooked.Keys == w.hooked.Keys + {t};
  }

  lemma HookStepDeoptGroups(w: World, v: World, t: Method, h: Method, b: Method, c: ClassDef, address: Address)
    requires HookStep(w, v, t, h, b, c, address) && Exist(w) && Exist(v) && DeoptGroupsFit(w)
    ensures DeoptGroupsFit(v)
  {
    assert forall m | m in w.mem :: v.mem[m].declaringClass == w.mem[m].declaringClass;
    forall d, m | d in v.deoptClasses && m in v.deoptClasses[d]
      ensures m in v.deopted
      ensures d !in v.past.hookerClasses ==> v.mem[m].declaringClass == d
      ensures d !in v.past.hookerClasses && m in v.backups ==> v.backups[m] in v.past.tainted
    {
      if m != b {
        assert d in w.deoptClasses && m in w.deoptClasses[d];
      }
    }
  }

  lemma HookStepDeopts(w: World, v: World, t: Method, h: Method, b: Method, c: ClassDef, address: Address)
    requires HookStep(w, v, t, h, b, c, address) && Exist(w) && Exist(v) && DeoptsRecorded(w)
    ensures DeoptsRecorded(v)
  {
    HookStepDeoptGroups(w, v, t, h, b, c, address);
    assert forall m | m in w.mem :: v.mem[m].declaringClass == w.mem[m].declaringClass;
  }

  lemma HookStepPending(w: World, v: World, t: Method, h: Method, b: Method, c: ClassDef, address: Address)
    requires HookStep(w, v, t, h, b, c, address) && Exist(w) && Exist(v)
    requires w.past.trampolines.Keys == w.hooked.Keys && v.past.trampolines.Keys == v.hooked.Keys
    requires PendingFits(w) && PendingCovers(w)
    ensures PendingFits(v) && PendingCovers(v)
  {
    OutsideWindow(w, v);
  }

  lemma HookStepEntries(w: World, v: World, t: Method, h: Method, b: Method, c: ClassDef, address: Address)
    requires HookStep(w, v, t, h, b, c, address) && Exist(w) && HoldersExist(w) && HoldersExist(v)
    requires TrampolinesApart(w) && HooksInPlace(w) && TablesInverse(w)
    requires w.past.sunk !! w.backups.Keys && SunkExcept(w, {})
    ensures TrampolinesApart(v) && HooksInPlace(v) && SunkExcept(v, {})
  {
  }

  lemma HookKeeps(w: World, e: Event)
    requires Inv(w) && e.Hook? && Allowed(w, e)
    ensures Inv(ApplyHook(w, e))
  {
    if CanHook(w, e.target, e.trampoline) {
      var v := ApplyHook(w, e);
      var c := e.hookRecord.declaringClass;
      HookIsHookStep(w, e);
      HookStepTables(w, v, e.target, e.hook, e.backup, c, e.trampoline);
      HookStepDeopts(w, v, e.target, e.hook, e.backup, c, e.trampoline);
      HookStepEntries(w, v, e.target, e.hook, e.backup, c, e.trampoline);
      HookStepPending(w, v, e.target, e.hook, e.backup, c, e.trampoline);
    }
  }

  // ----- unhooking

  ghost predicate UnHookStep(w: World, v: World, t: Method, b: Method) {
    && t in w.hooked && w.hooked[t].backup == b && t in w.mem && b in w.mem
    && v.bridge == w.bridge
    && v.mem == w.mem[t := w.mem[b].(accessFlags := w.mem[t].accessFlags)]
    && w.mem[t].declaringClass !in w.past.window
    && v.hooked == w.hooked - {t}
    && v.backups == w.backups - {b}
    && v.hookedClasses == GroupRemove(w.hookedClasses, w.mem[t].declaringClass, t)
    && v.deopted == w.deopted && v.deoptClasses == w.deoptClasses
    && v.proxies == w.proxies - {b}
    && v.pending == w.pending
    && v.past == w.past.(trampolines := w.past.trampolines - {t})
  }

  lemma GroupedRemove(classes: map<ClassDef, set<Method>>, members: set<Method>, mem: map<Method, Record>,
                      after: map<Method, Record>, t: Method)
    requires t in members && members <= mem.Keys <= after.Keys && Grouped(classes, members, mem)
    requires forall m | m in mem :: after[m].declaringClass == mem[m].declaringClass
    ensures Grouped(GroupRemove(classes, mem[t].declaringClass, t), members - {t}, after)
  {
  }

  lemma UnHookStepTables(w: World, v: World, t: Method, b: Method)
    requires UnHookStep(w, v, t, b) && Tables(w)
    ensures Tables(v)
  {
    assert forall m | m in w.mem :: v.mem[m].declaringClass == w.mem[m].declaringClass;
    GroupedRemove(w.hookedClasses, w.hooked.Keys, w.mem, v.mem, t);
    assert v.hooked.Keys == w.hooked.Keys - {t};
  }

  lemma UnHookStepEntries(w: World, v: World, t: Method, b: Method)
    requires UnHookStep(w, v, t, b) && TablesInverse(w) && Exist(w) && HoldersExist(w) && HoldersExist(v)
    requires TrampolinesApart(w) && HooksInPlace(w) && SunkExcept(w, {}) && w.past.sunk !! w.backups.Keys
    ensures TrampolinesApart(v) && HooksInPlace(v) && SunkExcept(v, {})
  {
  }

  lemma UnHookStepDeopts(w: World, v: World, t: Method, b: Method)
    requires UnHookStep(w, v, t, b) && Tables(w) && Exist(v) && DeoptsRecorded(w)
    ensures DeoptsRecorded(v)
  {
    assert forall m | m in w.mem :: v.mem[m].declaringClass == w.mem[m].declaringClass;
  }

  lemma UnHookStepPending(w: World, v: World, t: Method, b: Method)
    requires UnHookStep(w, v, t, b) && Tables(w) && Exist(v)
    requires w.past.trampolines.Keys == w.hooked.Keys && v.past.trampolines.Keys == v.hooked.Keys
    requires PendingFits(w) && PendingCovers(w)
    ensures PendingFits(v) && PendingCovers(v)
  {
    OutsideWindow(w, v);
  }

  lemma UnHookKeeps(w: World, m: Method)
    requires Inv(w) && Allowed(w, UnHook(m))
    ensures Inv(ApplyUnHook(w, m))
  {
    if m in w.hooked {
      var v := ApplyUnHook(w, m);
      var b := w.hooked[m].backup;
      UnHookStepTables(w, v, m, b);
      UnHookStepEntries(w, v, m, b);
      UnHookStepDeopts(w, v, m, b);
      UnHookStepPending(w, v, m, b);
    }
  }

  // ----- deoptimizing

  ghost predicate DeoptStep(w: World, v: World, m: Method) {
    && m in w.mem && Holder(w, m) in w.mem && w.bridge != 0
    && w.mem[m].declaringClass !in w.past.window
    && v == w.(mem := SetEntry(w.mem, Holder(w, m), w.bridge), deopted := v.deopted,
               deoptClasses := GroupAdd(w.deoptClasses, w.mem[m].declaringClass, m), past := v.past)
    && v.deopted.Keys == w.deopted.Keys + {m}
    && v.past == w.past.(tainted := w.past.tainted + {m} + (if m in w.backups then {w.backups[m]} else {}),
                         sunk := if m in w.backups then w.past.sunk else w.past.sunk + {m})
  }

  lemma DeoptStepTables(w: World, v: World, m: Method)
    requires DeoptStep(w, v, m) && Tables(w)
    ensures Tables(v)
  {
    assert forall n | n in w.mem :: v.mem[n].declaringClass == w.mem[n].declaringClass;
  }

  lemma DeoptStepGroups(w: World, v: World, m: Method)
    requires DeoptStep(w, v, m) && Exist(w) && Exist(v) && DeoptGroupsFit(w)
    ensures DeoptGroupsFit(v)
  {
    assert forall n | n in w.mem :: v.mem[n].declaringClass == w.mem[n].declaringClass;
    forall d, n | d in v.deoptClasses && n in v.deoptClasses[d]
      ensures n in v.deopted
      ensures d !in v.past.hookerClasses ==> v.mem[n].declaringClass == d
      ensures d !in v.past.hookerClasses && n in v.backups ==> v.backups[n] in v.past.tainted
    {
      if n != m {
        assert d in w.deoptClasses && n in w.deoptClasses[d];
      }
    }
  }

  lemma DeoptStepRecorded(w: World, v: World, m: Method)
    requires DeoptStep(w, v, m) && Exist(w) && Exist(v) && DeoptsRecorded(w)
    ensures DeoptsRecorded(v)
  {
    DeoptStepGroups(w, v, m);
    assert forall n | n in w.mem :: v.mem[n].declaringClass == w.mem[n].declaringClass;
  }

  lemma DeoptStepEntries(w: World, v: World, m: Method)
    requires DeoptStep(w, v, m) && Tables(w) && Tables(v) && TrampolinesApart(w) && HooksInPlace(w)
    requires HoldersExist(w) && HoldersExist(v) && w.past.sunk <= w.mem.Keys && v.past.sunk <= v.mem.Keys
    requires w.past.sunk !! w.backups.Keys && SunkExcept(w, {})
    ensures TrampolinesApart(v) && HooksInPlace(v) && SunkExcept(v, {})
  {
  }

  lemma DeoptStepPending(w: World, v: World, m: Method)
    requires DeoptStep(w, v, m) && Tables(w) && Tables(v)
    requires w.past.trampolines.Keys == w.hooked.Keys && v.past.trampolines.Keys == v.hooked.Keys
    requires PendingFits(w) && PendingCovers(w)
    ensures PendingFits(v) && PendingCovers(v)
  {
    OutsideWindow(w, v);
  }

  lemma DeoptimizeKeeps(w: World, m: Method)
    requires Inv(w) && Allowed(w, Deoptimize(m))
    ensures Inv(ApplyDeoptimize(w, m))
  {
    var v := ApplyDeoptimize(w, m);
    if w.bridge != 0 && !w.mem[m].IsNative() {
      DeoptStepTables(w, v, m);
      DeoptStepRecorded(w, v, m);
      DeoptStepEntries(w, v, m);
      DeoptStepPending(w, v, m);
    }
  }

  // ----- steps that only rewrite entry points and data

  ghost predicate OnlyPointers(w: World, v: World) {
    && v == w.(mem := v.mem, deopted := v.deopted)
    && v.mem.Keys == w.mem.Keys && v.deopted.Keys == w.deopted.Keys
    && forall m | m in w.mem :: v.mem[m].declaringClass == w.mem[m].declaringClass
                                && v.mem[m].accessFlags == w.mem[m].accessFlags
  }

  lemma OnlyPointersFrame(w: World, v: World)
    requires OnlyPointers(w, v) && Frame(w)
    ensures Frame(v)
  {
    forall b | b in v.backups
      ensures v.mem[b].declaringClass == v.mem[v.backups[b]].declaringClass
    {
      var t := w.backups[b];
      assert t in w.hooked && t in w.mem && b in w.mem;
      assert v.mem[t].declaringClass == w.mem[t].declaringClass;
    }
    OnlyPointersPending(w, v);
  }

  lemma OnlyPointersPending(w: World, v: World)
    requires OnlyPointers(w, v) && Tables(w) && Exist(v)
    requires w.past.trampolines.Keys == w.hooked.Keys
    requires PendingFits(w) && PendingCovers(w)
    ensures PendingFits(v) && PendingCovers(v)
  {
    OutsideWindow(w, v);
  }

  lemma OnlyPointersKeeps(w: World, v: World)
    requires OnlyPointers(w, v) && Inv(w)
    requires forall m | m in w.hooked :: v.mem[m].entryPoint == w.mem[m].entryPoint
    requires forall m | m in w.past.sunk :: v.mem[Holder(w, m)].entryPoint == w.mem[Holder(w, m)].entryPoint
    ensures Inv(v)
  {
    OnlyPointersFrame(w, v);
    forall m | m in v.past.sunk
      ensures Effective(v, m).entryPoint == v.bridge
    {
      assert Effective(w, m).entryPoint == w.bridge;
    }
  }

  lemma UpdateCodeEntries(w: World, m: Method, code: Address)
    requires TablesInverse(w) && HoldersExist(w) && m in w.mem && w.past.sunk <= w.mem.Keys
    requires w.past.sunk <= w.deopted.Keys && w.backups.Keys <= w.deopted.Keys && w.past.sunk !! w.backups.Keys
    ensures var v := ApplyUpdateCode(w, m, code);
            && OnlyPointers(w, v)
            && (forall n | n in w.hooked :: v.mem[n].entryPoint == w.mem[n].entryPoint)
            && (forall n | n in w.past.sunk :: v.mem[Holder(w, n)].entryPoint == w.mem[Holder(w, n)].entryPoint)
  {
    HoldersApart(w);
  }

  // No two methods have the same holder, and no holder is hooked.
  lemma HoldersApart(w: World)
    requires TablesInverse(w)
    ensures forall m, n | m in w.hooked && n in w.hooked && w.hooked[m].backup == w.hooked[n].backup :: m == n
    ensures forall m | m in w.hooked :: w.hooked[m].backup !in w.hooked
  {
  }

  lemma UpdateCodeKeeps(w: World, m: Method, code: Address)
    requires Inv(w) && Allowed(w, UpdateCode(m, code))
    ensures Inv(ApplyUpdateCode(w, m, code))
  {
    UpdateCodeEntries(w, m, code);
    OnlyPointersKeeps(w, ApplyUpdateCode(w, m, code));
  }

  lemma InitializeKeeps(w: World, m: Method, code: Address, entry: Address)
    requires Inv(w) && Allowed(w, InitializeCode(m, code, entry))
    ensures Inv(ApplyInitialize(w, m, code, entry))
  {
    InitializeEntries(w, m, code, entry);
    OnlyPointersKeeps(w, ApplyInitialize(w, m, code, entry));
  }

  lemma InitializeEntries(w: World, m: Method, code: Address, entry: Address)
    requires TablesInverse(w) && HoldersExist(w) && m in w.mem && w.past.sunk <= w.mem.Keys
    requires w.past.sunk <= w.deopted.Keys && w.backups.Keys <= w.deopted.Keys && w.past.sunk !! w.backups.Keys
    requires forall n | n in w.hooked :: w.mem[n].entryPoint != code
    ensures var v := ApplyInitialize(w, m, code, entry);
            && OnlyPointers(w, v)
            && (forall n | n in w.hooked :: v.mem[n].entryPoint == w.mem[n].entryPoint)
            && (forall n | n in w.past.sunk :: v.mem[Holder(w, n)].entryPoint == w.mem[Holder(w, n)].entryPoint)
  {
    HoldersApart(w);
  }

  /** The entry point that ART chooses goes to the record that counts, unless ART announced the trampoline as
      the method's code; so a trampoline in place is never overwritten. */
  lemma ReceiverOfEntry(w: World, m: Method, quick: Address)
    requires Inv(w) && m in w.mem
    ensures MaybeUseBackup(w, m, quick) == Holder(w, m) <==> m !in w.hooked || quick != w.past.trampolines[m]
    ensures quick !in w.past.issued ==> MaybeUseBackup(w, m, quick) !in w.hooked
  {
    HoldersApart(w);
    assert m in w.hooked ==> w.mem[m].entryPoint == w.past.trampolines[m] && w.hooked[m].backup != m;
  }

  lemma SetNativeKeeps(w: World, m: Method, fn: Address)
    requires Inv(w) && Allowed(w, SetNative(m, fn))
    ensures Inv(ApplySetNative(w, m, fn))
  {
    OnlyPointersKeeps(w, ApplySetNative(w, m, fn));
  }

  // ----- class initialization

  lemma ToSaveFits(w: World, c: ClassDef)
    requires Inv(w) && c !in w.past.hookerClasses
    ensures forall m | m in ToSave(w, c) :: EntryFits(w, c, m, ToSave(w, c)[m])
  {
    forall m | m in ToSave(w, c)
      ensures EntryFits(w, c, m, ToSave(w, c)[m])
    {
      if m in w.backups {
        assert w.backups[m] in w.past.sunk ==> Effective(w, w.backups[m]).entryPoint == w.bridge;
      }
      if m in w.past.sunk {
        assert Effective(w, m).entryPoint == w.bridge;
      }
    }
  }

  lemma SetInitializedPending(w: World, v: World, c: ClassDef, self: Thread)
    requires w.past.trampolines.Keys == w.hooked.Keys && PendingFits(w) && c != 0 && c !in w.past.window && c !in w.past.hookerClasses
    requires v == ApplySetInitialized(w, c, self)
    requires forall m | m in ToSave(w, c) :: EntryFits(w, c, m, ToSave(w, c)[m])
    ensures PendingFits(v)
  {
    forall t, d, m | t in v.pending && d in v.pending[t] && m in v.pending[t][d]
      ensures EntryFits(v, d, m, v.pending[t][d][m])
    {
      if d == c {
        assert v.pending[t][d] == ToSave(w, c);
        assert EntryFits(w, c, m, ToSave(w, c)[m]);
      } else {
        assert d in w.pending[t] && v.pending[t][d] == w.pending[t][d];
        assert EntryFits(w, d, m, w.pending[t][d][m]);
      }
    }
  }

  lemma SetInitializedCovers(w: World, v: World, c: ClassDef, self: Thread)
    requires Tables(w) && DeoptsRecorded(w) && PendingCovers(w) && c != 0 && c !in w.past.window
    requires forall t | t in w.pending :: c !in w.pending[t]
    requires v == ApplySetInitialized(w, c, self)
    ensures PendingCovers(v)
  {
    forall m | m in v.hooked.Keys + v.deopted.Keys && m !in v.past.generated && v.mem[m].IsStatic()
               && v.mem[m].declaringClass in v.past.window
      ensures Savedly(v, m)
    {
      if v.mem[m].declaringClass == c {
        assert m in ToSave(w, c);
      } else {
        assert Savedly(w, m);
      }
    }
  }

  lemma SetInitializedKeeps(w: World, c: ClassDef, self: Thread)
    requires Inv(w) && Allowed(w, SetInitialized(c, self))
    ensures Inv(ApplySetInitialized(w, c, self))
  {
    if c != 0 {
      var v := ApplySetInitialized(w, c, self);
      ToSaveFits(w, c);
      SetInitializedPending(w, v, c, self);
      SetInitializedCovers(w, v, c, self);
      assert Tables(v) && DeoptsRecorded(v);
    }
  }

  // ----- fixup and restoration

  // What the entries taken out of the pending ones say.
  ghost predicate PoppedFits(w: World, popped: Saved)
    requires w.past.trampolines.Keys == w.hooked.Keys
  {
    forall m | m in popped :: m in w.mem && EntryFits(w, w.mem[m].declaringClass, m, popped[m])
  }

  /** The state between ART's fixup and the end of the restoration: the methods in `todo` are still to be
      restored, everything else is as in a reachable state. */
  ghost predicate Restoring(w: World, popped: Saved, todo: set<Method>) {
    && Frame(w) && HoldersExist(w) && Restorable(w, popped)
    && PoppedFits(w, popped)
    && todo <= popped.Keys
    && (forall m | m in w.hooked && m !in todo :: w.mem[m].entryPoint == w.past.trampolines[m])
    && SunkExcept(w, todo)
  }

  lemma RestoreOneKeeps(w: World, popped: Saved, todo: set<Method>, m: Method)
    requires Restoring(w, popped, todo) && m in todo
    ensures Restoring(RestoreOne(w, m, popped[m]), popped, todo - {m})
  {
    var v := RestoreOne(w, m, popped[m]);
    RestoreOneFrame(w, v, m, popped[m]);
    RestoreOneEntries(w, v, popped, todo, m);
  }

  lemma RestoreOneFrame(w: World, v: World, m: Method, entry: Address)
    requires Frame(w) && HoldersExist(w) && m in w.mem && v == RestoreOne(w, m, entry)
    ensures Frame(v) && HoldersExist(v)
  {
    OnlyPointersFrame(w, v);
  }

  // The part of the invariant that a restoration relies on.
  ghost predicate RestoreContext(w: World, popped: Saved) {
    && TablesInverse(w) && w.past.trampolines.Keys == w.hooked.Keys <= w.mem.Keys
    && w.past.sunk <= w.mem.Keys && w.past.sunk <= w.deopted.Keys && w.past.sunk !! w.backups.Keys
    && HoldersExist(w) && Restorable(w, popped) && PoppedFits(w, popped)
  }

  lemma RestoreOneEntries(w: World, v: World, popped: Saved, todo: set<Method>, m: Method)
    requires RestoreContext(w, popped) && SunkExcept(w, todo)
    requires forall n | n in w.hooked && n !in todo :: w.mem[n].entryPoint == w.past.trampolines[n]
    requires m in todo && m in popped && v == RestoreOne(w, m, popped[m])
    ensures forall n | n in v.hooked && n !in todo - {m} :: v.mem[n].entryPoint == v.past.trampolines[n]
    ensures PoppedFits(v, popped) && SunkExcept(v, todo - {m})
  {
    assert EntryFits(w, w.mem[m].declaringClass, m, popped[m]);
    assert forall n | n in w.hooked :: w.hooked[n].backup !in w.hooked;
    forall n | n in popped
      ensures EntryFits(v, v.mem[n].declaringClass, n, popped[n])
    {
      assert EntryFits(w, w.mem[n].declaringClass, n, popped[n]);
    }
    forall n | n in v.past.sunk && (n in v.hooked || n !in todo - {m})
      ensures Effective(v, n).entryPoint == v.bridge
    {
      RestoreOneSunk(w, v, popped, todo, m, n);
    }
  }

  lemma RestoreOneSunk(w: World, v: World, popped: Saved, todo: set<Method>, m: Method, n: Method)
    requires RestoreContext(w, popped) && SunkExcept(w, todo)
    requires m in todo && m in popped && v == RestoreOne(w, m, popped[m])
    requires n in w.past.sunk && (n in w.hooked || n !in todo - {m})
    ensures Effective(v, n).entryPoint == v.bridge
  {
    assert EntryFits(w, w.mem[m].declaringClass, m, popped[m]);
    var h := Holder(w, n);
    assert h != n ==> h in w.backups && w.backups[h] == n;
    if n in w.hooked || n !in todo {
      assert w.mem[h].entryPoint == w.bridge;
    }
    assert m in w.hooked ==> w.hooked[m].backup in w.backups && w.backups[w.hooked[m].backup] == m;
  }

  function Elements(order: seq<Method>): set<Method> {
    set m | m in order
  }

  lemma LastElement(order: seq<Method>)
    requires order != [] && forall i, j | 0 <= i < j < |order| :: order[i] != order[j]
    ensures var front, last := order[..|order| - 1], order[|order| - 1];
            last !in Elements(front) && Elements(order) == Elements(front) + {last} && order == front + [last]
    ensures forall m | m in order[..|order| - 1] :: m in order
    ensures order[|order| - 1] in order
  {
    var front, last := order[..|order| - 1], order[|order| - 1];
    assert order == front + [last];
  }

  lemma {:induction false} RestoreAllKeeps(w: World, popped: Saved, order: seq<Method>)
    requires Restoring(w, popped, popped.Keys)
    requires forall i, j | 0 <= i < j < |order| :: order[i] != order[j]
    requires forall m | m in order :: m in popped
    ensures Restoring(RestoreAll(w, popped, order), popped, popped.Keys - Elements(order))
    decreases |order|
  {
    if order == [] {
      assert popped.Keys - Elements(order) == popped.Keys;
    } else {
      var front, last := order[..|order| - 1], order[|order| - 1];
      LastElement(order);
      RestoreAllKeeps(w, popped, front);
      var todo := popped.Keys - Elements(front);
      RestoreOneKeeps(RestoreAll(w, popped, front), popped, todo, last);
      assert todo - {last} == popped.Keys - Elements(order);
    }
  }

  lemma PoppedFitsFromPending(w: World, c: ClassDef, self: Thread)
    requires w.past.trampolines.Keys == w.hooked.Keys && PendingFits(w)
    ensures PoppedFits(w, Popped(w, c, self))
  {
    var popped := Popped(w, c, self);
    forall m | m in popped
      ensures EntryFits(w, w.mem[m].declaringClass, m, popped[m])
    {
      var d := w.mem[m].declaringClass;
      assert Savedly(w, m);
      var t := w.past.window[d];
      assert t in w.pending && d in w.pending[t] && m in w.pending[t][d];
      assert EntryFits(w, d, m, w.pending[t][d][m]);
    }
  }

  lemma BeforeRestorePending(w: World, e: Event)
    requires e.Fixup? && w.past.trampolines.Keys == w.hooked.Keys && PendingFits(w)
    ensures PendingFits(BeforeRestore(w, e))
  {
    var v := BeforeRestore(w, e);
    forall t, d, m | t in v.pending && d in v.pending[t] && m in v.pending[t][d]
      ensures EntryFits(v, d, m, v.pending[t][d][m])
    {
      assert d in w.pending[t] && v.pending[t][d] == w.pending[t][d];
      assert EntryFits(w, d, m, w.pending[t][d][m]);
    }
  }

  lemma BeforeRestoreCovers(w: World, e: Event)
    requires e.Fixup? && Exist(w) && Exist(BeforeRestore(w, e)) && PendingCovers(w)
    ensures PendingCovers(BeforeRestore(w, e))
  {
    var v := BeforeRestore(w, e);
    forall m | m in v.hooked.Keys + v.deopted.Keys && m !in v.past.generated && v.mem[m].IsStatic()
               && v.mem[m].declaringClass in v.past.window
      ensures Savedly(v, m)
    {
      assert Savedly(w, m);
      var d := v.mem[m].declaringClass;
      var t := w.past.window[d];
      assert d !in Closed(w, e.c, e.self);
      if e.c != 0 {
        assert d in w.pending[t] - {e.c};
      }
    }
  }

  lemma BeforeRestoreTables(w: World, e: Event)
    requires Tables(w) && TrampolinesApart(w) && DeoptsRecorded(w) && e.Fixup?
    ensures Tables(BeforeRestore(w, e)) && TrampolinesApart(BeforeRestore(w, e))
    ensures DeoptsRecorded(BeforeRestore(w, e))
  {
    var v := BeforeRestore(w, e);
    assert forall m | m in w.mem :: v.mem[m].declaringClass == w.mem[m].declaringClass;
  }

  // Only saved methods are rewritten by a fixup, among those that matter to LSPlant.
  lemma WritesAreSaved(w: World, e: Event)
    requires Exist(w) && PendingCovers(w) && e.Fixup? && Allowed(w, e)
    ensures forall m | m in e.writes && m in w.hooked.Keys + w.deopted.Keys :: m in Popped(w, e.c, e.self)
    ensures forall m | m in e.writes :: m !in w.past.generated
  {
    forall m | m in e.writes && m in w.hooked.Keys + w.deopted.Keys
      ensures m in Popped(w, e.c, e.self)
    {
      assert w.mem[m].declaringClass in Closed(w, e.c, e.self);
      assert Savedly(w, m);
    }
  }

  lemma BeforeRestoreEntries(w: World, v: World, popped: Saved, writes: map<Method, Address>)
    requires Exist(w) && HoldersExist(w) && TablesInverse(w) && w.past.trampolines.Keys == w.hooked.Keys
    requires HooksInPlace(w) && SunkExcept(w, {}) && w.past.sunk <= w.deopted.Keys
    requires v.mem == Written(w.mem, writes) && v.hooked == w.hooked && v.past.sunk == w.past.sunk
    requires v.past.trampolines == w.past.trampolines && v.bridge == w.bridge && HoldersExist(v)
    requires forall m | m in writes :: m !in w.past.generated
    requires forall m | m in writes && m in w.hooked.Keys + w.deopted.Keys :: m in popped
    ensures forall m | m in v.hooked && m !in popped.Keys :: v.mem[m].entryPoint == v.past.trampolines[m]
    ensures SunkExcept(v, popped.Keys)
  {
    forall m | m in v.past.sunk && (m in v.hooked || m !in popped.Keys)
      ensures Effective(v, m).entryPoint == v.bridge
    {
      assert Effective(w, m).entryPoint == w.bridge;
      assert m in w.hooked ==> w.hooked[m].backup in w.backups;
    }
  }

  lemma BeforeRestoreFits(w: World, e: Event)
    requires e.Fixup? && w.past.trampolines.Keys == w.hooked.Keys && PendingFits(w)
    ensures PoppedFits(BeforeRestore(w, e), Popped(w, e.c, e.self))
  {
    var popped := Popped(w, e.c, e.self);
    PoppedFitsFromPending(w, e.c, e.self);
    forall m | m in popped
      ensures EntryFits(BeforeRestore(w, e), w.mem[m].declaringClass, m, popped[m])
    {
      assert EntryFits(w, w.mem[m].declaringClass, m, popped[m]);
    }
  }

  lemma BeforeRestoreFrame(w: World, e: Event)
    requires Frame(w) && HoldersExist(w) && e.Fixup?
    ensures var v := BeforeRestore(w, e); Frame(v) && HoldersExist(v) && Restorable(v, Popped(w, e.c, e.self))
  {
    BeforeRestoreTables(w, e);
    BeforeRestorePending(w, e);
    BeforeRestoreCovers(w, e);
  }

  lemma BeforeRestoreKeeps(w: World, e: Event)
    requires Inv(w) && e.Fixup? && Allowed(w, e)
    ensures Restoring(BeforeRestore(w, e), Popped(w, e.c, e.self), Popped(w, e.c, e.self).Keys)
  {
    BeforeRestoreFrame(w, e);
    BeforeRestoreFits(w, e);
    WritesAreSaved(w, e);
    BeforeRestoreEntries(w, BeforeRestore(w, e), Popped(w, e.c, e.self), e.writes);
  }

  lemma FixupKeeps(w: World, e: Event)
    requires Inv(w) && e.Fixup? && Allowed(w, e)
    ensures Inv(Apply(w, e))
  {
    var popped := Popped(w, e.c, e.self);
    BeforeRestoreKeeps(w, e);
    RestoreAllKeeps(BeforeRestore(w, e), popped, e.order);
    assert popped.Keys - Elements(e.order) == {};
  }
}
