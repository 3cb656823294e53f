/** Hooks are invisible to ART: the records that decide how original code runs are, after every run, the
    ones the same changes of ART would have produced had LSPlant never been there. */
module Transparency {
  import opened ArtMethods
  import opened HookWorld
  import opened HookInvariants
  import opened MapBootImage

  // The memory of a runtime without LSPlant.
  type Plain = map<Method, Record>

  function PlainEntry(p: Plain, m: Method, entry: Address): Plain {
    if m in p then SetEntry(p, m, entry) else p
  }

  // What an event does there: ART's own changes, and nothing else.
  function ApplyPlain(p: Plain, e: Event): Plain {
    match e
    case UpdateCode(m, code) => PlainEntry(p, m, code)
    case UpdateToInterpreter(m, entry) => PlainEntry(p, m, entry)
    case InitializeCode(m, _, entry) => PlainEntry(p, m, entry)
    case SetNative(m, fn) => if m in p then p[m := p[m].(data := fn)] else p
    case Fixup(_, _, writes, _) => Written(p, writes)
    case MapMethods(art, _) => MappedBy(p, art)
    case _ => p
  }

  /** Every original method has the data it would have without LSPlant, and every one that no caller
      deoptimized the entry point too. */
  ghost predicate Transparent(w: World, p: Plain)
    requires HoldersExist(w)
  {
    && p.Keys == w.mem.Keys - w.past.generated
    && forall m | m in p ::
         && Effective(w, m).data == p[m].data
         && (m !in w.past.tainted ==> Effective(w, m).entryPoint == p[m].entryPoint)
  }

  // ----- LSPlant's own operations change nothing

  lemma HookTransparent(w: World, v: World, p: Plain, t: Method, h: Method, b: Method, c: ClassDef, address: Address)
    requires HookStep(w, v, t, h, b, c, address) && Exist(w) && HoldersExist(w) && HoldersExist(v)
    requires TablesInverse(w) && Transparent(w, p)
    ensures Transparent(v, p)
  {
  }

  lemma UnHookTransparent(w: World, v: World, p: Plain, t: Method, b: Method)
    requires UnHookStep(w, v, t, b) && HoldersExist(w) && HoldersExist(v) && TablesInverse(w)
    requires w.backups.Keys <= w.past.generated && Transparent(w, p)
    ensures Transparent(v, p)
  {
    assert b in w.backups;
  }

  /** A step that rewrites the record at `k` only, in favour of `m` only. */
  lemma OneRecord(w: World, v: World, p: Plain, q: Plain, k: Method, m: Method)
    requires HoldersExist(w) && HoldersExist(v) && Transparent(w, p)
    requires v.hooked == w.hooked && v.mem.Keys == w.mem.Keys && v.past.generated == w.past.generated
    requires w.past.tainted <= v.past.tainted
    requires forall n | n in w.mem && n != k :: v.mem[n] == w.mem[n]
    requires q.Keys == p.Keys && forall n | n in p && n != m :: q[n] == p[n]
    requires forall n | n in p && n != m && Holder(w, n) == k :: n in v.past.tainted && v.mem[k].data == w.mem[k].data
    requires m in p ==> Effective(v, m).data == q[m].data
    requires m in p && m !in v.past.tainted ==> Effective(v, m).entryPoint == q[m].entryPoint
    ensures Transparent(v, q)
  {
  }

  lemma DeoptimizeTransparent(w: World, v: World, p: Plain, m: Method)
    requires DeoptStep(w, v, m) && HoldersExist(w) && HoldersExist(v) && TablesInverse(w) && Transparent(w, p)
    requires w.backups.Keys <= w.past.generated
    ensures Transparent(v, p)
  {
    HolderOwners(w, p, m);
    OneRecord(w, v, p, p, Holder(w, m), m);
  }

  // The original methods that run through the record that stands for `m`.
  lemma HolderOwners(w: World, p: Plain, m: Method)
    requires TablesInverse(w) && HoldersExist(w) && w.backups.Keys <= w.past.generated
    requires p.Keys == w.mem.Keys - w.past.generated
    ensures forall n | n in p && n != m && Holder(w, n) == Holder(w, m) :: m in w.backups && w.backups[m] == n
    ensures m in w.backups ==> m !in p
  {
    HoldersApart(w);
  }

  // ----- ART's changes reach the record that counts

  // The entry point of a hooked method is a trampoline.
  ghost predicate OnTrampolines(w: World) {
    forall m | m in w.hooked :: m in w.mem && w.mem[m].entryPoint in w.past.issued
  }

  ghost predicate DeoptsTainted(w: World) {
    forall m | m in w.deopted && m !in w.past.generated :: m in w.past.tainted
  }

  // The change `v` of the record that stands for `m`, or none, is what ART wanted of the entry point of `m`.
  ghost predicate EntryReaches(w: World, v: World, m: Method, entry: Address)
    requires Holder(w, m) in w.mem
  {
    && (v == w || v == w.(mem := SetEntry(w.mem, Holder(w, m), entry)))
    && (m !in w.deopted ==> v.mem[Holder(w, m)].entryPoint == entry)
    && (m in w.backups ==> v == w)
  }

  lemma EntryTransparent(w: World, v: World, p: Plain, m: Method, entry: Address)
    requires Exist(w) && TablesInverse(w) && HoldersExist(w) && HoldersExist(v) && m in w.mem
    requires EntryReaches(w, v, m, entry) && DeoptsTainted(w) && Transparent(w, p)
    ensures Transparent(v, PlainEntry(p, m, entry))
  {
    if m !in w.backups {
      HolderOwners(w, p, m);
      OneRecord(w, v, p, PlainEntry(p, m, entry), Holder(w, m), m);
    }
  }

  lemma UpdateCodeTransparent(w: World, p: Plain, m: Method, code: Address)
    requires Exist(w) && TablesInverse(w) && HoldersExist(w) && w.backups.Keys <= w.deopted.Keys && m in w.mem
    requires OnTrampolines(w) && DeoptsTainted(w) && code !in w.past.issued && Transparent(w, p)
    ensures HoldersExist(ApplyUpdateCode(w, m, code))
    ensures Transparent(ApplyUpdateCode(w, m, code), PlainEntry(p, m, code))
  {
    EntryTransparent(w, ApplyUpdateCode(w, m, code), p, m, code);
  }

  lemma InitializeTransparent(w: World, p: Plain, m: Method, code: Address, entry: Address)
    requires Exist(w) && TablesInverse(w) && HoldersExist(w) && w.backups.Keys <= w.deopted.Keys && m in w.mem
    requires OnTrampolines(w) && DeoptsTainted(w) && code !in w.past.issued && Transparent(w, p)
    ensures HoldersExist(ApplyInitialize(w, m, code, entry))
    ensures Transparent(ApplyInitialize(w, m, code, entry), PlainEntry(p, m, entry))
  {
    EntryTransparent(w, ApplyInitialize(w, m, code, entry), p, m, entry);
  }

  lemma SetNativeTransparent(w: World, p: Plain, m: Method, fn: Address)
    requires Exist(w) && TablesInverse(w) && HoldersExist(w) && m in w.mem && m !in w.backups && Transparent(w, p)
    ensures HoldersExist(ApplySetNative(w, m, fn))
    ensures Transparent(ApplySetNative(w, m, fn), ApplyPlain(p, SetNative(m, fn)))
  {
    HolderOwners(w, p, m);
    OneRecord(w, ApplySetNative(w, m, fn), p, ApplyPlain(p, SetNative(m, fn)), Holder(w, m), m);
  }

  // ----- class initialization

  /** Transparency while the methods in `todo` are still to be restored: what ART has written into a hooked
      one of them is what its backup is about to receive. */
  ghost predicate TransparentExcept(w: World, p: Plain, todo: set<Method>)
    requires HoldersExist(w) && w.past.trampolines.Keys == w.hooked.Keys
  {
    && p.Keys == w.mem.Keys - w.past.generated
    && forall m | m in p ::
         && Effective(w, m).data == p[m].data
         && (m !in w.past.tainted ==> p[m].entryPoint == EntryToCome(w, todo, m))
  }

  // The effective entry point once the methods in `todo` are restored.
  ghost function EntryToCome(w: World, todo: set<Method>, m: Method): Address
    requires HoldersExist(w) && w.past.trampolines.Keys == w.hooked.Keys && m in w.mem
  {
    if m in w.hooked && m in todo && w.mem[m].entryPoint != w.past.trampolines[m] then w.mem[m].entryPoint
    else Effective(w, m).entryPoint
  }

  lemma RestoreOneTransparent(w: World, p: Plain, popped: Saved, todo: set<Method>, m: Method)
    requires RestoreContext(w, popped) && DeoptsTainted(w) && w.backups.Keys <= w.past.generated
    requires m in todo && m in popped && TransparentExcept(w, p, todo)
    ensures var v := RestoreOne(w, m, popped[m]); HoldersExist(v) && TransparentExcept(v, p, todo - {m})
  {
    assert EntryFits(w, w.mem[m].declaringClass, m, popped[m]);
    var v := RestoreOne(w, m, popped[m]);
    forall n | n in p
      ensures Effective(v, n).data == p[n].data
      ensures n !in w.past.tainted ==> p[n].entryPoint == EntryToCome(v, todo - {m}, n)
    {
      RestoreOneOf(w, p, popped, todo, m, n);
    }
  }

  lemma RestoreOneOf(w: World, p: Plain, popped: Saved, todo: set<Method>, m: Method, n: Method)
    requires RestoreContext(w, popped) && DeoptsTainted(w) && w.backups.Keys <= w.past.generated
    requires m in todo && m in popped && TransparentExcept(w, p, todo)
    requires n in p
    ensures var v := RestoreOne(w, m, popped[m]);
            && HoldersExist(v) && n in v.mem && Effective(v, n).data == p[n].data
            && (n !in w.past.tainted ==> p[n].entryPoint == EntryToCome(v, todo - {m}, n))
  {
    assert EntryFits(w, w.mem[m].declaringClass, m, popped[m]);
    HolderOwners(w, p, m);
    assert n in w.hooked ==> w.hooked[n].backup in w.backups && w.hooked[n].backup !in w.hooked;
    assert m in w.hooked ==> w.hooked[m].backup in w.backups && w.hooked[m].backup !in w.hooked;
  }

  lemma {:induction false} RestoreAllTransparent(w: World, p: Plain, popped: Saved, order: seq<Method>)
    requires Restoring(w, popped, popped.Keys) && TransparentExcept(w, p, popped.Keys)
    requires forall i, j | 0 <= i < j < |order| :: order[i] != order[j]
    requires forall m | m in order :: m in popped
    ensures var v := RestoreAll(w, popped, order);
            HoldersExist(v) && TransparentExcept(v, p, popped.Keys - Elements(order))
    decreases |order|
  {
    if order == [] {
      assert popped.Keys - Elements(order) == popped.Keys;
    } else {
      var front, last := order[..|order| - 1], order[|order| - 1];
      LastElement(order);
      RestoreAllTransparent(w, p, popped, front);
      RestoreAllKeeps(w, popped, front);
      var todo := popped.Keys - Elements(front);
      RestoreOneTransparent(RestoreAll(w, popped, front), p, popped, todo, last);
      assert todo - {last} == popped.Keys - Elements(order);
    }
  }

  lemma BeforeRestoreTransparent(w: World, p: Plain, e: Event)
    requires Inv(w) && e.Fixup? && Allowed(w, e) && Transparent(w, p)
    ensures HoldersExist(BeforeRestore(w, e))
    ensures TransparentExcept(BeforeRestore(w, e), ApplyPlain(p, e), Popped(w, e.c, e.self).Keys)
  {
    WritesAreSaved(w, e);
  }

  lemma FixupTransparent(w: World, p: Plain, e: Event)
    requires Inv(w) && e.Fixup? && Allowed(w, e) && Transparent(w, p)
    ensures HoldersExist(Apply(w, e)) && Transparent(Apply(w, e), ApplyPlain(p, e))
  {
    var popped := Popped(w, e.c, e.self);
    BeforeRestoreKeeps(w, e);
    BeforeRestoreTransparent(w, p, e);
    RestoreAllTransparent(BeforeRestore(w, e), ApplyPlain(p, e), popped, e.order);
    assert popped.Keys - Elements(e.order) == {};
  }

  // ----- mapping the boot image

  /** The visiting order lets ART's wishes reach the backups of all hooked methods nobody deoptimized. */
  ghost predicate OrdersFit(w: World, art: map<Method, Mapped>, order: seq<Method>) {
    forall m | m in w.hooked && m !in w.past.generated && m !in w.past.tainted ::
      w.hooked[m].backup in w.mem && w.hooked[m].backup in w.deopted && OrderFits(w, art, order, m)
  }

  lemma MappingTransparent(w: World, p: Plain, art: map<Method, Mapped>, order: seq<Method>)
    requires Inv(w) && Enumerates(order, w.hooked.Keys + w.deopted.Keys) && Transparent(w, p)
    ensures HoldersExist(ApplyMapBootImage(w, art, order))
    ensures Transparent(ApplyMapBootImage(w, art, order), MappedBy(p, art)) <==> OrdersFit(w, art, order)
  {
    var v, q := ApplyMapBootImage(w, art, order), MappedBy(p, art);
    MappingFrame(w, art, order);
    forall m | m in p
      ensures Effective(v, m).data == q[m].data
      ensures m !in w.past.tainted ==>
              (Effective(v, m).entryPoint == q[m].entryPoint <==>
               (m in w.hooked ==> && w.hooked[m].backup in w.mem && w.hooked[m].backup in w.deopted
                                  && OrderFits(w, art, order, m)))
    {
      MappingOfOriginal(w, p, art, order, m);
    }
  }

  lemma MappingOfOriginal(w: World, p: Plain, art: map<Method, Mapped>, order: seq<Method>, m: Method)
    requires Inv(w) && Enumerates(order, w.hooked.Keys + w.deopted.Keys) && Transparent(w, p)
    requires m in p
    ensures var v, q := ApplyMapBootImage(w, art, order), MappedBy(p, art);
            && Holder(v, m) in v.mem && Effective(v, m).data == q[m].data
            && (m !in w.past.tainted ==>
                (Effective(v, m).entryPoint == q[m].entryPoint <==>
                 (m in w.hooked ==> && w.hooked[m].backup in w.mem && w.hooked[m].backup in w.deopted
                                    && OrderFits(w, art, order, m))))
  {
    if m in w.hooked {
      MappingTransparentExactly(w, art, order, m);
    } else {
      MappingFrame(w, art, order);
      MappingOfOther(w, art, order, m);
    }
  }

  // ----- the simulation

  /** Every allowed step keeps the invariant: the tables stay inverse to each other and grouped by class,
      every hooked method enters through its own trampoline, and every deoptimized one runs in the
      interpreter. */
  lemma StepKeeps(w: World, e: Event)
    requires Inv(w) && Allowed(w, e)
    ensures Inv(Apply(w, e))
  {
    match e
    case Hook(_, _, _, _, _, _) => HookKeeps(w, e);
    case UnHook(m) => UnHookKeeps(w, m);
    case Deoptimize(m) => DeoptimizeKeeps(w, m);
    case UpdateCode(m, code) => UpdateCodeKeeps(w, m, code);
    case UpdateToInterpreter(m, entry) => InitializeKeeps(w, m, 0, entry);
    case InitializeCode(m, code, entry) => InitializeKeeps(w, m, code, entry);
    case SetNative(m, fn) => SetNativeKeeps(w, m, fn);
    case SetInitialized(c, self) => SetInitializedKeeps(w, c, self);
    case Fixup(_, _, _, _) => FixupKeeps(w, e);
    case MapMethods(art, order) => MappingKeepsExactly(w, art, order);
  }

  // What transparency needs of a step beyond what the invariant does.
  ghost predicate Clean(w: World, e: Event) {
    e.MapMethods? ==> OrdersFit(w, e.art, e.order)
  }

  lemma OwnStepTransparent(w: World, p: Plain, e: Event)
    requires Inv(w) && Allowed(w, e) && Transparent(w, p) && (e.Hook? || e.UnHook? || e.Deoptimize?)
    requires HoldersExist(Apply(w, e))
    ensures Transparent(Apply(w, e), p)
  {
    var v := Apply(w, e);
    match e
    case Hook(t, h, b, r, address, _) =>
      if CanHook(w, t, address) {
        HookIsHookStep(w, e);
        HookTransparent(w, v, p, t, h, b, r.declaringClass, address);
      }
    case UnHook(m) =>
      if m in w.hooked {
        UnHookTransparent(w, v, p, m, w.hooked[m].backup);
      }
    case Deoptimize(m) =>
      if w.bridge != 0 && !w.mem[m].IsNative() {
        DeoptimizeTransparent(w, v, p, m);
      }
  }

  /** One step with LSPlant is matched by the same step without it. */
  lemma StepTransparent(w: World, p: Plain, e: Event)
    requires Inv(w) && Allowed(w, e) && Clean(w, e) && Transparent(w, p)
    ensures Inv(Apply(w, e)) && Transparent(Apply(w, e), ApplyPlain(p, e))
  {
    StepKeeps(w, e);
    match e
    case UpdateCode(m, code) => UpdateCodeTransparent(w, p, m, code);
    case UpdateToInterpreter(m, entry) => InitializeTransparent(w, p, m, 0, entry);
    case InitializeCode(m, code, entry) => InitializeTransparent(w, p, m, code, entry);
    case SetNative(m, fn) => SetNativeTransparent(w, p, m, fn);
    case SetInitialized(_, _) =>
    case Fixup(_, _, _, _) => FixupTransparent(w, p, e);
    case MapMethods(art, order) => MappingTransparent(w, p, art, order);
    case _ => OwnStepTransparent(w, p, e);
  }

  // ----- runs

  ghost predicate Runs(w: World, es: seq<Event>)
    decreases |es|
  {
    es == [] || (HoldersExist(w) && Allowed(w, es[0]) && Runs(Apply(w, es[0]), es[1..]))
  }

  // Every mapping of the run comes out as ART wants it.
  ghost predicate CleanRun(w: World, es: seq<Event>)
    requires Runs(w, es)
    decreases |es|
  {
    es == [] || (Clean(w, es[0]) && CleanRun(Apply(w, es[0]), es[1..]))
  }

  ghost function End(w: World, es: seq<Event>): World
    requires Runs(w, es)
    decreases |es|
  {
    if es == [] then w else End(Apply(w, es[0]), es[1..])
  }

  function EndPlain(p: Plain, es: seq<Event>): Plain
    decreases |es|
  {
    if es == [] then p else EndPlain(ApplyPlain(p, es[0]), es[1..])
  }

  /** Before the first hook: every table is empty. */
  ghost predicate Initial(w: World) {
    && w.hooked == map[] && w.backups == map[] && w.hookedClasses == map[]
    && w.deopted == map[] && w.deoptClasses == map[] && w.proxies == {} && w.pending == map[]
    && w.past == Past({}, {}, map[], {}, map[], {}, {})
  }

  lemma {:induction false} RunTransparent(w: World, p: Plain, es: seq<Event>)
    requires Inv(w) && Transparent(w, p) && Runs(w, es) && CleanRun(w, es)
    ensures Inv(End(w, es)) && Transparent(End(w, es), EndPlain(p, es))
    decreases |es|
  {
    if es != [] {
      StepTransparent(w, p, es[0]);
      RunTransparent(Apply(w, es[0]), ApplyPlain(p, es[0]), es[1..]);
    }
  }

  /** Transparency. After any run of hooks, unhooks, deoptimizations, code updates, native registrations,
      class initializations and clean mappings of the boot image, every original method has
      the data that ART's changes alone would have given it, and every one that no caller deoptimized the
      effective entry point too. */
  lemma HooksAreTransparent(w: World, es: seq<Event>)
    requires Initial(w) && Runs(w, es) && CleanRun(w, es)
    ensures var v, p := End(w, es), EndPlain(w.mem, es);
            forall m | m in w.mem ::
              && m in p && Holder(v, m) in v.mem && Effective(v, m).data == p[m].data
              && (m !in v.past.tainted ==> Effective(v, m).entryPoint == p[m].entryPoint)
  {
    assert Inv(w) && Transparent(w, w.mem);
    RunTransparent(w, w.mem, es);
    PlainKeys(w.mem, es);
  }

  lemma {:induction false} PlainKeys(p: Plain, es: seq<Event>)
    ensures EndPlain(p, es).Keys == p.Keys
    decreases |es|
  {
    if es != [] {
      PlainKeys(ApplyPlain(p, es[0]), es[1..]);
    }
  }

  /** After any run, the tables are inverse to each other and grouped by class, and every hooked method
      enters through a trampoline no other method uses. */
  lemma TablesStayConsistent(w: World, es: seq<Event>)
    requires Initial(w) && Runs(w, es)
    ensures var v := End(w, es);
            && (forall m, b | m in v.hooked && v.hooked[m].backup == b :: b in v.backups && v.backups[b] == m)
            && (forall b, m | b in v.backups && v.backups[b] == m :: m in v.hooked && v.hooked[m].backup == b)
            && v.hooked.Keys !! v.backups.Keys && v.proxies <= v.backups.Keys
            && v.hooked.Keys <= v.mem.Keys && Grouped(v.hookedClasses, v.hooked.Keys, v.mem)
            && v.past.trampolines.Keys == v.hooked.Keys
            && (forall m | m in v.hooked :: v.mem[m].entryPoint == v.past.trampolines[m])
            && (forall m, n | m in v.hooked && n in v.hooked && m != n ::
                  v.past.trampolines[m] != v.past.trampolines[n])
  {
    assert Inv(w);
    SunkStays(w, es);
  }

  lemma StepKeepsSunk(w: World, e: Event)
    requires Inv(w) && Allowed(w, e)
    ensures w.past.sunk <= Apply(w, e).past.sunk && Apply(w, e).bridge == w.bridge
  {
    if e.MapMethods? {
      MappingFrame(w, e.art, e.order);
    }
  }

  lemma {:induction false} SunkStays(w: World, es: seq<Event>)
    requires Inv(w) && Runs(w, es)
    ensures Inv(End(w, es)) && w.past.sunk <= End(w, es).past.sunk && End(w, es).bridge == w.bridge
    decreases |es|
  {
    if es != [] {
      StepKeeps(w, es[0]);
      StepKeepsSunk(w, es[0]);
      SunkStays(Apply(w, es[0]), es[1..]);
    }
  }

  /** Deoptimization is permanent: whatever allowed steps follow a successful deoptimization of a method that
      is not a live backup, its original code runs in the interpreter. */
  lemma DeoptimizationIsPermanent(w: World, m: Method, es: seq<Event>)
    requires Inv(w) && Allowed(w, Deoptimize(m)) && m !in w.backups
    requires w.bridge != 0 && !w.mem[m].IsNative()
    requires Runs(Apply(w, Deoptimize(m)), es)
    ensures var v := End(Apply(w, Deoptimize(m)), es);
            Holder(v, m) in v.mem && Effective(v, m).entryPoint == w.bridge == v.bridge
  {
    var v := Apply(w, Deoptimize(m));
    StepKeeps(w, Deoptimize(m));
    SunkStays(v, es);
  }

  lemma GroupRemoveUndoesAdd(classes: map<ClassDef, set<Method>>, c: ClassDef, m: Method)
    requires m !in Lookup(classes, c) && (c in classes ==> classes[c] != {})
    ensures GroupRemove(GroupAdd(classes, c, m), c, m) == classes
  {
    assert Lookup(classes, c) + {m} - {m} == Lookup(classes, c);
  }

  lemma RemoveUndoesAdd<K, V>(m: map<K, V>, k: K, v: V)
    requires k !in m
    ensures m[k := v] - {k} == m
  {
  }

  // What a hook followed by an unhook leaves of the world `w`.
  ghost predicate Undone(w: World, e: Event, u: World)
    requires e.Hook? && e.target in w.mem
  {
    && u.hooked == w.hooked && u.backups == w.backups && u.hookedClasses == w.hookedClasses
    && u.proxies == w.proxies && u.pending == w.pending && u.past.trampolines == w.past.trampolines
    && e.backup !in w.deopted && u.deopted == w.deopted[e.backup := w.mem[e.target].entryPoint]
    && u.deoptClasses == GroupAdd(w.deoptClasses, e.hookRecord.declaringClass, e.backup)
  }

  lemma TablesUndone(w: World, e: Event)
    requires Inv(w) && e.Hook? && Allowed(w, e) && CanHook(w, e.target, e.trampoline)
    ensures var v := ApplyHook(w, e);
            && e.target in v.mem && Holder(v, e.target) in v.mem && v.hooked[e.target].backup == e.backup
            && Undone(w, e, ApplyUnHook(v, e.target))
  {
    RemoveUndoesAdd(w.hooked, e.target, HookRecord(e.hook, e.backup));
    RemoveUndoesAdd(w.backups, e.backup, e.target);
    RemoveUndoesAdd(w.past.trampolines, e.target, e.trampoline);
    GroupRemoveUndoesAdd(w.hookedClasses, w.mem[e.target].declaringClass, e.target);
    assert e.backup !in w.backups && e.backup !in w.proxies;
  }

  lemma RecordsUndone(mem: map<Method, Record>, t: Method, h: Method, b: Method, hook: Record, backup: Record, target: Record)
    requires t in mem && h !in mem && b !in mem && h != b
    ensures var v := mem[h := hook][b := backup][t := target];
            var u := v[t := v[b].(accessFlags := v[t].accessFlags)];
            && u.Keys == mem.Keys + {h, b} && u[t] == backup.(accessFlags := target.accessFlags)
            && forall m | m in mem && m != t :: u[m] == mem[m]
  {
  }

  /** Unhooking undoes hooking: the target is as it was, except for the flags that hooking changed, no other
      method is touched, and every table is as it was except two: the deoptimization tables keep the former
      backup, under the class generated for the hook. */
  lemma UnHookUndoesHook(w: World, e: Event)
    requires Inv(w) && e.Hook? && Allowed(w, e) && CanHook(w, e.target, e.trampoline)
    ensures e.target in ApplyHook(w, e).mem && Holder(ApplyHook(w, e), e.target) in ApplyHook(w, e).mem
    ensures var u := ApplyUnHook(ApplyHook(w, e), e.target);
            && Undone(w, e, u) && u.mem.Keys == w.mem.Keys + {e.hook, e.backup}
            && (forall m | m in w.mem && m != e.target :: u.mem[m] == w.mem[m])
            && u.mem[e.target] == w.mem[e.target].(accessFlags := ApplyHook(w, e).mem[e.target].accessFlags)
  {
    TablesUndone(w, e);
    var original := w.mem[e.target];
    RecordsUndone(w.mem, e.target, e.hook, e.backup, e.hookRecord, BackupRecord(original, w.sdk),
                  HookedRecord(original, w.sdk, e.trampoline));
  }
}
