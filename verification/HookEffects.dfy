/** What each operation of LSPlant achieves and when it refuses, told by flag bits and tables alone, and which
    entry points are saved and restored around the initialization of a class. */
module HookEffects {
  import opened ArtMethods
  import opened HookWorld
  import opened HookInvariants
  import opened MapBootImage
  import opened Transparency

  lemma RecordsAdded(mem: map<Method, Record>, t: Method, h: Method, b: Method, hook: Record, backup: Record, target: Record)
    requires t in mem && h !in mem && b !in mem && h != b
    ensures var v := mem[h := hook][b := backup][t := target];
            && v.Keys == mem.Keys + {h, b} && v[h] == hook && v[b] == backup && v[t] == target
            && forall m | m in mem && m != t :: v[m] == mem[m]
  {
  }

  lemma HookedNotAbstract(r: Record, sdk: nat, trampoline: Address)
    requires 10 !in r.accessFlags
    ensures 10 !in HookedRecord(r, sdk, trampoline).accessFlags
  {
    FlagsAfterHook(r, sdk, trampoline);
  }

  lemma HookAccepts(w: World, e: Event)
    requires Inv(w) && e.Hook? && Allowed(w, e)
    ensures CanHook(w, e.target, e.trampoline) <==>
            10 !in w.mem[e.target].accessFlags && e.target !in w.hooked && e.target !in w.backups && e.trampoline != 0
    ensures !CanHook(w, e.target, e.trampoline) ==> Apply(w, e) == w
    ensures CanHook(w, e.target, e.trampoline) ==>
      var v, t, b := Apply(w, e), e.target, e.backup;
      && v.mem == w.mem[e.hook := e.hookRecord][b := BackupRecord(w.mem[t], w.sdk)]
                       [t := HookedRecord(w.mem[t], w.sdk, e.trampoline)]
      && v.hooked == w.hooked[t := HookRecord(e.hook, b)] && v.backups == w.backups[b := t]
      && v.deopted == w.deopted[b := w.mem[t].entryPoint]
      && v.proxies == (if e.isProxy then w.proxies + {b} else w.proxies)
  {
    assert e.backup !in w.deopted;
  }

  /** A method can be hooked when it is not abstract (bit 10), not hooked and no backup, and there is a
      trampoline for it. Then it enters through the trampoline, and the backup has its code and data; the
      deoptimization table holds the backup with that code. Otherwise nothing happens. */
  lemma HookTakes(w: World, e: Event)
    requires Inv(w) && e.Hook? && Allowed(w, e)
    ensures
      var v, t, b := Apply(w, e), e.target, e.backup;
      if 10 !in w.mem[t].accessFlags && t !in w.hooked && t !in w.backups && e.trampoline != 0 then
        && v.hooked == w.hooked[t := HookRecord(e.hook, b)] && v.backups == w.backups[b := t]
        && v.deopted == w.deopted[b := w.mem[t].entryPoint]
        && v.proxies == (if e.isProxy then w.proxies + {b} else w.proxies)
        && v.mem.Keys == w.mem.Keys + {e.hook, b} && v.mem[e.hook] == e.hookRecord
        && v.mem[t].entryPoint == e.trampoline && v.mem[t].data == w.mem[t].data && 10 !in v.mem[t].accessFlags
        && v.mem[b].entryPoint == w.mem[t].entryPoint && v.mem[b].data == w.mem[t].data
        && v.mem[t].declaringClass == v.mem[b].declaringClass == w.mem[t].declaringClass
        && forall m | m in w.mem && m != t :: v.mem[m] == w.mem[m]
      else v == w
  {
    HookAccepts(w, e);
    var original := w.mem[e.target];
    RecordsAdded(w.mem, e.target, e.hook, e.backup, e.hookRecord, BackupRecord(original, w.sdk),
                 HookedRecord(original, w.sdk, e.trampoline));
    if 10 !in original.accessFlags {
      HookedNotAbstract(original, w.sdk, e.trampoline);
    }
  }

  /** Unhooking a hooked method gives it the record of its backup back, with its own flags, and forgets the
      hook; unhooking any other does nothing. */
  lemma UnHookTakes(w: World, m: Method)
    requires Inv(w) && Allowed(w, UnHook(m))
    ensures
      var v := Apply(w, UnHook(m));
      if m in w.hooked then
        var b := w.hooked[m].backup;
        && b in w.mem && v.mem == w.mem[m := w.mem[b].(accessFlags := w.mem[m].accessFlags)]
        && v.hooked == w.hooked - {m} && v.backups == w.backups - {b} && v.proxies == w.proxies - {b}
        && v.deopted == w.deopted && v.deoptClasses == w.deoptClasses
      else v == w
  {
  }

  /** Deoptimizing works on every method that is not native (bit 8), once there is a bridge: its original code
      enters the bridge, no other record changes, and the table keeps the entry point the method had when it
      was first deoptimized. Otherwise nothing happens. */
  lemma DeoptimizeTakes(w: World, m: Method)
    requires Inv(w) && Allowed(w, Deoptimize(m))
    ensures
      var v := Apply(w, Deoptimize(m));
      if w.bridge != 0 && 8 !in w.mem[m].accessFlags then
        && Holder(v, m) == Holder(w, m) && Holder(v, m) in v.mem && v.mem.Keys == w.mem.Keys
        && Effective(v, m) == Effective(w, m).(entryPoint := w.bridge)
        && (forall n | n in w.mem && n != Holder(w, m) :: v.mem[n] == w.mem[n])
        && v.deopted == (if m in w.deopted then w.deopted else w.deopted[m := w.mem[m].entryPoint])
        && w.mem[m].declaringClass in v.deoptClasses && m in v.deoptClasses[w.mem[m].declaringClass]
        && v.hooked == w.hooked && v.backups == w.backups
      else v == w
  {
    DeoptimizeAccepts(w, m);
    EntrySet(w.mem, Holder(w, m), w.bridge);
  }

  lemma EntrySet(mem: map<Method, Record>, m: Method, entry: Address)
    requires m in mem
    ensures var v := SetEntry(mem, m, entry);
            && v.Keys == mem.Keys && v[m] == mem[m].(entryPoint := entry)
            && forall n | n in mem && n != m :: v[n] == mem[n]
  {
  }

  lemma DeoptimizeAccepts(w: World, m: Method)
    requires HoldersExist(w) && m in w.mem
    ensures
      var v := ApplyDeoptimize(w, m);
      if w.bridge != 0 && 8 !in w.mem[m].accessFlags then
        && v.mem == SetEntry(w.mem, Holder(w, m), w.bridge) && v.hooked == w.hooked && v.backups == w.backups
        && v.deopted == (if m in w.deopted then w.deopted else w.deopted[m := w.mem[m].entryPoint])
        && w.mem[m].declaringClass in v.deoptClasses && m in v.deoptClasses[w.mem[m].declaringClass]
      else v == w
  {
  }

  // ----- no abstract method is ever hooked

  ghost predicate NoneAbstract(w: World)
    requires w.hooked.Keys <= w.mem.Keys
  {
    forall m | m in w.hooked :: 10 !in w.mem[m].accessFlags
  }

  // The step leaves flags alone, or hooks a method that is not abstract.
  ghost predicate FlagsKept(w: World, v: World) {
    w.mem.Keys <= v.mem.Keys && forall m | m in w.mem :: v.mem[m].accessFlags == w.mem[m].accessFlags
  }

  lemma {:induction false} RestoreAllFlags(w: World, popped: Saved, order: seq<Method>)
    requires Restorable(w, popped) && forall m | m in order :: m in popped
    ensures FlagsKept(w, RestoreAll(w, popped, order))
    decreases |order|
  {
    if order != [] {
      var front := order[..|order| - 1];
      assert forall m | m in front :: m in order;
      RestoreAllFlags(w, popped, front);
      RestoreOneFlags(RestoreAll(w, popped, front), order[|order| - 1], popped[order[|order| - 1]]);
    }
  }

  lemma RestoreOneFlags(w: World, m: Method, saved: Address)
    requires m in w.mem && Holder(w, m) in w.mem
    ensures FlagsKept(w, RestoreOne(w, m, saved))
  {
  }

  lemma FixupFlags(w: World, e: Event)
    requires Inv(w) && e.Fixup? && Allowed(w, e)
    ensures FlagsKept(w, Apply(w, e)) && Apply(w, e).hooked == w.hooked
  {
    BeforeRestoreKeeps(w, e);
    RestoreAllFlags(BeforeRestore(w, e), Popped(w, e.c, e.self), e.order);
  }

  lemma OtherFlags(w: World, e: Event)
    requires HoldersExist(w) && Known(w, e) && !e.Hook? && !e.Fixup? && !e.MapMethods?
    ensures FlagsKept(w, Apply(w, e)) && Apply(w, e).hooked.Keys <= w.hooked.Keys
  {
  }

  lemma HookFlags(w: World, e: Event)
    requires Inv(w) && e.Hook? && Allowed(w, e) && NoneAbstract(w)
    ensures Apply(w, e).hooked.Keys <= Apply(w, e).mem.Keys && NoneAbstract(Apply(w, e))
  {
    HookTakes(w, e);
  }

  lemma StepHooksNoAbstract(w: World, e: Event)
    requires Inv(w) && Allowed(w, e) && NoneAbstract(w)
    ensures Apply(w, e).hooked.Keys <= Apply(w, e).mem.Keys && NoneAbstract(Apply(w, e))
  {
    match e
    case Hook(_, _, _, _, _, _) => HookFlags(w, e);
    case Fixup(_, _, _, _) => FixupFlags(w, e);
    case MapMethods(art, order) => MappingFrame(w, art, order);
    case _ => OtherFlags(w, e);
  }

  lemma {:induction false} RunHooksNoAbstract(w: World, es: seq<Event>)
    requires Inv(w) && NoneAbstract(w) && Runs(w, es)
    ensures End(w, es).hooked.Keys <= End(w, es).mem.Keys && NoneAbstract(End(w, es))
    decreases |es|
  {
    if es != [] {
      StepKeeps(w, es[0]);
      StepHooksNoAbstract(w, es[0]);
      RunHooksNoAbstract(Apply(w, es[0]), es[1..]);
    }
  }

  /** After any run, no hooked method is abstract. */
  lemma NoAbstractIsHooked(w: World, es: seq<Event>)
    requires Initial(w) && Runs(w, es)
    ensures var v := End(w, es); forall m | m in v.hooked :: m in v.mem && 10 !in v.mem[m].accessFlags
  {
    RunHooksNoAbstract(w, es);
  }

  // ----- saving and restoring entry points

  /** When a class becomes initialized, of its original methods exactly the static ones (bit 3) that are hooked or
      deoptimized have their entry point saved, and it is the one they enter through. */
  lemma SavesExactly(w: World, c: ClassDef, self: Thread, m: Method)
    requires Inv(w) && Allowed(w, SetInitialized(c, self)) && c != 0
    requires m in w.mem && m !in w.past.generated && w.mem[m].declaringClass == c
    ensures
      var v := Apply(w, SetInitialized(c, self));
      && v.mem == w.mem
      && (self in v.pending && c in v.pending[self] && m in v.pending[self][c] <==>
          3 in w.mem[m].accessFlags && (m in w.hooked || m in w.deopted))
      && (self in v.pending && c in v.pending[self] && m in v.pending[self][c] ==>
          v.pending[self][c][m] == w.mem[m].entryPoint)
  {
    assert self in w.pending ==> c !in w.pending[self];
    assert m in Lookup(w.hookedClasses, c) <==> m in w.hooked;
    assert m in Lookup(w.deoptClasses, c) <==> m in w.deopted;
    assert 3 in w.mem[m].accessFlags <==> w.mem[m].IsStatic();
    assert m in ToSave(w, c) <==> 3 in w.mem[m].accessFlags && (m in w.hooked || m in w.deopted);
  }

  /** A method that is neither hooked nor a live backup is restored to the entry point saved for it, except that
      a deoptimized one that ART moved away from the bridge, and that is not native (bit 8), enters the bridge.
      A method nothing was saved for is left alone. */
  lemma {:induction false} RestoredExactly(w: World, popped: Saved, order: seq<Method>, m: Method)
    requires Restorable(w, popped) && m in w.mem && m !in w.hooked && forall n | n in w.hooked :: w.hooked[n].backup != m
    requires forall i, j | 0 <= i < j < |order| :: order[i] != order[j]
    requires forall n | n in order :: n in popped
    ensures
      RestoreAll(w, popped, order).mem[m] ==
      if m !in order then w.mem[m]
      else w.mem[m].(entryPoint :=
        if m in w.deopted && w.mem[m].entryPoint != w.bridge && w.bridge != 0 && 8 !in w.mem[m].accessFlags
        then w.bridge else popped[m])
    decreases |order|
  {
    if order != [] {
      var front, last := order[..|order| - 1], order[|order| - 1];
      LastElement(order);
      RestoredExactly(w, popped, front, m);
      RestoreLeaves(RestoreAll(w, popped, front), last, popped[last], m);
      assert m in order <==> m in front || m == last;
    }
  }

  lemma RestoreLeaves(w: World, restored: Method, saved: Address, m: Method)
    requires restored in w.mem && Holder(w, restored) in w.mem && m in w.mem && m !in w.hooked
    requires restored in w.hooked ==> w.hooked[restored].backup != m
    ensures
      RestoreOne(w, restored, saved).mem[m] ==
      if m != restored then w.mem[m]
      else w.mem[m].(entryPoint :=
        if m in w.deopted && w.mem[m].entryPoint != w.bridge && w.bridge != 0 && 8 !in w.mem[m].accessFlags
        then w.bridge else saved)
  {
  }

  // What ART has left in a method when the restoration begins.
  function Linked(w: World, e: Event, m: Method): Address
    requires e.Fixup? && m in w.mem
  {
    if m in e.writes then e.writes[m] else w.mem[m].entryPoint
  }

  /** The fixup of a class, or of all classes of a thread when it names none, takes out what was saved for it,
      whatever thread saved it. A hooked method enters again where it did when it was saved; so does a
      deoptimized one, or through the bridge if ART moved it. */
  lemma FixupRestores(w: World, e: Event, t: Thread, d: ClassDef, m: Method)
    requires Inv(w) && e.Fixup? && Allowed(w, e)
    requires t in w.pending && d in w.pending[t] && m in w.pending[t][d]
    requires d == e.c || (e.c == 0 && t == e.self && t != 0)
    ensures
      var v, saved := Apply(w, e), w.pending[t][d][m];
      && m in w.mem && m in v.mem
      && !(t in v.pending && d in v.pending[t])
      && (m in w.hooked ==> v.mem[m].entryPoint == saved)
      && (m !in w.hooked && m !in w.backups ==>
            v.mem[m].entryPoint ==
            if m in w.deopted && Linked(w, e, m) != w.bridge && w.bridge != 0 && 8 !in w.mem[m].accessFlags
            then w.bridge else saved)
  {
    assert EntryFits(w, d, m, w.pending[t][d][m]);
    var popped, u := Popped(w, e.c, e.self), BeforeRestore(w, e);
    assert d in w.past.window && w.past.window[d] == t && Savedly(w, m);
    assert m in popped && popped[m] == w.pending[t][d][m];
    FixupKeeps(w, e);
    BeforeRestoreKeeps(w, e);
    if m !in w.hooked && m !in w.backups {
      assert forall n | n in w.hooked :: w.hooked[n].backup in w.backups;
      RestoredExactly(u, popped, e.order, m);
    }
  }

  /** What was saved for other classes and threads stays. */
  lemma FixupKeepsOthers(w: World, e: Event, t: Thread, d: ClassDef)
    requires Inv(w) && e.Fixup? && Allowed(w, e) && t in w.pending && d in w.pending[t]
    requires d != e.c && !(e.c == 0 && t == e.self && t != 0)
    ensures var v := Apply(w, e); t in v.pending && d in v.pending[t] && v.pending[t][d] == w.pending[t][d]
  {
    BeforeRestoreKeeps(w, e);
    assert d in w.pending[t] - {e.c};
  }

  // ----- what ART changes

  // The record that counts for `m` has the entry point, unless `m` is in the deoptimization table; nothing else
  // changes.
  ghost predicate EntryTaken(w: World, v: World, m: Method, entry: Address)
    requires HoldersExist(w) && m in w.mem
  {
    if m in w.deopted then v == w
    else
      && Holder(v, m) == Holder(w, m) && v.mem.Keys == w.mem.Keys
      && Effective(v, m) == Effective(w, m).(entryPoint := entry)
      && forall n | n in w.mem && n != Holder(w, m) :: v.mem[n] == w.mem[n]
  }

  lemma EntrySetTaken(w: World, v: World, m: Method, entry: Address)
    requires HoldersExist(w) && m in w.mem && m !in w.deopted
    requires v == w.(mem := SetEntry(w.mem, Holder(w, m), entry))
    ensures EntryTaken(w, v, m, entry)
  {
  }

  /** A code update or a choice of entry point reaches the original code of every method that is not in the
      deoptimization table, and none that is; no trampoline moves. */
  lemma EntryChangesTake(w: World, m: Method, quick: Address, entry: Address)
    requires Inv(w) && m in w.mem && quick !in w.past.issued && entry !in w.past.issued
    ensures EntryTaken(w, Apply(w, InitializeCode(m, quick, entry)), m, entry)
    ensures EntryTaken(w, Apply(w, UpdateToInterpreter(m, entry)), m, entry)
    ensures EntryTaken(w, Apply(w, UpdateCode(m, entry)), m, entry)
  {
    ReceiverOfEntry(w, m, quick);
    ReceiverOfEntry(w, m, 0);
    if m !in w.deopted {
      EntrySetTaken(w, Apply(w, InitializeCode(m, quick, entry)), m, entry);
      EntrySetTaken(w, Apply(w, UpdateToInterpreter(m, entry)), m, entry);
      UpdateTaken(w, m, entry);
    }
  }

  lemma UpdateTaken(w: World, m: Method, code: Address)
    requires HoldersExist(w) && m in w.mem && m !in w.deopted && (m in w.hooked ==> w.mem[m].entryPoint != code)
    ensures EntryTaken(w, ApplyUpdateCode(w, m, code), m, code)
  {
    if w.mem[m].entryPoint == code {
      assert w.mem == SetEntry(w.mem, m, code);
    }
    EntrySetTaken(w, ApplyUpdateCode(w, m, code), m, code);
  }

  /** Native code reaches the record that counts, deoptimized or not. */
  lemma NativeTakes(w: World, m: Method, fn: Address)
    requires Inv(w) && m in w.mem
    ensures
      var v := Apply(w, SetNative(m, fn));
      && Holder(v, m) == Holder(w, m) && Holder(v, m) in v.mem && v.mem.Keys == w.mem.Keys
      && Effective(v, m) == Effective(w, m).(data := fn)
      && forall n | n in w.mem && n != Holder(w, m) :: v.mem[n] == w.mem[n]
  {
  }

  /** A method that is neither hooked nor deoptimized enters after a fixup where ART wants it. */
  lemma FixupLinks(w: World, e: Event, m: Method)
    requires Inv(w) && e.Fixup? && Allowed(w, e) && m in w.mem
    requires m !in w.hooked && m !in w.deopted
    ensures m in Apply(w, e).mem && Apply(w, e).mem[m] == w.mem[m].(entryPoint := Linked(w, e, m))
  {
    BeforeRestoreKeeps(w, e);
    assert forall n | n in w.hooked :: w.hooked[n].backup in w.backups;
    RestoredExactly(BeforeRestore(w, e), Popped(w, e.c, e.self), e.order, m);
    PoppedTracked(w, e.c, e.self);
  }

  lemma PoppedTracked(w: World, c: ClassDef, self: Thread)
    requires w.past.trampolines.Keys == w.hooked.Keys && PendingFits(w)
    ensures Popped(w, c, self).Keys <= w.hooked.Keys + w.deopted.Keys
  {
    PoppedFitsFromPending(w, c, self);
    var popped := Popped(w, c, self);
    forall m | m in popped ensures m in w.hooked || m in w.deopted {
      assert EntryFits(w, w.mem[m].declaringClass, m, popped[m]);
    }
  }
}
