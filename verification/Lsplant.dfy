/** The tables and the method records as LSPlant holds them: updated in place, operation by operation. */
module Lsplant {
  import opened Wrappers
  import opened ArtMethods
  import opened HookWorld
  import opened HookInvariants
  import opened MapBootImage

  // ----- the steps, field by field

  lemma HookFields(w: World, v: World, e: Event, r: Record, c: ClassDef)
    requires e.Hook? && e.target in w.mem && CanHook(w, e.target, e.trampoline)
    requires r == w.mem[e.target] && c == e.hookRecord.declaringClass
    requires v.sdk == w.sdk && v.bridge == w.bridge && v.pending == w.pending
    requires v.mem == w.mem[e.hook := e.hookRecord][e.backup := BackupRecord(r, w.sdk)]
                           [e.target := HookedRecord(r, w.sdk, e.trampoline)]
    requires v.hooked == w.hooked[e.target := HookRecord(e.hook, e.backup)]
    requires v.backups == w.backups[e.backup := e.target]
    requires v.hookedClasses == GroupAdd(w.hookedClasses, r.declaringClass, e.target)
    requires v.deopted == if e.backup in w.deopted then w.deopted else w.deopted[e.backup := r.entryPoint]
    requires v.deoptClasses == GroupAdd(w.deoptClasses, c, e.backup)
    requires v.proxies == if e.isProxy then w.proxies + {e.backup} else w.proxies
    requires v.past == w.past.(generated := w.past.generated + {e.hook, e.backup},
                               hookerClasses := w.past.hookerClasses + {c},
                               trampolines := w.past.trampolines[e.target := e.trampoline],
                               issued := w.past.issued + {e.trampoline})
    ensures v == ApplyHook(w, e)
  {
  }

  lemma UnHookFields(w: World, v: World, t: Method, b: Method)
    requires t in w.mem && t in w.hooked && b == w.hooked[t].backup && b in w.mem
    requires v.sdk == w.sdk && v.bridge == w.bridge && v.pending == w.pending
    requires v.mem == w.mem[t := w.mem[b].(accessFlags := w.mem[t].accessFlags)]
    requires v.hooked == w.hooked - {t} && v.backups == w.backups - {b} && v.proxies == w.proxies - {b}
    requires v.hookedClasses == GroupRemove(w.hookedClasses, w.mem[t].declaringClass, t)
    requires v.deopted == w.deopted && v.deoptClasses == w.deoptClasses
    requires v.past == w.past.(trampolines := w.past.trampolines - {t})
    ensures v == ApplyUnHook(w, t)
  {
  }

  lemma DeoptimizeFields(w: World, v: World, m: Method)
    requires m in w.mem && Holder(w, m) in w.mem && w.bridge != 0 && !w.mem[m].IsNative()
    requires v.sdk == w.sdk && v.bridge == w.bridge && v.pending == w.pending
    requires v.mem == SetEntry(w.mem, Holder(w, m), w.bridge)
    requires v.hooked == w.hooked && v.backups == w.backups && v.proxies == w.proxies
    requires v.hookedClasses == w.hookedClasses
    requires v.deopted == if m in w.deopted then w.deopted else w.deopted[m := w.mem[m].entryPoint]
    requires v.deoptClasses == GroupAdd(w.deoptClasses, w.mem[m].declaringClass, m)
    requires v.past == w.past.(tainted := w.past.tainted + {m} + (if m in w.backups then {w.backups[m]} else {}),
                               sunk := if m in w.backups then w.past.sunk else w.past.sunk + {m})
    ensures v == ApplyDeoptimize(w, m)
  {
  }

  lemma SetInitializedFields(w: World, v: World, c: ClassDef, self: Thread)
    requires c != 0 && v.sdk == w.sdk && v.bridge == w.bridge && v.mem == w.mem
    requires v.hooked == w.hooked && v.backups == w.backups && v.proxies == w.proxies
    requires v.hookedClasses == w.hookedClasses && v.deopted == w.deopted && v.deoptClasses == w.deoptClasses
    requires v.pending == AddPending(w.pending, self, c, ToSave(w, c))
    requires v.past == w.past.(window := w.past.window[c := self])
    ensures v == ApplySetInitialized(w, c, self)
  {
  }

  lemma BeforeRestoreFields(w: World, u: World, c: ClassDef, self: Thread, writes: map<Method, Address>)
    requires u.sdk == w.sdk && u.bridge == w.bridge && u.mem == Written(w.mem, writes)
    requires u.hooked == w.hooked && u.backups == w.backups && u.proxies == w.proxies
    requires u.hookedClasses == w.hookedClasses && u.deopted == w.deopted && u.deoptClasses == w.deoptClasses
    requires u.pending == PendingAfter(w.pending, c, self)
    requires u.past == w.past.(window := WindowAfter(w, c, self))
    ensures forall order | Enumerates(order, Popped(w, c, self).Keys) ::
              u == BeforeRestore(w, Fixup(c, self, writes, order))
  {
  }

  // ----- the entries taken out of the pending ones

  lemma PoppedClass(w: World, c: ClassDef, self: Thread)
    requires c != 0 && w.past.trampolines.Keys == w.hooked.Keys && PendingFits(w)
    ensures (forall t | t in w.pending :: c !in w.pending[t]) ==> Popped(w, c, self) == map[]
    ensures forall t | t in w.pending && c in w.pending[t] :: Popped(w, c, self) == w.pending[t][c]
  {
    forall t | t in w.pending && c in w.pending[t]
      ensures Popped(w, c, self) == w.pending[t][c]
    {
      forall m | m in w.pending[t][c]
        ensures m in Popped(w, c, self)
      {
        assert EntryFits(w, c, m, w.pending[t][c][m]);
      }
    }
    if forall t | t in w.pending :: c !in w.pending[t] {
      forall m
        ensures m !in Popped(w, c, self)
      {
      }
    }
  }

  // `whole` holds the entries of the given classes, and nothing else.
  ghost predicate Union(parts: map<ClassDef, Saved>, classes: set<ClassDef>, whole: Saved)
    requires classes <= parts.Keys
  {
    && (forall c, m | c in classes && m in parts[c] :: m in whole && whole[m] == parts[c][m])
    && (forall m | m in whole :: exists c :: c in classes && m in parts[c])
  }

  lemma PoppedThread(w: World, self: Thread, whole: Saved)
    requires self != 0 && w.past.trampolines.Keys == w.hooked.Keys && PendingFits(w)
    requires self !in w.pending ==> whole == map[]
    requires self in w.pending ==> Union(w.pending[self], w.pending[self].Keys, whole)
    ensures whole == Popped(w, 0, self)
  {
    forall m | m in whole
      ensures m in Popped(w, 0, self) && Popped(w, 0, self)[m] == whole[m]
    {
      var c :| c in w.pending[self] && m in w.pending[self][c];
      assert EntryFits(w, c, m, w.pending[self][c][m]);
    }
    forall m | m in Popped(w, 0, self)
      ensures m in whole
    {
      assert w.mem[m].declaringClass in w.pending[self];
    }
  }

  lemma EnumeratesMore(order: seq<Method>, all: set<Method>, todo: set<Method>, m: Method)
    requires todo <= all && m in todo && Enumerates(order, all - todo)
    ensures Enumerates(order + [m], all - (todo - {m}))
  {
    assert all - (todo - {m}) == all - todo + {m};
  }

  lemma RestoreAllAppend(u: World, popped: Saved, order: seq<Method>, m: Method)
    requires Restorable(u, popped) && m in popped && forall n | n in order :: n in popped
    ensures forall n | n in order + [m] :: n in popped
    ensures RestoreAll(u, popped, order + [m]) == RestoreOne(RestoreAll(u, popped, order), m, popped[m])
  {
    assert (order + [m])[..|order + [m]| - 1] == order;
  }

  lemma FinishAllAppend(u: World, saved: map<Method, Remembered>, order: seq<Method>, m: Method)
    requires Finishable(u, saved) && m in saved && forall n | n in order :: n in saved
    ensures forall n | n in order + [m] :: n in saved
    ensures FinishAll(u, saved, order + [m]) == FinishOne(FinishAll(u, saved, order), saved, m)
  {
    assert (order + [m])[..|order + [m]| - 1] == order;
  }

  // The memory, and what is remembered, when the deoptimized methods but those in `todo` show the entry
  // points they had.
  ghost function Shown(mem: map<Method, Record>, deopted: map<Method, Address>, todo: set<Method>): map<Method, Record> {
    map m | m in mem :: if m in deopted && m !in todo then mem[m].(entryPoint := deopted[m]) else mem[m]
  }

  ghost function DeoptRemembered(mem: map<Method, Record>, deopted: map<Method, Address>, todo: set<Method>)
    : map<Method, Remembered>
    requires deopted.Keys <= mem.Keys
  {
    map m | m in deopted && m !in todo :: Remembered(None, mem[m].data, mem[m].entryPoint)
  }

  lemma ShownMore(mem: map<Method, Record>, deopted: map<Method, Address>, todo: set<Method>, m: Method)
    requires deopted.Keys <= mem.Keys && m in todo && m in deopted
    ensures var before := Shown(mem, deopted, todo);
            before[m] == mem[m] && Shown(mem, deopted, todo - {m}) == SetEntry(before, m, deopted[m])
    ensures DeoptRemembered(mem, deopted, todo - {m}) ==
            DeoptRemembered(mem, deopted, todo)[m := Remembered(None, mem[m].data, mem[m].entryPoint)]
  {
  }

  // The records once the hooked methods in `done` have borrowed from their backups.
  ghost function Lent(mem: map<Method, Record>, hooked: map<Method, HookRecord>, done: set<Method>): map<Method, Record>
    requires forall m | m in hooked :: hooked[m].backup in mem
  {
    map m | m in mem :: if m in hooked && m in done
                        then mem[m].(data := mem[hooked[m].backup].data, entryPoint := mem[hooked[m].backup].entryPoint)
                        else mem[m]
  }

  ghost function HookedRemembered(mem: map<Method, Record>, hooked: map<Method, HookRecord>, done: set<Method>)
    : map<Method, Remembered>
    requires forall m | m in hooked :: m in mem
  {
    map m | m in hooked && m in done :: Remembered(Some(hooked[m].backup), mem[m].data, mem[m].entryPoint)
  }

  lemma LentMore(mem: map<Method, Record>, hooked: map<Method, HookRecord>, todo: set<Method>, m: Method,
                 shown: map<Method, Remembered>)
    requires todo <= hooked.Keys && m in todo
    requires forall n | n in hooked :: n in mem && hooked[n].backup in mem && hooked[n].backup !in hooked
    ensures var lent, b := Lent(mem, hooked, hooked.Keys - todo), hooked[m].backup;
            && lent[m] == mem[m] && lent[b] == mem[b]
            && Lent(mem, hooked, hooked.Keys - (todo - {m}))
               == lent[m := mem[m].(data := mem[b].data, entryPoint := mem[b].entryPoint)]
    ensures shown + HookedRemembered(mem, hooked, hooked.Keys - (todo - {m}))
              == (shown + HookedRemembered(mem, hooked, hooked.Keys - todo))
                 [m := Remembered(Some(hooked[m].backup), mem[m].data, mem[m].entryPoint)]
  {
  }

  lemma RememberedInTwoSteps(w: World, shown: map<Method, Remembered>)
    requires HoldersExist(w) && w.deopted.Keys <= w.mem.Keys
    requires shown == map m | m in w.deopted :: Remembered(None, w.mem[m].data, w.mem[m].entryPoint)
    ensures shown + HookedRemembered(Undeoptimized(w), w.hooked, w.hooked.Keys) == RememberedMethods(w)
  {
  }

  // The next element a loop over a table visits.
  method AnyOf(s: set<int>) returns (x: int)
    requires s != {}
    ensures x in s
  {
    if forall y :: y !in s {
      assert false;
    }
    x :| x in s;
  }

  class Lsplant {
    const sdk: nat
    const bridge: Address

    // ART's method records by address.
    var heap: map<Method, ArtMethod>

    var hookedMethods: map<Method, HookRecord>
    var backupedMethods: map<Method, Method>
    var hookedClasses: map<ClassDef, set<Method>>
    var deoptimizedMethods: map<Method, Address>
    var deoptimizedClasses: map<ClassDef, set<Method>>
    var backupedProxyMethods: set<Method>
    var backupMethods: map<Thread, map<ClassDef, Saved>>
    ghost var past: Past

    // Different addresses hold different records.
    ghost predicate Valid()
      reads this`heap
    {
      forall p, q | p in heap && q in heap && p != q :: heap[p] != heap[q]
    }

    ghost function Mem(): map<Method, Record>
      reads this`heap, heap.Values
    {
      map m | m in heap :: heap[m].Contents()
    }

    ghost function State(): World
      reads this, heap.Values
    {
      World(sdk, bridge, Mem(), hookedMethods, backupedMethods, hookedClasses, deoptimizedMethods,
            deoptimizedClasses, backupedProxyMethods, backupMethods, past)
    }

    // ----- access to the records

    twostate lemma MemChangedAt(m: Method)
      requires old(Valid()) && heap == old(heap) && m in heap
      requires forall p | p in old(heap) && p != m :: unchanged(old(heap)[p])
      ensures Mem() == old(Mem())[m := heap[m].Contents()]
    {
      assert forall p | p in old(heap) && p != m :: old(heap)[p].Contents() == old(heap[p].Contents());
    }

    method SetEntryPoint(m: Method, entry: Address)
      requires Valid() && m in heap
      modifies heap[m]
      ensures Mem() == SetEntry(old(Mem()), m, entry)
    {
      heap[m].SetEntryPoint(entry);
      MemChangedAt(m);
    }

    method SetRecordData(m: Method, pointer: Address)
      requires Valid() && m in heap
      modifies heap[m]
      ensures Mem() == old(Mem())[m := old(Mem())[m].(data := pointer)]
    {
      heap[m].SetData(pointer);
      MemChangedAt(m);
    }

    // ----- hooking

    method DoHook(target: Method, backup: Method, entrypoint: Address) returns (done: bool)
      requires Valid() && target in heap && backup in heap && target != backup
      modifies heap[target], heap[backup]
      ensures done == (entrypoint != 0)
      ensures done ==> Mem() == old(Mem())[backup := BackupRecord(old(Mem())[target], sdk)]
                                          [target := HookedRecord(old(Mem())[target], sdk, entrypoint)]
      ensures !done ==> Mem() == old(Mem())
    {
      if entrypoint == 0 {
        return false;
      }
      var t, b := heap[target], heap[backup];
      t.SetNonIntrinsic(sdk);
      t.BackupTo(b, sdk);
      t.SetNonCompilable(sdk);
      t.SetEntryPoint(entrypoint);
      b.SetNonConstructor();
      assert forall p | p in heap && p != target && p != backup :: heap[p] != t && heap[p] != b;
      assert forall p | p in heap && p != target && p != backup :: heap[p].Contents() == old(heap[p].Contents());
      return true;
    }

    method DoUnHook(target: Method, backup: Method)
      requires Valid() && target in heap && backup in heap && target != backup
      modifies heap[target]
      ensures Mem() == old(Mem())[target := old(Mem())[backup].(accessFlags := old(Mem())[target].accessFlags)]
    {
      var t := heap[target];
      var flags := t.accessFlags;
      t.CopyFrom(heap[backup]);
      t.SetAccessFlags(flags);
      MemChangedAt(target);
    }

    // The methods of a generated class come into being.
    method AddGenerated(hook: Method, backup: Method, stub: Record)
      requires Valid() && hook !in heap && backup !in heap && hook != backup
      modifies this`heap
      ensures Valid() && heap.Keys == old(heap).Keys + {hook, backup}
      ensures fresh(heap[hook]) && fresh(heap[backup]) && forall m | m in old(heap) :: heap[m] == old(heap)[m]
      ensures Mem() == old(Mem())[hook := stub][backup := stub]
    {
      var h := new ArtMethod(stub);
      var b := new ArtMethod(stub);
      heap := heap[hook := h][backup := b];
    }

    method InstallHook(target: Method, hook: Method, backup: Method, stub: Record, entrypoint: Address)
      requires Valid() && target in heap && hook !in heap && backup !in heap && hook != backup && entrypoint != 0
      modifies this`heap, heap[target]
      ensures Valid() && target in heap && backup in heap
      ensures Mem() == old(Mem())[hook := stub][backup := BackupRecord(old(Mem())[target], sdk)]
                                 [target := HookedRecord(old(Mem())[target], sdk, entrypoint)]
    {
      AddGenerated(hook, backup, stub);
      var done := DoHook(target, backup, entrypoint);
    }

    // The part of Hook() after the stub class exists: `hook` is its method, `backup` the address of its
    // backup, and `entrypoint` the new trampoline, 0 when there is none.
    method HookMethod(target: Method, hook: Method, backup: Method, stub: Record, entrypoint: Address, isProxy: bool)
      returns (done: bool)
      requires Valid() && target in heap && hook !in heap && backup !in heap && hook != backup
      requires backup !in backupedMethods
      modifies this, heap[target]
      ensures Valid() && done == CanHook(old(State()), target, entrypoint)
      ensures done <==> 10 !in old(Mem())[target].accessFlags && entrypoint != 0 &&
                        target !in old(hookedMethods) && target !in old(backupedMethods)
      ensures State() == ApplyHook(old(State()), Hook(target, hook, backup, stub, entrypoint, isProxy))
    {
      if heap[target].Contents().IsAbstract() {
        return false;
      }
      if target in hookedMethods || target in backupedMethods {
        return false;
      }
      if entrypoint == 0 {
        return false;
      }
      HookHookable(target, hook, backup, stub, entrypoint, isProxy);
      return true;
    }

    method HookHookable(target: Method, hook: Method, backup: Method, stub: Record, entrypoint: Address, isProxy: bool)
      requires Valid() && target in heap && hook !in heap && backup !in heap && hook != backup
      requires CanHook(State(), target, entrypoint) && backup !in backupedMethods
      modifies this, heap[target]
      ensures Valid()
      ensures State() == ApplyHook(old(State()), Hook(target, hook, backup, stub, entrypoint, isProxy))
    {
      ghost var w := State();
      InstallHook(target, hook, backup, stub, entrypoint);
      RecordGenerated(target, hook, backup, stub.declaringClass, entrypoint, isProxy);
      HookFields(w, State(), Hook(target, hook, backup, stub, entrypoint, isProxy), w.mem[target], stub.declaringClass);
    }

    method RecordGenerated(target: Method, hook: Method, backup: Method, c: ClassDef, entrypoint: Address, isProxy: bool)
      requires target in heap && backup in heap && target !in hookedMethods && backup !in backupedMethods
      modifies this`hookedClasses, this`hookedMethods, this`backupedMethods, this`backupedProxyMethods,
               this`deoptimizedClasses, this`deoptimizedMethods, this`past
      ensures hookedClasses == GroupAdd(old(hookedClasses), old(Mem())[target].declaringClass, target)
      ensures hookedMethods == old(hookedMethods)[target := HookRecord(hook, backup)]
      ensures backupedMethods == old(backupedMethods)[backup := target]
      ensures backupedProxyMethods == if isProxy then old(backupedProxyMethods) + {backup} else old(backupedProxyMethods)
      ensures deoptimizedClasses == GroupAdd(old(deoptimizedClasses), c, backup)
      ensures deoptimizedMethods == if backup in old(deoptimizedMethods) then old(deoptimizedMethods)
                                    else old(deoptimizedMethods)[backup := old(Mem())[backup].entryPoint]
      ensures past == old(past).(generated := old(past).generated + {hook, backup},
                                 hookerClasses := old(past).hookerClasses + {c},
                                 trampolines := old(past).trampolines[target := entrypoint],
                                 issued := old(past).issued + {entrypoint})
    {
      RecordHooked(target, hook, backup, heap[target].declaringClass, entrypoint);
      if isProxy {
        backupedProxyMethods := backupedProxyMethods + {backup};
      }
      RecordDeoptimized(c, backup, heap[backup].entryPoint);
      past := past.(generated := past.generated + {hook, backup}, hookerClasses := past.hookerClasses + {c});
    }

    method RecordHooked(target: Method, hook: Method, backup: Method, c: ClassDef, entrypoint: Address)
      modifies this`hookedClasses, this`hookedMethods, this`backupedMethods, this`past
      ensures hookedClasses == GroupAdd(old(hookedClasses), c, target)
      ensures hookedMethods == if target in old(hookedMethods) then old(hookedMethods)
                               else old(hookedMethods)[target := HookRecord(hook, backup)]
      ensures backupedMethods == if backup in old(backupedMethods) then old(backupedMethods)
                                 else old(backupedMethods)[backup := target]
      ensures past == old(past).(trampolines := old(past).trampolines[target := entrypoint],
                                 issued := old(past).issued + {entrypoint})
    {
      if c in hookedClasses {
        hookedClasses := hookedClasses[c := hookedClasses[c] + {target}];
      } else {
        hookedClasses := hookedClasses[c := {target}];
        assert {} + {target} == {target};
      }
      if target !in hookedMethods {
        hookedMethods := hookedMethods[target := HookRecord(hook, backup)];
      }
      if backup !in backupedMethods {
        backupedMethods := backupedMethods[backup := target];
      }
      past := past.(trampolines := past.trampolines[target := entrypoint], issued := past.issued + {entrypoint});
    }

    method RecordDeoptimized(c: ClassDef, m: Method, original: Address)
      modifies this`deoptimizedClasses, this`deoptimizedMethods
      ensures deoptimizedClasses == GroupAdd(old(deoptimizedClasses), c, m)
      ensures deoptimizedMethods == if m in old(deoptimizedMethods) then old(deoptimizedMethods)
                                    else old(deoptimizedMethods)[m := original]
    {
      deoptimizedClasses := deoptimizedClasses[c := (if c in deoptimizedClasses then deoptimizedClasses[c] else {}) + {m}];
      if m !in deoptimizedMethods {
        deoptimizedMethods := deoptimizedMethods[m := original];
      }
    }

    method UnHook(target: Method) returns (done: bool)
      requires Valid() && HoldersExist(State()) && TablesInverse(State()) && target in heap
      modifies this, heap[target]
      ensures heap == old(heap)
      ensures State() == ApplyUnHook(old(State()), target)
      ensures done == (target in old(hookedMethods))
    {
      ghost var w := State();
      if target !in hookedMethods {
        return false;
      }
      var backup := hookedMethods[target].backup;
      RecordUnhooked(target, backup, heap[target].declaringClass);
      DoUnHook(target, backup);
      UnHookFields(w, State(), target, backup);
      return true;
    }

    method RecordUnhooked(target: Method, backup: Method, c: ClassDef)
      modifies this`hookedClasses, this`hookedMethods, this`backupedMethods, this`backupedProxyMethods, this`past
      ensures hookedClasses == GroupRemove(old(hookedClasses), c, target)
      ensures hookedMethods == old(hookedMethods) - {target}
      ensures backupedMethods == old(backupedMethods) - {backup}
      ensures backupedProxyMethods == old(backupedProxyMethods) - {backup}
      ensures past == old(past).(trampolines := old(past).trampolines - {target})
    {
      hookedMethods := hookedMethods - {target};
      backupedMethods := backupedMethods - {backup};
      backupedProxyMethods := backupedProxyMethods - {backup};
      if c in hookedClasses {
        var rest := hookedClasses[c] - {target};
        if rest == {} {
          hookedClasses := hookedClasses - {c};
        } else {
          hookedClasses := hookedClasses[c := rest];
        }
      }
      past := past.(trampolines := past.trampolines - {target});
    }

    method Deoptimize(m: Method) returns (done: bool)
      requires Valid() && HoldersExist(State()) && m in heap
      modifies this, heap.Values
      ensures heap == old(heap)
      ensures State() == ApplyDeoptimize(old(State()), m)
      ensures done <==> bridge != 0 && 8 !in old(Mem())[m].accessFlags
    {
      if bridge == 0 {
        return false;
      }
      if heap[m].Contents().IsNative() {
        return false;
      }
      DeoptimizeManaged(m);
      return true;
    }

    method DeoptimizeManaged(m: Method)
      requires Valid() && HoldersExist(State()) && m in heap && bridge != 0 && !Mem()[m].IsNative()
      modifies this`deoptimizedMethods, this`deoptimizedClasses, this`past, heap.Values
      ensures State() == ApplyDeoptimize(old(State()), m)
    {
      ghost var w := State();
      RecordDeoptimized(heap[m].declaringClass, m, heap[m].entryPoint);
      past := past.(tainted := past.tainted + {m} + (if m in backupedMethods then {backupedMethods[m]} else {}),
                    sunk := if m in backupedMethods then past.sunk else past.sunk + {m});
      SetEntryPoint(if m in hookedMethods then hookedMethods[m].backup else m, bridge);
      DeoptimizeFields(w, State(), m);
    }

    // ----- intercepted updates

    // `code` is what ART is about to install; `heap[m]` receives it first.
    method UpdateMethodsCode(m: Method, code: Address)
      requires Valid() && HoldersExist(State()) && m in heap
      requires m in hookedMethods ==> hookedMethods[m].backup != m
      modifies heap.Values
      ensures State() == ApplyUpdateCode(old(State()), m, code)
    {
      var oldCode := heap[m].entryPoint;
      SetEntryPoint(m, code);
      if oldCode != code {
        HandleMethodCodeUpdated(m, oldCode, code);
      }
    }

    method HandleMethodCodeUpdated(m: Method, oldCode: Address, newCode: Address)
      requires Valid() && m in heap && (m in hookedMethods ==> hookedMethods[m].backup in heap)
      modifies heap.Values
      ensures Mem() == if m in hookedMethods
                       then var restored := SetEntry(old(Mem()), m, oldCode);
                            if m in deoptimizedMethods then restored
                            else SetEntry(restored, hookedMethods[m].backup, newCode)
                       else if m in deoptimizedMethods then SetEntry(old(Mem()), m, oldCode)
                       else old(Mem())
    {
      var deoptimized := m in deoptimizedMethods;
      if m in hookedMethods {
        SetEntryPoint(m, oldCode);
        if !deoptimized {
          SetEntryPoint(hookedMethods[m].backup, newCode);
        }
      } else if deoptimized {
        SetEntryPoint(m, oldCode);
      }
    }

    method MaybeUseBackupMethod(m: Method, quick: Address) returns (r: Method)
      requires m in heap && HoldersExist(State())
      ensures r == MaybeUseBackup(State(), m, quick)
    {
      if m in hookedMethods && heap[m].entryPoint != quick {
        return hookedMethods[m].backup;
      }
      return m;
    }

    // `entry` is what ART chooses when it is asked to initialize the code of a method with `quick`.
    method InitializeMethodsCode(m: Method, quick: Address, entry: Address)
      requires Valid() && HoldersExist(State()) && m in heap
      modifies heap.Values
      ensures State() == ApplyInitialize(old(State()), m, quick, entry)
    {
      if m in deoptimizedMethods {
        return;
      }
      var holder := MaybeUseBackupMethod(m, quick);
      SetEntryPoint(holder, entry);
    }

    method RegisterNative(m: Method, fn: Address)
      requires Valid() && HoldersExist(State()) && m in heap
      modifies heap.Values
      ensures State() == ApplySetNative(old(State()), m, fn)
    {
      var holder := m;
      if m in hookedMethods {
        holder := hookedMethods[m].backup;
      }
      SetRecordData(holder, fn);
    }

    // ----- class initialization

    // Before ART marks the class initialized.
    method BackupClassMethods(c: ClassDef, self: Thread)
      requires Valid()
      requires c in hookedClasses ==> hookedClasses[c] <= heap.Keys
      requires c in deoptimizedClasses ==> deoptimizedClasses[c] <= heap.Keys
      modifies this`backupMethods, this`past
      ensures State() == ApplySetInitialized(old(State()), c, self)
    {
      if c == 0 {
        return;
      }
      ghost var w := State();
      var saved := StaticEntries(c);
      if saved != map[] {
        var ofSelf: map<ClassDef, Saved> := if self in backupMethods then backupMethods[self] else map[];
        if c !in ofSelf {
          ofSelf := ofSelf[c := saved];
          backupMethods := backupMethods[self := ofSelf];
        }
      }
      past := past.(window := past.window[c := self]);
      SetInitializedFields(w, State(), c, self);
    }

    // The entry points of the static methods of the class that are hooked or deoptimized.
    method StaticEntries(c: ClassDef) returns (saved: Saved)
      requires c in hookedClasses ==> hookedClasses[c] <= heap.Keys
      requires c in deoptimizedClasses ==> deoptimizedClasses[c] <= heap.Keys
      ensures saved == ToSave(State(), c)
    {
      saved := map[];
      if c in hookedClasses {
        saved := SaveStatic(hookedClasses[c], saved);
      }
      if c in deoptimizedClasses {
        saved := SaveStatic(deoptimizedClasses[c], saved);
      }
      SavedIsToSave(c, saved);
    }

    lemma SavedIsToSave(c: ClassDef, saved: Saved)
      requires forall m :: m in saved <==>
                 m in Lookup(hookedClasses, c) + Lookup(deoptimizedClasses, c) && m in heap && heap[m].Contents().IsStatic()
      requires forall m | m in saved :: m in heap && saved[m] == heap[m].entryPoint
      ensures saved == ToSave(State(), c)
    {
      var w := State();
      assert forall m | m in heap :: w.mem[m] == heap[m].Contents();
      forall m
        ensures m in saved <==> m in ToSave(w, c)
        ensures m in saved ==> saved[m] == ToSave(w, c)[m]
      {
      }
    }

    method SaveStatic(methods: set<Method>, start: Saved) returns (saved: Saved)
      requires methods <= heap.Keys
      requires forall m | m in start :: m in heap && start[m] == heap[m].entryPoint && heap[m].Contents().IsStatic()
      ensures forall m :: m in saved <==> m in start || (m in methods && heap[m].Contents().IsStatic())
      ensures forall m | m in saved :: m in heap && saved[m] == heap[m].entryPoint && heap[m].Contents().IsStatic()
    {
      saved := start;
      var todo := methods;
      while todo != {}
        invariant todo <= methods
        invariant forall m :: m in saved <==> m in start || (m in methods - todo && heap[m].Contents().IsStatic())
        invariant forall m | m in saved :: m in heap && saved[m] == heap[m].entryPoint && heap[m].Contents().IsStatic()
      {
        var m := AnyOf(todo);
        todo := todo - {m};
        if heap[m].Contents().IsStatic() && m !in saved {
          saved := saved[m := heap[m].entryPoint];
        }
      }
    }

    method PopBackup(c: ClassDef, self: Thread) returns (methods: Saved)
      requires past.trampolines.Keys == hookedMethods.Keys && PendingFits(State())
      modifies this`backupMethods, this`past
      ensures methods == Popped(old(State()), c, self)
      ensures backupMethods == PendingAfter(old(backupMethods), c, self)
      ensures past == old(past).(window := WindowAfter(old(State()), c, self))
    {
      ghost var w := State();
      methods := map[];
      if c != 0 {
        PoppedClass(w, c, self);
        assert forall t | t in backupMethods && c in backupMethods[t] :: w.past.window[c] == t;
        methods := PopClassBackup(c);
      } else if self != 0 {
        methods := PopThreadBackup(self);
        assert methods == Popped(w, c, self) by {
          PoppedThread(w, self, methods);
        }
      }
      past := past.(window := WindowAfter(w, c, self));
    }

    method PopClassBackup(c: ClassDef) returns (methods: Saved)
      requires forall t, u | t in backupMethods && u in backupMethods && c in backupMethods[t] && c in backupMethods[u] :: t == u
      modifies this`backupMethods
      ensures backupMethods == PopClass(old(backupMethods), c)
      ensures (forall t | t in old(backupMethods) :: c !in old(backupMethods)[t]) ==> methods == map[]
      ensures forall t | t in old(backupMethods) && c in old(backupMethods)[t] :: methods == old(backupMethods)[t][c]
    {
      methods := map[];
      ghost var before := backupMethods;
      var threads := backupMethods.Keys;
      while threads != {}
        invariant threads <= before.Keys && threads <= backupMethods.Keys <= before.Keys
        invariant forall t | t in threads :: backupMethods[t] == before[t]
        invariant forall t | t in before && t !in threads :: t in backupMethods <==> before[t] - {c} != map[]
        invariant forall t | t in backupMethods && t !in threads :: backupMethods[t] == before[t] - {c}
        invariant (forall t | t in before && t !in threads :: c !in before[t]) ==> methods == map[]
        invariant forall t | t in before && t !in threads && c in before[t] :: methods == before[t][c]
      {
        var t := AnyOf(threads);
        threads := threads - {t};
        if c in backupMethods[t] {
          methods := backupMethods[t][c] + methods;
          backupMethods := backupMethods[t := backupMethods[t] - {c}];
        } else {
          assert before[t] - {c} == before[t];
        }
        if backupMethods[t] == map[] {
          backupMethods := backupMethods - {t};
        }
      }
      forall t
        ensures t in backupMethods <==> t in PopClass(before, c)
        ensures t in backupMethods ==> backupMethods[t] == PopClass(before, c)[t]
      {
      }
    }

    method PopThreadBackup(self: Thread) returns (methods: Saved)
      requires forall c, d, m | self in backupMethods && c in backupMethods[self] && d in backupMethods[self]
                                && m in backupMethods[self][c] && m in backupMethods[self][d] :: c == d
      modifies this`backupMethods
      ensures backupMethods == old(backupMethods) - {self}
      ensures self !in old(backupMethods) ==> methods == map[]
      ensures self in old(backupMethods) ==> Union(old(backupMethods)[self], old(backupMethods)[self].Keys, methods)
    {
      methods := map[];
      if self in backupMethods {
        var found := backupMethods[self];
        var classes := found.Keys;
        while classes != {}
          invariant classes <= found.Keys && backupMethods == old(backupMethods)
          invariant Union(found, found.Keys - classes, methods)
        {
          var c := AnyOf(classes);
          classes := classes - {c};
          ghost var before := methods;
          methods := found[c] + methods;
          assert forall d, m | d in found.Keys - classes && m in found[d] :: m in methods && methods[m] == found[d][m];
        }
        backupMethods := backupMethods - {self};
      } else {
        assert backupMethods - {self} == backupMethods;
      }
    }

    // RestoreBackup, of the classes whose windows are closed; the order of the visits is `order`.
    method RestoreBackup(c: ClassDef, self: Thread) returns (ghost order: seq<Method>)
      requires Valid() && HoldersExist(State())
      requires past.trampolines.Keys == hookedMethods.Keys && PendingFits(State())
      modifies this`backupMethods, this`past, heap.Values
      ensures Enumerates(order, Popped(old(State()), c, self).Keys)
      ensures var w := old(State());
              var u := w.(pending := PendingAfter(w.pending, c, self), past := w.past.(window := WindowAfter(w, c, self)));
              Restorable(u, Popped(w, c, self)) && State() == RestoreAll(u, Popped(w, c, self), order)
    {
      var popped := PopBackup(c, self);
      order := RestorePopped(popped);
    }

    method RestorePopped(popped: Saved) returns (ghost order: seq<Method>)
      requires Valid() && HoldersExist(State()) && Restorable(State(), popped)
      modifies heap.Values
      ensures Enumerates(order, popped.Keys) && State() == RestoreAll(old(State()), popped, order)
    {
      ghost var u := State();
      var todo := popped.Keys;
      order := [];
      while todo != {}
        invariant todo <= popped.Keys
        invariant Enumerates(order, popped.Keys - todo)
        invariant State() == RestoreAll(u, popped, order)
      {
        var m := AnyOf(todo);
        EnumeratesMore(order, popped.Keys, todo, m);
        RestoreAllAppend(u, popped, order, m);
        todo := todo - {m};
        RestoreMethod(m, popped[m]);
        order := order + [m];
      }
      assert popped.Keys - todo == popped.Keys;
    }

    method RestoreMethod(m: Method, entry: Address)
      requires Valid() && HoldersExist(State()) && m in heap
      modifies heap.Values
      ensures State() == RestoreOne(old(State()), m, entry)
    {
      var now := heap[m].entryPoint;
      SetEntryPoint(m, entry);
      if m in hookedMethods {
        if m !in deoptimizedMethods && now != entry {
          SetEntryPoint(hookedMethods[m].backup, now);
        }
      } else if m in deoptimizedMethods {
        if now != bridge && !heap[m].Contents().IsNative() && bridge != 0 {
          SetEntryPoint(m, bridge);
        }
      }
    }

    // The fixup of a class: ART relinks static methods, then LSPlant restores what it has saved.
    method FixupStaticTrampolines(c: ClassDef, self: Thread, writes: map<Method, Address>)
      returns (ghost order: seq<Method>)
      requires Valid() && HoldersExist(State()) && writes.Keys <= heap.Keys
      requires past.trampolines.Keys == hookedMethods.Keys && PendingFits(State())
      modifies this`backupMethods, this`past, heap.Values
      ensures Known(old(State()), Fixup(c, self, writes, order))
      ensures State() == Apply(old(State()), Fixup(c, self, writes, order))
    {
      ghost var w := State();
      var popped := PopAndRelink(c, self, writes);
      order := RestorePopped(popped);
    }

    method PopAndRelink(c: ClassDef, self: Thread, writes: map<Method, Address>) returns (popped: Saved)
      requires Valid() && HoldersExist(State()) && writes.Keys <= heap.Keys
      requires past.trampolines.Keys == hookedMethods.Keys && PendingFits(State())
      modifies this`backupMethods, this`past, heap.Values
      ensures popped == Popped(old(State()), c, self) && popped.Keys <= heap.Keys
      ensures forall order | Enumerates(order, popped.Keys) ::
                State() == BeforeRestore(old(State()), Fixup(c, self, writes, order))
    {
      ghost var w := State();
      popped := PopBackup(c, self);
      Relink(writes);
      BeforeRestoreFields(w, State(), c, self, writes);
    }

    method Relink(writes: map<Method, Address>)
      requires Valid() && writes.Keys <= heap.Keys
      modifies heap.Values
      ensures Mem() == Written(old(Mem()), writes)
    {
      var todo := writes.Keys;
      while todo != {}
        invariant todo <= writes.Keys
        invariant Mem() == Written(old(Mem()), writes - todo)
      {
        var m := AnyOf(todo);
        todo := todo - {m};
        SetEntryPoint(m, writes[m]);
      }
      assert writes - todo == writes;
    }

    // ----- MapBootImageMethods

    // `art` is what ART makes of the methods; the order of the last loop is `order`.
    method MapBootImageMethods(art: map<Method, Mapped>) returns (ghost order: seq<Method>)
      requires Valid() && HoldersExist(State()) && deoptimizedMethods.Keys <= heap.Keys && art.Keys <= heap.Keys
      requires forall m | m in hookedMethods :: hookedMethods[m].backup !in hookedMethods
      modifies this`deoptimizedMethods, heap.Values
      ensures Enumerates(order, old(hookedMethods.Keys + deoptimizedMethods.Keys))
      ensures State() == ApplyMapBootImage(old(State()), art, order)
    {
      ghost var w := State();
      var methods := ShowOriginals();
      MapAll(art);
      assert State() == BeforeFinish(w, art);
      order := Finish(methods);
    }

    method ShowOriginals() returns (methods: map<Method, Remembered>)
      requires Valid() && HoldersExist(State()) && deoptimizedMethods.Keys <= heap.Keys
      requires forall m | m in hookedMethods :: hookedMethods[m].backup !in hookedMethods
      modifies heap.Values
      ensures methods == RememberedMethods(old(State()))
      ensures Mem() == Unhooked(Undeoptimized(old(State())), hookedMethods)
    {
      ghost var w := State();
      var shown := ShowDeoptimized();
      methods := ShowHooked(shown);
      RememberedInTwoSteps(w, shown);
      assert Mem() == Unhooked(Undeoptimized(w), hookedMethods);
    }

    method ShowDeoptimized() returns (methods: map<Method, Remembered>)
      requires Valid() && deoptimizedMethods.Keys <= heap.Keys
      modifies heap.Values
      ensures Mem() == Undeoptimized(old(State()))
      ensures methods == map m | m in deoptimizedMethods :: Remembered(None, old(Mem())[m].data, old(Mem())[m].entryPoint)
    {
      methods := map[];
      ghost var mem, all := Mem(), deoptimizedMethods;
      var todo := deoptimizedMethods.Keys;
      while todo != {}
        invariant todo <= all.Keys
        invariant Mem() == Shown(mem, all, todo)
        invariant methods == DeoptRemembered(mem, all, todo)
      {
        var m := AnyOf(todo);
        ShownMore(mem, all, todo, m);
        todo := todo - {m};
        assert Mem()[m] == heap[m].Contents();
        methods := methods[m := Remembered(None, heap[m].data, heap[m].entryPoint)];
        SetEntryPoint(m, deoptimizedMethods[m]);
      }
    }

    method ShowHooked(shown: map<Method, Remembered>) returns (methods: map<Method, Remembered>)
      requires Valid() && HoldersExist(State())
      requires forall m | m in hookedMethods :: hookedMethods[m].backup !in hookedMethods
      modifies heap.Values
      ensures Mem() == Lent(old(Mem()), hookedMethods, hookedMethods.Keys)
      ensures methods == shown + HookedRemembered(old(Mem()), hookedMethods, hookedMethods.Keys)
    {
      methods := shown;
      ghost var mem := Mem();
      var todo := hookedMethods.Keys;
      while todo != {}
        invariant todo <= hookedMethods.Keys
        invariant Mem() == Lent(mem, hookedMethods, hookedMethods.Keys - todo)
        invariant methods == shown + HookedRemembered(mem, hookedMethods, hookedMethods.Keys - todo)
      {
        var m := AnyOf(todo);
        var b := hookedMethods[m].backup;
        LentMore(mem, hookedMethods, todo, m, shown);
        assert Mem()[m] == heap[m].Contents() && Mem()[b] == mem[b];
        methods := methods[m := Remembered(Some(b), heap[m].data, heap[m].entryPoint)];
        todo := todo - {m};
        Borrow(m, b);
      }
      assert hookedMethods.Keys - todo == hookedMethods.Keys;
    }

    method Borrow(m: Method, b: Method)
      requires Valid() && m in heap && b in heap && m != b
      modifies heap[m]
      ensures Mem() == old(Mem())[m := old(Mem())[m].(data := old(Mem())[b].data, entryPoint := old(Mem())[b].entryPoint)]
    {
      SetRecordData(m, heap[b].data);
      assert Mem()[b] == heap[b].Contents();
      SetEntryPoint(m, heap[b].entryPoint);
    }

    // ART's own work.
    method MapAll(art: map<Method, Mapped>)
      requires Valid() && art.Keys <= heap.Keys
      modifies heap.Values
      ensures Mem() == MappedBy(old(Mem()), art)
    {
      var todo := art.Keys;
      while todo != {}
        invariant todo <= art.Keys
        invariant Mem() == MappedBy(old(Mem()), art - todo)
      {
        var m := AnyOf(todo);
        todo := todo - {m};
        SetRecordData(m, art[m].data);
        SetEntryPoint(m, art[m].entryPoint);
      }
      assert art - todo == art;
    }

    method Finish(methods: map<Method, Remembered>) returns (ghost order: seq<Method>)
      requires Valid() && Finishable(State(), methods)
      modifies this`deoptimizedMethods, heap.Values
      ensures Enumerates(order, methods.Keys) && State() == FinishAll(old(State()), methods, order)
    {
      ghost var u := State();
      var todo := methods.Keys;
      order := [];
      while todo != {}
        invariant todo <= methods.Keys
        invariant Enumerates(order, methods.Keys - todo)
        invariant State() == FinishAll(u, methods, order)
      {
        var m := AnyOf(todo);
        EnumeratesMore(order, methods.Keys, todo, m);
        FinishAllAppend(u, methods, order, m);
        todo := todo - {m};
        FinishMethod(m, methods);
        order := order + [m];
      }
      assert methods.Keys - todo == methods.Keys;
    }

    method FinishMethod(m: Method, methods: map<Method, Remembered>)
      requires Valid() && m in methods && m in heap
      requires methods[m].backup.Some? ==> methods[m].backup.value in heap
      modifies this`deoptimizedMethods, heap.Values
      ensures State() == FinishOne(old(State()), methods, m)
    {
      ghost var mem := Mem();
      var s := methods[m];
      if s.backup.None? {
        if heap[m].entryPoint != s.entryPoint {
          deoptimizedMethods := deoptimizedMethods[m := heap[m].entryPoint];
          SetEntryPoint(m, s.entryPoint);
        } else {
          assert SetEntry(mem, m, s.entryPoint) == mem;
        }
      } else {
        FinishHookedMethod(m, s);
      }
    }

    method FinishHookedMethod(m: Method, s: Remembered)
      requires Valid() && m in heap && s.backup.Some? && s.backup.value in heap
      modifies heap.Values
      ensures Mem() == FinishRecords(old(Mem()), m, s)
    {
      var b := s.backup.value;
      ghost var mem := Mem();
      assert mem[m] == heap[m].Contents() && mem[b] == heap[b].Contents();
      if heap[m].data == heap[b].data && heap[m].entryPoint == heap[b].entryPoint {
        SetRecordData(m, s.data);
        SetEntryPoint(m, s.entryPoint);
      } else {
        SetRecordData(b, heap[m].data);
        assert Mem()[m] == heap[m].Contents();
        SetEntryPoint(b, heap[m].entryPoint);
        SetEntryPoint(m, s.entryPoint);
      }
    }
  }
}
