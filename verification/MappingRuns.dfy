/** Short runs after which mapping the boot image goes wrong, each from empty tables. */
module MappingRuns {
  import opened ArtMethods
  import opened HookWorld
  import opened HookInvariants
  import opened MapBootImage
  import opened Transparency

  const TARGET: Method := 1
  const HOOK: Method := 2
  const BACKUP: Method := 3
  const CODE: Address := 10
  const BRIDGE: Address := 99
  const TRAMPOLINE: Address := 1000

  // One original method, nothing hooked.
  function Start(): World {
    World(30, BRIDGE, map[TARGET := Record(CODE, 0, {}, 5)], map[], map[], map[], map[], map[], {}, map[],
          Past({}, {}, map[], {}, map[], {}, {}))
  }

  function HookTarget(): Event {
    Hook(TARGET, HOOK, BACKUP, Record(CODE, 0, {}, 6), TRAMPOLINE, false)
  }

  lemma StartFits()
    ensures Initial(Start()) && Inv(Start())
  {
  }

  lemma RunOfTwo(w: World, a: Event, b: Event)
    requires HoldersExist(w) && Allowed(w, a) && HoldersExist(Apply(w, a)) && Allowed(Apply(w, a), b)
    ensures Runs(w, [a, b]) && End(w, [a, b]) == Apply(Apply(w, a), b)
  {
    var v := Apply(w, a);
    assert [a, b][1..] == [b] && [b][1..] == [];
    assert Runs(Apply(v, b), []);
    assert Runs(v, [b]) && End(v, [b]) == Apply(v, b);
  }

  lemma TwoStepsRun(a: Event, b: Event)
    requires Allowed(Start(), a) && HoldersExist(Apply(Start(), a)) && Allowed(Apply(Start(), a), b)
    ensures Initial(Start()) && Runs(Start(), [a, b])
    ensures End(Start(), [a, b]) == Apply(Apply(Start(), a), b)
    ensures Inv(End(Start(), [a, b]))
  {
    StartFits();
    StepKeeps(Start(), a);
    StepKeeps(Apply(Start(), a), b);
    RunOfTwo(Start(), a, b);
  }

  /** Deoptimize, hook, map: the hook is lost in every visiting order. */
  lemma HookIsLost(order: seq<Method>)
    requires Enumerates(order, {TARGET, BACKUP})
    ensures
      var es := [Deoptimize(TARGET), HookTarget()];
      && Initial(Start()) && Runs(Start(), es) && Inv(End(Start(), es))
      && var w := End(Start(), es);
         && w.hooked.Keys + w.deopted.Keys == {TARGET, BACKUP} && TARGET in w.hooked
         && var v := ApplyMapBootImage(w, map[], order);
            TARGET in v.mem && v.mem[TARGET].entryPoint != w.past.trampolines[TARGET]
  {
    TwoStepsRun(Deoptimize(TARGET), HookTarget());
    var w := End(Start(), [Deoptimize(TARGET), HookTarget()]);
    assert w.hooked.Keys + w.deopted.Keys == {TARGET, BACKUP};
    HookSurvivesMapping(w, map[], order, TARGET);
  }

  lemma HookedThenDeoptimized()
    ensures
      var w := Apply(Apply(Start(), HookTarget()), Deoptimize(TARGET));
      && w.hooked == map[TARGET := HookRecord(HOOK, BACKUP)]
      && w.deopted == map[BACKUP := CODE, TARGET := TRAMPOLINE]
      && BACKUP in w.mem && w.mem[BACKUP].entryPoint == BRIDGE
  {
  }

  lemma BackupFirst(s: set<Method>)
    requires s == {TARGET, BACKUP}
    ensures Enumerates([BACKUP, TARGET], s) && Before([BACKUP, TARGET], BACKUP, TARGET)
  {
    assert [BACKUP, TARGET][..1] == [BACKUP];
  }

  // When the backup is visited first, the code that the target had when it was hooked comes back.
  lemma OldCodeReturns(w: World)
    requires Inv(w) && w.hooked == map[TARGET := HookRecord(HOOK, BACKUP)]
    requires {BACKUP} <= w.deopted.Keys <= {TARGET, BACKUP} && w.deopted[BACKUP] == CODE
    ensures Enumerates([BACKUP, TARGET], w.hooked.Keys + w.deopted.Keys)
    ensures var v := ApplyMapBootImage(w, map[], [BACKUP, TARGET]);
            Holder(v, TARGET) in v.mem && Effective(v, TARGET).entryPoint == CODE
  {
    BackupFirst(w.hooked.Keys + w.deopted.Keys);
    MappingOfHooked(w, map[], [BACKUP, TARGET], TARGET);
    MappingFrame(w, map[], [BACKUP, TARGET]);
  }

  /** Hook, code update, map: when the backup is visited first, the update is lost. */
  lemma UpdateIsLost(code: Address)
    requires code != CODE && code != TRAMPOLINE
    ensures
      var es, order := [HookTarget(), UpdateCode(TARGET, code)], [BACKUP, TARGET];
      && Initial(Start()) && Runs(Start(), es) && Inv(End(Start(), es))
      && var w := End(Start(), es);
         && Enumerates(order, w.hooked.Keys + w.deopted.Keys)
         && Effective(w, TARGET).entryPoint == code
         && var v := ApplyMapBootImage(w, map[], order);
            Holder(v, TARGET) in v.mem && Effective(v, TARGET).entryPoint == CODE
  {
    TwoStepsRun(HookTarget(), UpdateCode(TARGET, code));
    OldCodeReturns(End(Start(), [HookTarget(), UpdateCode(TARGET, code)]));
  }

  /** Hook, deoptimize, map: when the backup is visited first, the method leaves the interpreter. */
  lemma DeoptimizationIsLost()
    ensures
      var es, order := [HookTarget(), Deoptimize(TARGET)], [BACKUP, TARGET];
      && Initial(Start()) && Runs(Start(), es) && Inv(End(Start(), es))
      && var w := End(Start(), es);
         && Enumerates(order, w.hooked.Keys + w.deopted.Keys)
         && Effective(w, TARGET).entryPoint == BRIDGE
         && var v := ApplyMapBootImage(w, map[], order);
            Holder(v, TARGET) in v.mem && Effective(v, TARGET).entryPoint == CODE
  {
    TwoStepsRun(HookTarget(), Deoptimize(TARGET));
    HookedThenDeoptimized();
    OldCodeReturns(End(Start(), [HookTarget(), Deoptimize(TARGET)]));
  }
}
