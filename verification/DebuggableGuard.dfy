/**
  * JavaDebuggableGuard: any number of guards share one counter, 0 while the runtime is not debuggable,
  * 1 while some guard is switching the runtime, n + 1 while n guards are held. Each guard is an agent
  * that runs its constructor, is held, and runs its destructor once; each step below is one access to
  * the counter or one edge of a SetJavaDebuggable call, so a run is any interleaving of the guards.
  */
module DebuggableGuard {
  /** Where a guard is; the payload is the counter value its first exchange read. */
  datatype Pc =
    | Outside
    | Acquiring               // before the exchange 0 -> 1
    | AcquireWaits            // read 1; in wait
    | AcquireRetries(seen: int)  // before the exchange seen -> seen + 1
    | TurnsOn                 // owns the counter; before SetJavaDebuggable
    | TurningOn               // inside the call that makes the runtime debuggable
    | TurnedOn                // before fetch_add
    | Held
    | Releasing               // before the exchange 2 -> 1
    | ReleaseWaits            // read 1; in wait
    | ReleaseRetries(seen: int)  // before the exchange seen -> seen - 1
    | TurnsOff
    | TurningOff
    | TurnedOff               // before fetch_sub
    | Done

  datatype State = State(count: int, debuggable: bool, pcs: seq<Pc>)

  function Initial(guards: nat): State {
    State(0, false, seq(guards, i => Outside))
  }

  /** A constructed guard whose destructor has not yet given up its share of the counter. */
  predicate Holds(pc: Pc) {
    pc.Held? || pc.Releasing? || pc.ReleaseWaits? || pc.ReleaseRetries?
  }

  /** A guard between its exchange to 1 and the addition or subtraction that ends it. */
  predicate Switches(pc: Pc) {
    pc.TurnsOn? || pc.TurningOn? || pc.TurnedOn? || pc.TurnsOff? || pc.TurningOff? || pc.TurnedOff?
  }

  predicate Calling(pc: Pc) {
    pc.TurningOn? || pc.TurningOff?
  }

  /** Only a guard in wait is ever blocked, and only while the counter is 1. */
  predicate Enabled(s: State, t: nat) {
    t < |s.pcs| && !s.pcs[t].Done? &&
    (s.pcs[t].AcquireWaits? || s.pcs[t].ReleaseWaits? ==> s.count != 1)
  }

  function Goto(s: State, t: nat, pc: Pc): State
    requires t < |s.pcs|
  {
    s.(pcs := s.pcs[t := pc])
  }

  function Next(s: State, t: nat): State
    requires Enabled(s, t)
  {
    match s.pcs[t]
    case Outside => Goto(s, t, Acquiring)
    case Acquiring =>
      if s.count == 0 then Goto(s, t, TurnsOn).(count := 1)
      else if s.count == 1 then Goto(s, t, AcquireWaits)
      else Goto(s, t, AcquireRetries(s.count))
    case AcquireWaits => Goto(s, t, Acquiring)
    case AcquireRetries(seen) =>
      if s.count == seen then Goto(s, t, Held).(count := seen + 1) else Goto(s, t, Acquiring)
    case TurnsOn => Goto(s, t, TurningOn)
    case TurningOn => Goto(s, t, TurnedOn).(debuggable := true)
    case TurnedOn => Goto(s, t, Held).(count := s.count + 1)
    case Held => Goto(s, t, Releasing)
    case Releasing =>
      if s.count == 2 then Goto(s, t, TurnsOff).(count := 1)
      else if s.count == 1 then Goto(s, t, ReleaseWaits)
      else Goto(s, t, ReleaseRetries(s.count))
    case ReleaseWaits => Goto(s, t, Releasing)
    case ReleaseRetries(seen) =>
      if s.count == seen then Goto(s, t, Done).(count := seen - 1) else Goto(s, t, Releasing)
    case TurnsOff => Goto(s, t, TurningOff)
    case TurningOff => Goto(s, t, TurnedOff).(debuggable := false)
    case TurnedOff => Goto(s, t, Done).(count := s.count - 1)
  }

  ghost predicate Runs(s: State, steps: seq<nat>)
    decreases |steps|
  {
    steps == [] || (Enabled(s, steps[0]) && Runs(Next(s, steps[0]), steps[1..]))
  }

  ghost function End(s: State, steps: seq<nat>): State
    requires Runs(s, steps)
    decreases |steps|
  {
    if steps == [] then s else End(Next(s, steps[0]), steps[1..])
  }

  // ----- counting guards

  function Tally(pcs: seq<Pc>, p: Pc -> bool): nat {
    if pcs == [] then 0
    else Tally(pcs[..|pcs| - 1], p) + (if p(pcs[|pcs| - 1]) then 1 else 0)
  }

  lemma {:induction false} TallyUpdate(pcs: seq<Pc>, p: Pc -> bool, t: nat, pc: Pc)
    requires t < |pcs|
    ensures Tally(pcs[t := pc], p) ==
            Tally(pcs, p) - (if p(pcs[t]) then 1 else 0) + (if p(pc) then 1 else 0)
  {
    var n := |pcs| - 1;
    if t == n {
      assert pcs[t := pc][..n] == pcs[..n];
    } else {
      assert pcs[t := pc][..n] == pcs[..n][t := pc];
      TallyUpdate(pcs[..n], p, t, pc);
    }
  }

  lemma {:induction false} TallyNone(pcs: seq<Pc>, p: Pc -> bool)
    ensures Tally(pcs, p) <= |pcs|
    ensures Tally(pcs, p) == 0 <==> forall t | 0 <= t < |pcs| :: !p(pcs[t])
  {
    if pcs != [] {
      TallyNone(pcs[..|pcs| - 1], p);
      assert forall t | 0 <= t < |pcs| - 1 :: pcs[..|pcs| - 1][t] == pcs[t];
    }
  }

  lemma {:induction false} TallyTwo(pcs: seq<Pc>, p: Pc -> bool, t: nat, u: nat)
    requires t < u < |pcs| && p(pcs[t]) && p(pcs[u])
    ensures Tally(pcs, p) >= 2
  {
    var front := pcs[..|pcs| - 1];
    assert front[t] == pcs[t];
    if u == |pcs| - 1 {
      TallyNone(front, p);
    } else {
      assert front[u] == pcs[u];
      TallyTwo(front, p, t, u);
    }
  }

  // ----- safety

  ghost predicate CountFits(s: State) {
    var held, switching := Tally(s.pcs, Holds), Tally(s.pcs, Switches);
    && switching <= 1
    && (s.count == 1 <==> switching == 1)
    && (s.count == 1 ==> held == 0)
    && (s.count != 1 ==> s.count == if held == 0 then 0 else held + 1)
    && (held > 0 ==> s.debuggable)
    && (s.count == 0 ==> !s.debuggable)
  }

  ghost predicate PcFits(s: State, pc: Pc) {
    && (pc.AcquireRetries? ==> pc.seen >= 2)
    && (pc.ReleaseRetries? ==> pc.seen >= 3)
    && !pc.ReleaseWaits?
    && (pc.TurnsOn? || pc.TurnedOff? ==> !s.debuggable)
    && (pc.TurnedOn? || pc.TurnsOff? ==> s.debuggable)
  }

  ghost predicate Inv(s: State) {
    CountFits(s) && forall t | 0 <= t < |s.pcs| :: PcFits(s, s.pcs[t])
  }

  lemma AtMostOneSwitch(s: State, t: nat, u: nat)
    requires CountFits(s) && t < |s.pcs| && u < |s.pcs| && Switches(s.pcs[t]) && Switches(s.pcs[u])
    ensures t == u
  {
    if t < u {
      TallyTwo(s.pcs, Switches, t, u);
    } else if u < t {
      TallyTwo(s.pcs, Switches, u, t);
    }
  }

  lemma TallyMember(pcs: seq<Pc>, p: Pc -> bool, t: nat)
    requires t < |pcs| && p(pcs[t])
    ensures Tally(pcs, p) > 0
  {
    TallyNone(pcs, p);
  }

  lemma StepKeepsCount(s: State, t: nat)
    requires Inv(s) && Enabled(s, t)
    ensures CountFits(Next(s, t))
  {
    var v := Next(s, t);
    assert v.pcs == s.pcs[t := v.pcs[t]];
    TallyUpdate(s.pcs, Holds, t, v.pcs[t]);
    TallyUpdate(s.pcs, Switches, t, v.pcs[t]);
    assert PcFits(s, s.pcs[t]);
    if Holds(s.pcs[t]) { TallyMember(s.pcs, Holds, t); }
    if Switches(s.pcs[t]) { TallyMember(s.pcs, Switches, t); }
  }

  lemma StepKeepsPcs(s: State, t: nat)
    requires Inv(s) && Enabled(s, t)
    ensures forall u | 0 <= u < |Next(s, t).pcs| :: PcFits(Next(s, t), Next(s, t).pcs[u])
  {
    var v := Next(s, t);
    if Holds(s.pcs[t]) { TallyMember(s.pcs, Holds, t); }
    if Switches(s.pcs[t]) { TallyMember(s.pcs, Switches, t); }
    forall u | 0 <= u < |v.pcs| ensures PcFits(v, v.pcs[u]) {
      assert PcFits(s, s.pcs[u]) && PcFits(s, s.pcs[t]);
      if u != t && Switches(s.pcs[u]) && Switches(s.pcs[t]) {
        AtMostOneSwitch(s, t, u);
      }
    }
  }

  lemma {:induction false} RunKeepsInv(s: State, steps: seq<nat>)
    requires Inv(s) && Runs(s, steps)
    ensures Inv(End(s, steps)) && |End(s, steps).pcs| == |s.pcs|
    decreases |steps|
  {
    if steps != [] {
      StepKeepsCount(s, steps[0]);
      StepKeepsPcs(s, steps[0]);
      RunKeepsInv(Next(s, steps[0]), steps[1..]);
    }
  }

  lemma InitialInv(guards: nat)
    ensures Inv(Initial(guards))
  {
    TallyNone(Initial(guards).pcs, Holds);
    TallyNone(Initial(guards).pcs, Switches);
  }

  /**
    * After any run of any number of guards: the counter is 1 exactly while one guard is switching the
    * runtime, and otherwise 0 without holders or one more than their number; the runtime is
    * debuggable while a guard is held and not debuggable at 0; the counter stays within the number of
    * guards plus one.
    */
  lemma CounterTellsHolders(guards: nat, steps: seq<nat>)
    requires Runs(Initial(guards), steps)
    ensures
      var s := End(Initial(guards), steps);
      var held := Tally(s.pcs, Holds);
      && (s.count == 1 <==> Tally(s.pcs, Switches) == 1)
      && (s.count != 1 ==> Tally(s.pcs, Switches) == 0)
      && (s.count != 1 ==> s.count == if held == 0 then 0 else held + 1)
      && (held > 0 ==> s.debuggable && s.count != 1)
      && (s.count == 0 ==> !s.debuggable)
      && 0 <= s.count <= guards + 1
  {
    InitialInv(guards);
    RunKeepsInv(Initial(guards), steps);
    TallyNone(End(Initial(guards), steps).pcs, Holds);
  }

  /** Calls of SetJavaDebuggable never overlap, and each one changes the state of the runtime. */
  lemma CallsNeverOverlap(guards: nat, steps: seq<nat>, t: nat, u: nat)
    requires Runs(Initial(guards), steps)
    requires
      var s := End(Initial(guards), steps);
      t < |s.pcs| && u < |s.pcs| && Calling(s.pcs[t]) && Calling(s.pcs[u])
    ensures t == u
  {
    InitialInv(guards);
    RunKeepsInv(Initial(guards), steps);
    AtMostOneSwitch(End(Initial(guards), steps), t, u);
  }

  /** A destructor never reads 0 or 1: it never waits, and its exchange never takes the counter below 2. */
  lemma DestructorNeverWaits(guards: nat, steps: seq<nat>, t: nat)
    requires Runs(Initial(guards), steps)
    requires t < |End(Initial(guards), steps).pcs| && Holds(End(Initial(guards), steps).pcs[t])
    ensures
      var s := End(Initial(guards), steps);
      && s.count >= 2
      && !s.pcs[t].ReleaseWaits?
      && (s.pcs[t].ReleaseRetries? ==> s.pcs[t].seen >= 3)
      && Enabled(s, t) && !Next(s, t).pcs[t].ReleaseWaits?
  {
    InitialInv(guards);
    RunKeepsInv(Initial(guards), steps);
    var s := End(Initial(guards), steps);
    TallyMember(s.pcs, Holds, t);
    assert PcFits(s, s.pcs[t]);
  }

  // ----- every guard gets its scope

  /** 0 in the constructor and before it, 1 while held, 2 in the destructor, 3 afterwards. */
  function Phase(pc: Pc): nat {
    match pc
    case Outside => 0
    case Acquiring => 0
    case AcquireWaits => 0
    case AcquireRetries(_) => 0
    case TurnsOn => 0
    case TurningOn => 0
    case TurnedOn => 0
    case Held => 1
    case Releasing => 2
    case ReleaseWaits => 2
    case ReleaseRetries(_) => 2
    case TurnsOff => 2
    case TurningOff => 2
    case TurnedOff => 2
    case Done => 3
  }

  /** A constructor ends only in holding the guard, with one more share in the counter; a destructor starts
      only from there, and ends only by giving one share up. Nothing skips a phase or goes back. */
  lemma PhasesInOrder(s: State, t: nat)
    requires Inv(s) && Enabled(s, t)
    ensures
      var v := Next(s, t);
      var before, after := Phase(s.pcs[t]), Phase(v.pcs[t]);
      && v.pcs == s.pcs[t := v.pcs[t]]
      && (after == before || after == before + 1)
      && (before == 0 && after == 1 ==> v.count == s.count + 1)
      && (before == 1 ==> after == 2 && v.count == s.count)
      && (before == 2 && after == 3 ==> v.count == s.count - 1)
  {
    assert PcFits(s, s.pcs[t]);
  }

  /** How often guard t enters a phase in a run. */
  ghost function Entries(s: State, steps: seq<nat>, t: nat, phase: nat): nat
    requires Runs(s, steps) && t < |s.pcs|
    decreases |steps|
  {
    if steps == [] then 0
    else
      var v := Next(s, steps[0]);
      (if Phase(s.pcs[t]) != phase && Phase(v.pcs[t]) == phase then 1 else 0) + Entries(v, steps[1..], t, phase)
  }

  lemma {:induction false} EntriesCount(s: State, steps: seq<nat>, t: nat, phase: nat)
    requires Inv(s) && Runs(s, steps) && t < |s.pcs| && phase > 0
    ensures |End(s, steps).pcs| == |s.pcs|
    ensures Entries(s, steps, t, phase) ==
            (if Phase(End(s, steps).pcs[t]) >= phase then 1 else 0) - (if Phase(s.pcs[t]) >= phase then 1 else 0)
    decreases |steps|
  {
    if steps != [] {
      PhasesInOrder(s, steps[0]);
      StepKeepsCount(s, steps[0]);
      StepKeepsPcs(s, steps[0]);
      EntriesCount(Next(s, steps[0]), steps[1..], t, phase);
    }
  }

  /** In every run, a guard that is done was held exactly once, was destructed once, and gave its share up
      once; one that is held or being destructed was held once and has given up nothing. */
  lemma EveryGuardHeldOnce(guards: nat, steps: seq<nat>, t: nat)
    requires Runs(Initial(guards), steps) && t < guards
    ensures
      var s := End(Initial(guards), steps);
      && t < |s.pcs|
      && Entries(Initial(guards), steps, t, 1) == (if Phase(s.pcs[t]) >= 1 then 1 else 0)
      && Entries(Initial(guards), steps, t, 2) == (if Phase(s.pcs[t]) >= 2 then 1 else 0)
      && Entries(Initial(guards), steps, t, 3) == if s.pcs[t].Done? then 1 else 0
  {
    InitialInv(guards);
    EntriesCount(Initial(guards), steps, t, 1);
    EntriesCount(Initial(guards), steps, t, 2);
    EntriesCount(Initial(guards), steps, t, 3);
  }

  // ----- progress

  /** As long as some guard is not done, some guard can step; once all are done, the runtime is as before. */
  lemma NoDeadlock(guards: nat, steps: seq<nat>)
    requires Runs(Initial(guards), steps)
    ensures
      var s := End(Initial(guards), steps);
      if forall t | 0 <= t < |s.pcs| :: s.pcs[t].Done? then s.count == 0 && !s.debuggable
      else exists t :: Enabled(s, t)
  {
    InitialInv(guards);
    RunKeepsInv(Initial(guards), steps);
    var s := End(Initial(guards), steps);
    TallyNone(s.pcs, Holds);
    TallyNone(s.pcs, Switches);
    if t :| 0 <= t < |s.pcs| && !s.pcs[t].Done? {
      assert PcFits(s, s.pcs[t]);
      if s.count == 1 {
        var u :| 0 <= u < |s.pcs| && Switches(s.pcs[u]);
        assert Enabled(s, u);
      } else {
        assert Enabled(s, t);
      }
    }
  }

  /** How often a guard can still change the counter. */
  function ChangesLeft(pc: Pc): nat {
    match pc
    case Outside => 4
    case Acquiring => 4
    case AcquireWaits => 4
    case AcquireRetries(_) => 4
    case TurnsOn => 3
    case TurningOn => 3
    case TurnedOn => 3
    case Held => 2
    case Releasing => 2
    case ReleaseWaits => 2
    case ReleaseRetries(_) => 2
    case TurnsOff => 1
    case TurningOff => 1
    case TurnedOff => 1
    case Done => 0
  }

  /** How many steps a guard can make while the counter stays at `count`; a stale reading costs a retry. */
  function Stage(pc: Pc, count: int): nat {
    match pc
    case Outside => 5
    case Acquiring => 3
    case AcquireWaits => if count == 1 then 2 else 4
    case AcquireRetries(seen) => if count == seen then 2 else 4
    case TurnsOn => 3
    case TurningOn => 2
    case TurnedOn => 1
    case Held => 5
    case Releasing => 3
    case ReleaseWaits => if count == 1 then 2 else 4
    case ReleaseRetries(seen) => if count == seen then 2 else 4
    case TurnsOff => 3
    case TurningOff => 2
    case TurnedOff => 1
    case Done => 0
  }

  function Changes(pcs: seq<Pc>): nat {
    if pcs == [] then 0 else Changes(pcs[..|pcs| - 1]) + ChangesLeft(pcs[|pcs| - 1])
  }

  function Stages(pcs: seq<Pc>, count: int): nat {
    if pcs == [] then 0 else Stages(pcs[..|pcs| - 1], count) + Stage(pcs[|pcs| - 1], count)
  }

  lemma {:induction false} ChangesUpdate(pcs: seq<Pc>, t: nat, pc: Pc)
    requires t < |pcs|
    ensures Changes(pcs[t := pc]) == Changes(pcs) - ChangesLeft(pcs[t]) + ChangesLeft(pc)
  {
    var n := |pcs| - 1;
    if t == n {
      assert pcs[t := pc][..n] == pcs[..n];
    } else {
      assert pcs[t := pc][..n] == pcs[..n][t := pc];
      ChangesUpdate(pcs[..n], t, pc);
    }
  }

  lemma {:induction false} StagesUpdate(pcs: seq<Pc>, t: nat, pc: Pc, count: int)
    requires t < |pcs|
    ensures Stages(pcs[t := pc], count) == Stages(pcs, count) - Stage(pcs[t], count) + Stage(pc, count)
  {
    var n := |pcs| - 1;
    if t == n {
      assert pcs[t := pc][..n] == pcs[..n];
    } else {
      assert pcs[t := pc][..n] == pcs[..n][t := pc];
      StagesUpdate(pcs[..n], t, pc, count);
    }
  }

  lemma {:induction false} MeasureBounds(pcs: seq<Pc>, count: int)
    ensures Stages(pcs, count) <= 5 * |pcs| && Changes(pcs) <= 4 * |pcs|
  {
    if pcs != [] {
      MeasureBounds(pcs[..|pcs| - 1], count);
    }
  }

  /** Lexicographic: a change of the counter outweighs every stage it may set back. */
  function Measure(s: State): nat {
    Changes(s.pcs) * (5 * |s.pcs| + 1) + Stages(s.pcs, s.count)
  }

  lemma Lexicographic(unit: nat, c: nat, d: nat, x: nat, y: nat)
    requires (c < d && x < unit) || (c <= d && x < y)
    ensures c * unit + x < d * unit + y
  {
    if c < d {
      assert (c + 1) * unit <= d * unit;
    }
  }

  lemma StepProgress(s: State, t: nat)
    requires Enabled(s, t)
    ensures
      var v := Next(s, t);
      && |v.pcs| == |s.pcs| && v.pcs == s.pcs[t := v.pcs[t]]
      && if v.count == s.count
         then ChangesLeft(v.pcs[t]) <= ChangesLeft(s.pcs[t]) && Stage(v.pcs[t], s.count) < Stage(s.pcs[t], s.count)
         else ChangesLeft(v.pcs[t]) < ChangesLeft(s.pcs[t])
  {
  }

  lemma MeasureFalls(s: State, t: nat)
    requires Enabled(s, t)
    ensures Measure(Next(s, t)) < Measure(s) && |Next(s, t).pcs| == |s.pcs|
  {
    var v := Next(s, t);
    StepProgress(s, t);
    ChangesUpdate(s.pcs, t, v.pcs[t]);
    if v.count == s.count {
      StagesUpdate(s.pcs, t, v.pcs[t], s.count);
    } else {
      MeasureBounds(v.pcs, v.count);
    }
    Lexicographic(5 * |s.pcs| + 1, Changes(v.pcs), Changes(s.pcs),
                  Stages(v.pcs, v.count), Stages(s.pcs, s.count));
  }

  lemma {:induction false} RunLength(s: State, steps: seq<nat>)
    requires Runs(s, steps)
    ensures |steps| <= Measure(s)
    decreases |steps|
  {
    if steps != [] {
      MeasureFalls(s, steps[0]);
      RunLength(Next(s, steps[0]), steps[1..]);
    }
  }

  lemma ProductMonotone(c: nat, d: nat, unit: nat)
    requires c <= d
    ensures c * unit <= d * unit
  {
    assert c * unit + (d - c) * unit == d * unit;
  }

  /** Every run of n guards ends: retries included, it makes at most 4n (5n + 1) + 5n steps. */
  lemma EveryRunEnds(guards: nat, steps: seq<nat>)
    requires Runs(Initial(guards), steps)
    ensures |steps| <= (4 * guards) * (5 * guards + 1) + 5 * guards
  {
    RunLength(Initial(guards), steps);
    MeasureBounds(Initial(guards).pcs, 0);
    ProductMonotone(Changes(Initial(guards).pcs), 4 * guards, 5 * guards + 1);
  }
}
