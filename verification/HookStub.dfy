/** The code that BuildDex emits for a hook and for its backup, and what running it does. */
module HookStub {
  import opened Wrappers
  import opened StubMachine

  const TMP := Local(0)
  const ARGS := Local(1)
  const ZERO := Local(2)

  /** What BuildDex is asked for. Only callbacks of Java methods can ask for packing. */
  datatype Request = Request(shorty: seq<Type>, isStatic: bool, nativeApi: bool, pack: bool) {
    predicate WellTyped() {
      (forall i | 1 <= i < |shorty| :: !shorty[i].Void?) && !(nativeApi && pack)
    }

    predicate Valid() {
      |shorty| > 0 && WellTyped()
    }

    function ParamTypes(): seq<Type>
      requires Valid()
    {
      (if isStatic then [] else [Object]) + shorty[1..]
    }

    /** How many leading parameters stay out of the array. */
    function Skipped(): nat { if pack || isStatic then 0 else 1 }
  }

  datatype Stub = Stub(code: seq<Instruction>, locals: nat)

  // ----- what a stub is to do

  /** The call of the callback that a hook owes its caller. */
  function OwedCall(q: Request, field: Obj, vs: seq<Value>): Call
    requires q.Valid() && HaveTypes(vs, q.ParamTypes())
  {
    var boxed := BoxAll(q.ParamTypes(), vs);
    var receiver := if q.isStatic then Null else vs[0].obj;
    if q.pack then Call(Some(field), [ArgsArray], boxed)
    else if q.nativeApi then Call(None, [receiver, ArgsArray, field], boxed[q.Skipped()..])
    else Call(Some(field), [receiver, ArgsArray], boxed[q.Skipped()..])
  }

  function OwedOutcome(t: Type, answer: Obj): Outcome {
    if t.Void? then Returned(Nothing)
    else if t.Object? then Returned(Reference(answer))
    else if answer.Null? then NullPointer
    else if answer.Boxed? && answer.kind == t then Returned(Prim(answer.bits))
    else ClassCast
  }

  // ----- the emitted code

  function BoxCode(j: nat, t: Type): seq<Instruction> {
    if t.Primitive() then [ValueOf(Param(j), t, Param(j))] else []
  }

  /** The code that stores the parameters from the i-th on, the first of them in register j. */
  function PackCode(ts: seq<Type>, i: nat, j: nat, skipped: nat): seq<Instruction>
    requires skipped <= i <= |ts|
    decreases |ts| - i
  {
    if i == |ts| then []
    else
      BoxCode(j, ts[i]) +
      ([Const(TMP, i - skipped)] + ([AputObject(ARGS, Param(j), TMP)] +
       PackCode(ts, i + 1, j + ts[i].Width(), skipped)))
  }

  function CallCode(q: Request): seq<Instruction> {
    if q.pack then [InvokeVirtual(TMP, TMP, [ARGS])]
    else if q.isStatic then
      var zero := if |q.shorty| == 1 then ZERO else Param(0);
      [Const(zero, 0)] + [InvokeWith(q, zero)]
    else [InvokeWith(q, Param(0))]
  }

  function InvokeWith(q: Request, receiver: Reg): Instruction {
    if q.nativeApi then InvokeStatic(TMP, [receiver, ARGS, TMP])
    else InvokeVirtual(TMP, TMP, [receiver, ARGS])
  }

  function ReturnCode(t: Type): seq<Instruction> {
    if t.Void? then [ReturnVoid]
    else if t.Primitive() then [CheckCast(TMP, t)] + ([UnboxValue(TMP, t, TMP)] + [Return(TMP, false, t.Wide())])
    else [Return(TMP, true, false)]
  }

  function ArraySize(q: Request): nat
    requires q.Valid()
  {
    if q.pack then |q.ParamTypes()| else |q.shorty| - 1
  }

  function Prologue(q: Request): seq<Instruction>
    requires q.Valid()
  {
    [Const(TMP, ArraySize(q))] + [NewArray(ARGS, TMP)]
  }

  function HookCode(q: Request): Stub
    requires q.Valid()
  {
    Stub(Prologue(q) +
         (PackCode(q.ParamTypes(), q.Skipped(), q.Skipped(), q.Skipped()) +
          ([GetHookerField(TMP)] + (CallCode(q) + ReturnCode(q.shorty[0])))),
         if !q.pack && q.isStatic && |q.shorty| == 1 then 3 else 2)
  }

  function Entered(s: Stub, ts: seq<Type>, vs: seq<Value>): Machine
    requires HaveTypes(vs, ts)
  {
    Machine(seq(s.locals, i => Unset), ParamWords(ts, vs), None, [], Running)
  }

  // ----- packing the arguments

  /**
    * The machine is about to pack the parameters from the i-th on: their registers are as on entry, and
    * the array holds what is already boxed.
    */
  ghost predicate Packing(m: Machine, ts: seq<Type>, vs: seq<Value>, i: nat, j: nat, skipped: nat) {
    && HaveTypes(vs, ts) && skipped <= i <= |ts| && j <= |m.params|
    && m.outcome.Running? && |m.locals| >= 2 && m.locals[1] == Ref(ArgsArray)
    && m.params[j..] == ParamWords(ts[i..], vs[i..])
    && m.packed.Some? && |m.packed.value| == |ts| - skipped
    && forall k | skipped <= k < i :: m.packed.value[k - skipped] == Box(ts[k], vs[k])
  }

  function PackOne(t: Type, i: nat, j: nat, skipped: nat): seq<Instruction>
    requires skipped <= i
  {
    BoxCode(j, t) + [Const(TMP, i - skipped), AputObject(ARGS, Param(j), TMP)]
  }

  lemma BoxRuns(m: Machine, env: Env, t: Type, v: Value, j: nat)
    requires m.outcome.Running? && HasType(v, t) && j + t.Width() <= |m.params|
    requires m.params[j..j + t.Width()] == Words(t, v)
    ensures Exec(BoxCode(j, t), m, env) == m.(params := m.params[j := Ref(Box(t, v))])
  {
    assert m.params[j] == Words(t, v)[0];
    if t.Primitive() {
      assert t.Wide() ==> m.params[j + 1] == Words(t, v)[1];
      ExecFirst(ValueOf(Param(j), t, Param(j)), [], m, env);
      assert BoxCode(j, t) == [ValueOf(Param(j), t, Param(j))] + [];
    } else {
      assert m.params[j := Ref(Box(t, v))] == m.params;
    }
  }

  lemma StoreRuns(m: Machine, env: Env, o: Obj, index: nat, j: nat)
    requires m.outcome.Running? && |m.locals| >= 2 && m.locals[1] == Ref(ArgsArray)
    requires j < |m.params| && m.params[j] == Ref(o) && m.packed.Some? && index < |m.packed.value|
    ensures Exec([Const(TMP, index), AputObject(ARGS, Param(j), TMP)], m, env) ==
            m.(locals := m.locals[0 := Narrow(index)], packed := Some(m.packed.value[index := o]))
  {
    var n := Step(m, env, Const(TMP, index));
    var store := AputObject(ARGS, Param(j), TMP);
    ExecFirst(Const(TMP, index), [store], m, env);
    ExecFirst(store, [], n, env);
    assert [Const(TMP, index)] + [store] == [Const(TMP, index), store] && [store] + [] == [store];
  }

  lemma OnePacked(m: Machine, env: Env, ts: seq<Type>, vs: seq<Value>, i: nat, j: nat, skipped: nat)
    requires Packing(m, ts, vs, i, j, skipped) && i < |ts| && !ts[i].Void?
    ensures
      var n := Exec(PackOne(ts[i], i, j, skipped), m, env);
      && Packing(n, ts, vs, i + 1, j + ts[i].Width(), skipped)
      && n.calls == m.calls && |n.locals| == |m.locals| && |n.params| == |m.params|
      && forall r | 0 <= r < j :: n.params[r] == m.params[r]
  {
    var t, v := ts[i], vs[i];
    var rest := ParamWords(ts[i + 1..], vs[i + 1..]);
    assert m.params[j..] == Words(t, v) + rest by {
      assert ts[i..][0] == t && vs[i..][0] == v;
      assert ts[i..][1..] == ts[i + 1..] && vs[i..][1..] == vs[i + 1..];
    }
    assert m.params[j..j + t.Width()] == m.params[j..][..t.Width()];
    assert (Words(t, v) + rest)[..t.Width()] == Words(t, v);
    BoxRuns(m, env, t, v, j);
    var boxed := m.(params := m.params[j := Ref(Box(t, v))]);
    StoreRuns(boxed, env, Box(t, v), i - skipped, j);
    ExecAppend(BoxCode(j, t), [Const(TMP, i - skipped), AputObject(ARGS, Param(j), TMP)], m, env);
    assert boxed.params[j + t.Width()..] == m.params[j..][t.Width()..] == rest;
  }

  lemma PackCodeSplits(ts: seq<Type>, i: nat, j: nat, skipped: nat)
    requires skipped <= i < |ts|
    ensures PackCode(ts, i, j, skipped) ==
            PackOne(ts[i], i, j, skipped) + PackCode(ts, i + 1, j + ts[i].Width(), skipped)
  {
  }

  /** From machine m to n the parameters from the i-th on have been packed. */
  ghost predicate PackedFrom(m: Machine, n: Machine, ts: seq<Type>, vs: seq<Value>, j: nat, skipped: nat) {
    && HaveTypes(vs, ts) && skipped <= |ts|
    && n.outcome.Running? && n.calls == m.calls
    && |n.locals| == |m.locals| >= 2 && n.locals[1] == Ref(ArgsArray)
    && n.packed == Some(BoxAll(ts, vs)[skipped..])
    && |n.params| == |m.params| && forall r | 0 <= r < j < |m.params| :: n.params[r] == m.params[r]
  }

  lemma AllPacked(m: Machine, ts: seq<Type>, vs: seq<Value>, j: nat, skipped: nat)
    requires Packing(m, ts, vs, |ts|, j, skipped)
    ensures PackedFrom(m, m, ts, vs, j, skipped)
  {
    assert m.packed.value == BoxAll(ts, vs)[skipped..];
  }

  lemma {:induction false} PackRuns(m: Machine, env: Env, ts: seq<Type>, vs: seq<Value>, i: nat, j: nat, skipped: nat)
    requires Packing(m, ts, vs, i, j, skipped)
    requires forall k | 0 <= k < |ts| :: !ts[k].Void?
    ensures PackedFrom(m, Exec(PackCode(ts, i, j, skipped), m, env), ts, vs, j, skipped)
    decreases |ts| - i
  {
    if i == |ts| {
      AllPacked(m, ts, vs, j, skipped);
    } else {
      var rest := PackCode(ts, i + 1, j + ts[i].Width(), skipped);
      OnePacked(m, env, ts, vs, i, j, skipped);
      PackRuns(Exec(PackOne(ts[i], i, j, skipped), m, env), env, ts, vs, i + 1, j + ts[i].Width(), skipped);
      PackCodeSplits(ts, i, j, skipped);
      ExecAppend(PackOne(ts[i], i, j, skipped), rest, m, env);
    }
  }

  // ----- the call and the return

  lemma ReturnRuns(m: Machine, env: Env, t: Type)
    requires m.outcome.Running? && |m.locals| >= 2 && m.locals[0] == Ref(env.answer)
    ensures Exec(ReturnCode(t), m, env).outcome == OwedOutcome(t, env.answer)
    ensures Exec(ReturnCode(t), m, env).calls == m.calls
  {
    if t.Void? {
      ExecFirst(ReturnVoid, [], m, env);
      assert ReturnCode(t) == [ReturnVoid] + [];
    } else if t.Primitive() {
      var last := Return(TMP, false, t.Wide());
      ExecFirst(CheckCast(TMP, t), [UnboxValue(TMP, t, TMP)] + [last], m, env);
      var cast := Step(m, env, CheckCast(TMP, t));
      if cast.outcome.Running? {
        ExecFirst(UnboxValue(TMP, t, TMP), [last], cast, env);
        var unboxed := Step(cast, env, UnboxValue(TMP, t, TMP));
        if unboxed.outcome.Running? {
          ExecFirst(last, [], unboxed, env);
          assert [last] + [] == [last];
        }
      }
    } else {
      ExecFirst(Return(TMP, true, false), [], m, env);
      assert ReturnCode(t) == [Return(TMP, true, false)] + [];
    }
  }

  /** All arguments are packed, and the receiver of an instance method is still in its register. */
  ghost predicate Packed(m: Machine, q: Request, vs: seq<Value>) {
    && q.Valid() && HaveTypes(vs, q.ParamTypes())
    && m.outcome.Running? && m.calls == []
    && |m.locals| == HookCode(q).locals && m.locals[1] == Ref(ArgsArray)
    && m.packed == Some(BoxAll(q.ParamTypes(), vs)[q.Skipped()..])
    && (q.isStatic && |q.shorty| > 1 ==> |m.params| > 0)
    && (!q.isStatic && !q.pack ==> |m.params| > 0 && m.params[0] == Ref(vs[0].obj))
  }

  ghost predicate Called(n: Machine, q: Request, vs: seq<Value>, env: Env)
    requires q.Valid() && HaveTypes(vs, q.ParamTypes())
  {
    if env.field.Null? && !q.nativeApi then n.calls == [] && n.outcome == NullPointer
    else n.calls == [OwedCall(q, env.field, vs)] && n.outcome.Running? && |n.locals| >= 2 &&
         n.locals[0] == Ref(env.answer)
  }

  lemma GetObjsFirst(m: Machine, r: Reg, rest: seq<Reg>)
    requires GetObj(m, r).Some? && GetObjs(m, rest).Some?
    ensures GetObjs(m, [r] + rest) == Some([GetObj(m, r).value] + GetObjs(m, rest).value)
  {
    assert ([r] + rest)[1..] == rest;
  }

  lemma GetObjsOfThree(m: Machine, a: Reg, b: Reg, c: Reg)
    requires GetObj(m, a).Some? && GetObj(m, b).Some? && GetObj(m, c).Some?
    ensures GetObjs(m, [a]) == Some([GetObj(m, a).value])
    ensures GetObjs(m, [a, b]) == Some([GetObj(m, a).value, GetObj(m, b).value])
    ensures GetObjs(m, [a, b, c]) == Some([GetObj(m, a).value, GetObj(m, b).value, GetObj(m, c).value])
  {
    assert [a] + [] == [a] && [b] + [] == [b] && [c] + [] == [c];
    var x, y, z := GetObj(m, a).value, GetObj(m, b).value, GetObj(m, c).value;
    assert [x] + [] == [x] && [y] + [] == [y] && [z] + [] == [z];
    assert [x] + [y] == [x, y] && [y] + [z] == [y, z] && [x] + [y, z] == [x, y, z];
    assert [a] + [b] == [a, b] && [b] + [c] == [b, c] && [a] + [b, c] == [a, b, c];
    GetObjsFirst(m, a, []);
    GetObjsFirst(m, b, []);
    GetObjsFirst(m, c, []);
    GetObjsFirst(m, a, [b]);
    GetObjsFirst(m, b, [c]);
    GetObjsFirst(m, a, [b, c]);
  }

  lemma InvokeRuns(m: Machine, env: Env, q: Request, vs: seq<Value>, receiver: Reg)
    requires Packed(m, q, vs) && !q.pack && m.locals[0] == Ref(env.field)
    requires GetObj(m, receiver) == Some(if q.isStatic then Null else vs[0].obj)
    ensures Called(Exec([InvokeWith(q, receiver)], m, env), q, vs, env)
  {
    GetObjsOfThree(m, receiver, ARGS, TMP);
    ExecFirst(InvokeWith(q, receiver), [], m, env);
    assert [InvokeWith(q, receiver)] + [] == [InvokeWith(q, receiver)];
  }

  lemma CallRuns(m: Machine, env: Env, q: Request, vs: seq<Value>)
    requires Packed(m, q, vs) && m.locals[0] == Ref(env.field)
    ensures Called(Exec(CallCode(q), m, env), q, vs, env)
  {
    if q.pack {
      GetObjsOfThree(m, ARGS, ARGS, ARGS);
      ExecFirst(InvokeVirtual(TMP, TMP, [ARGS]), [], m, env);
      assert CallCode(q) == [InvokeVirtual(TMP, TMP, [ARGS])] + [];
      assert BoxAll(q.ParamTypes(), vs)[0..] == BoxAll(q.ParamTypes(), vs);
    } else if q.isStatic {
      var zero := if |q.shorty| == 1 then ZERO else Param(0);
      var n := Step(m, env, Const(zero, 0));
      ExecFirst(Const(zero, 0), [InvokeWith(q, zero)], m, env);
      InvokeRuns(n, env, q, vs, zero);
    } else {
      InvokeRuns(m, env, q, vs, Param(0));
    }
  }

  lemma ParamWordsNonEmpty(ts: seq<Type>, vs: seq<Value>)
    requires HaveTypes(vs, ts) && ts != []
    ensures |ParamWords(ts, vs)| > 0
    ensures ts[0].Object? ==> ParamWords(ts, vs)[0] == Ref(vs[0].obj) && ParamWords(ts, vs)[1..] == ParamWords(ts[1..], vs[1..])
  {
  }

  lemma PrologueRuns(q: Request, vs: seq<Value>, env: Env)
    requires q.Valid() && HaveTypes(vs, q.ParamTypes())
    ensures
      var n := Exec(Prologue(q), Entered(HookCode(q), q.ParamTypes(), vs), env);
      && Packing(n, q.ParamTypes(), vs, q.Skipped(), q.Skipped(), q.Skipped())
      && n.calls == [] && |n.locals| == HookCode(q).locals && n.params == ParamWords(q.ParamTypes(), vs)
  {
    var ts := q.ParamTypes();
    var m := Entered(HookCode(q), ts, vs);
    var sized := Step(m, env, Const(TMP, ArraySize(q)));
    ExecFirst(Const(TMP, ArraySize(q)), [NewArray(ARGS, TMP)], m, env);
    ExecFirst(NewArray(ARGS, TMP), [], sized, env);
    assert [NewArray(ARGS, TMP)] + [] == [NewArray(ARGS, TMP)];
    if q.Skipped() == 1 {
      ParamWordsNonEmpty(ts, vs);
    } else {
      assert ts[0..] == ts && vs[0..] == vs && m.params[0..] == m.params;
    }
  }

  lemma ArgumentsPacked(q: Request, vs: seq<Value>, env: Env)
    requires q.Valid() && HaveTypes(vs, q.ParamTypes())
    ensures
      var code := Prologue(q) +
                  PackCode(q.ParamTypes(), q.Skipped(), q.Skipped(), q.Skipped());
      Packed(Exec(code, Entered(HookCode(q), q.ParamTypes(), vs), env), q, vs)
  {
    var ts, k := q.ParamTypes(), q.Skipped();
    var prologue := Prologue(q);
    var m := Entered(HookCode(q), ts, vs);
    PrologueRuns(q, vs, env);
    PackRuns(Exec(prologue, m, env), env, ts, vs, k, k, k);
    ExecAppend(prologue, PackCode(ts, k, k, k), m, env);
    if ts != [] {
      ParamWordsNonEmpty(ts, vs);
    }
  }

  lemma FinishRuns(m: Machine, env: Env, q: Request, vs: seq<Value>)
    requires Packed(m, q, vs)
    ensures
      var end := Exec([GetHookerField(TMP)] + (CallCode(q) + ReturnCode(q.shorty[0])), m, env);
      if env.field.Null? && !q.nativeApi then end.calls == [] && end.outcome == NullPointer
      else end.calls == [OwedCall(q, env.field, vs)] && end.outcome == OwedOutcome(q.shorty[0], env.answer)
  {
    ExecFirst(GetHookerField(TMP), CallCode(q) + ReturnCode(q.shorty[0]), m, env);
    var n := Step(m, env, GetHookerField(TMP));
    CallRuns(n, env, q, vs);
    ExecAppend(CallCode(q), ReturnCode(q.shorty[0]), n, env);
    var called := Exec(CallCode(q), n, env);
    if called.outcome.Running? {
      ReturnRuns(called, env, q.shorty[0]);
    }
  }

  /**
    * The stub of every shorty, static or not, packing or not, for a Java or a native callback: run on
    * any arguments it calls the callback exactly once, with the receiver or null and all arguments
    * boxed in order, and gives back the unboxed result. A null result of a primitive method throws
    * a NullPointerException, a result of another class a ClassCastException. No register is read
    * that the code has not set, and none is written outside the frame.
    */
  lemma HookCallsBack(q: Request, vs: seq<Value>, env: Env)
    requires q.Valid() && HaveTypes(vs, q.ParamTypes())
    ensures
      var end := Exec(HookCode(q).code, Entered(HookCode(q), q.ParamTypes(), vs), env);
      if env.field.Null? && !q.nativeApi then end.calls == [] && end.outcome == NullPointer
      else end.calls == [OwedCall(q, env.field, vs)] && end.outcome == OwedOutcome(q.shorty[0], env.answer)
  {
    var k := q.Skipped();
    var packing := Prologue(q) + PackCode(q.ParamTypes(), k, k, k);
    var rest := [GetHookerField(TMP)] + (CallCode(q) + ReturnCode(q.shorty[0]));
    assert HookCode(q).code == packing + rest;
    ExecAppend(packing, rest, Entered(HookCode(q), q.ParamTypes(), vs), env);
    ArgumentsPacked(q, vs, env);
    FinishRuns(Exec(packing, Entered(HookCode(q), q.ParamTypes(), vs), env), env, q, vs);
  }

  /** The boxed form of an argument, told by the letter of its type. */
  predicate BoxedAs(o: Obj, t: Type, v: Value) {
    match t
    case Object => v == Reference(o)
    case Void => false
    case _ => o.Boxed? && o.kind == t && v == Prim(o.bits)
  }

  // The call of `c`, element by element: which object is called with what, and what the array holds.
  predicate CalledWith(c: Call, q: Request, field: Obj, vs: seq<Value>)
    requires |q.shorty| > 0 && |vs| == (if q.isStatic then 0 else 1) + |q.shorty| - 1
  {
    var first := if q.isStatic then 0 else 1;
    && (!q.isStatic ==> vs[0].Reference?)
    && c.callback == (if q.nativeApi then None else Some(field))
    && c.args == (if q.pack then [ArgsArray]
                  else [if q.isStatic then Null else vs[0].obj, ArgsArray] + if q.nativeApi then [field] else [])
    && |c.packed| == (if q.pack then |vs| else |q.shorty| - 1)
    && (q.pack && !q.isStatic ==> c.packed[0] == vs[0].obj)
    && forall i | 1 <= i < |q.shorty| ::
         BoxedAs(c.packed[if q.pack then first + i - 1 else i - 1], q.shorty[i], vs[first + i - 1])
  }

  lemma OwedInFull(q: Request, field: Obj, vs: seq<Value>)
    requires q.Valid() && HaveTypes(vs, q.ParamTypes())
    ensures |vs| == (if q.isStatic then 0 else 1) + |q.shorty| - 1
    ensures CalledWith(OwedCall(q, field, vs), q, field, vs)
  {
    var first := if q.isStatic then 0 else 1;
    var ts := q.ParamTypes();
    assert |ts| == |vs| == first + |q.shorty| - 1;
    forall i | 1 <= i < |q.shorty|
      ensures BoxedAs(BoxAll(ts, vs)[first + i - 1], q.shorty[i], vs[first + i - 1])
    {
      assert ts[first + i - 1] == q.shorty[i] && HasType(vs[first + i - 1], ts[first + i - 1]);
    }
    assert !q.isStatic ==> ts[0] == Object && HasType(vs[0], ts[0]);
  }

  /** The same, with the call element by element and the result case by case. A packing callback gets all
      arguments in one array, the receiver first; any other gets the receiver, or null for a static method,
      and the array of the arguments that the shorty has letters for. A callback through the native API is
      static and gets the hooker object as well; any other is invoked on it. */
  lemma HookCallInFull(q: Request, vs: seq<Value>, env: Env)
    requires q.Valid() && HaveTypes(vs, q.ParamTypes()) && (!env.field.Null? || q.nativeApi)
    ensures |vs| == (if q.isStatic then 0 else 1) + |q.shorty| - 1
    ensures
      var end := Exec(HookCode(q).code, Entered(HookCode(q), q.ParamTypes(), vs), env);
      |end.calls| == 1 && CalledWith(end.calls[0], q, env.field, vs)
    ensures
      var end := Exec(HookCode(q).code, Entered(HookCode(q), q.ParamTypes(), vs), env);
      var t, o := q.shorty[0], env.answer;
      && (t.Void? ==> end.outcome == Returned(Nothing))
      && (t.Object? ==> end.outcome == Returned(Reference(o)))
      && (t.Primitive() && o.Null? ==> end.outcome == NullPointer)
      && (t.Primitive() && o.Boxed? && o.kind == t ==> end.outcome == Returned(Prim(o.bits)))
      && (t.Primitive() && !o.Null? && !(o.Boxed? && o.kind == t) ==> end.outcome == ClassCast)
  {
    HookCallsBack(q, vs, env);
    OwedInFull(q, env.field, vs);
  }

  // ----- the backup

  /** A place holder that answers zero; its entry point is replaced before it is ever called. */
  function BackupCode(q: Request): Stub
    requires q.Valid()
  {
    var t := q.shorty[0];
    var spare := Param(if q.isStatic then 0 else 1);
    if t.Void? then Stub([ReturnVoid], 0)
    else if t.Wide() then
      if !q.pack && |q.shorty| > 2 then Stub([ConstWide(spare, 0), Return(spare, false, true)], 0)
      else Stub([ConstWide(Local(0), 0), Return(Local(0), false, true)], 2)
    else if !q.pack && |q.shorty| > 1 then Stub([Const(spare, 0), Return(spare, !t.Primitive(), false)], 0)
    else Stub([Const(Local(0), 0), Return(Local(0), !t.Primitive(), false)], 1)
  }

  lemma {:induction false} ParamWordsLength(ts: seq<Type>, vs: seq<Value>)
    requires HaveTypes(vs, ts)
    ensures |ParamWords(ts, vs)| >= |ts|
  {
    if ts != [] {
      ParamWordsLength(ts[1..], vs[1..]);
    }
  }

  // The zero of a type, made in register `r` and returned.
  function ZeroCode(t: Type, r: Reg): seq<Instruction>
    requires !t.Void?
  {
    [if t.Wide() then ConstWide(r, 0) else Const(r, 0), Return(r, !t.Primitive(), t.Wide())]
  }

  lemma ZeroRuns(m: Machine, env: Env, t: Type, r: Reg)
    requires m.outcome.Running? && !t.Void? && InFrame(m, r) && (t.Wide() ==> InFrame(m, Pair(r)))
    ensures
      var end := Exec(ZeroCode(t, r), m, env);
      end.calls == m.calls && end.outcome == Returned(if t.Object? then Reference(Null) else Prim(0))
  {
    var code := ZeroCode(t, r);
    assert code == [code[0]] + [code[1]] && [code[1]] == [code[1]] + [];
    ExecFirst(code[0], [code[1]], m, env);
    ExecFirst(code[1], [], Step(m, env, code[0]), env);
  }

  /** The backup fits its frame for every shorty: it answers the zero of its return type. */
  lemma BackupAnswersZero(q: Request, vs: seq<Value>, env: Env)
    requires q.Valid() && HaveTypes(vs, q.ParamTypes())
    ensures
      var end := Exec(BackupCode(q).code, Entered(BackupCode(q), q.ParamTypes(), vs), env);
      var t := q.shorty[0];
      && end.calls == []
      && end.outcome == Returned(if t.Void? then Nothing else if t.Object? then Reference(Null) else Prim(0))
  {
    var code := BackupCode(q).code;
    var m := Entered(BackupCode(q), q.ParamTypes(), vs);
    ParamWordsLength(q.ParamTypes(), vs);
    if q.shorty[0].Void? {
      assert code == [ReturnVoid] + [];
      ExecFirst(ReturnVoid, [], m, env);
    } else {
      var r := if code[0].Const? then code[0].dest else if code[0].ConstWide? then code[0].dest else Local(0);
      assert code == ZeroCode(q.shorty[0], r);
      ZeroRuns(m, env, q.shorty[0], r);
    }
  }

  // ----- emitting the code

  class MethodBuilder {
    var code: seq<Instruction>
    var locals: nat

    constructor ()
      ensures code == [] && locals == 0
    {
      code, locals := [], 0;
    }

    method AllocRegister() returns (r: Reg)
      modifies this`locals
      ensures r == Local(old(locals)) && locals == old(locals) + 1
    {
      r := Local(locals);
      locals := locals + 1;
    }

    method Add(i: Instruction)
      modifies this`code
      ensures code == old(code) + [i]
    {
      code := code + [i];
    }

    method BuildBoxIfPrimitive(dest: Reg, t: Type, src: Reg)
      modifies this`code
      ensures code == old(code) + if t.Primitive() then [ValueOf(dest, t, src)] else []
    {
      if t.Primitive() {
        Add(ValueOf(dest, t, src));
      }
    }

    /** The loop of BuildDex over the parameters from the first-th on; j runs over their registers. */
    method BuildPacking(tmp: Reg, args: Reg, types: seq<Type>, first: nat)
      requires tmp == TMP && args == ARGS && first <= |types|
      modifies this`code
      ensures code == old(code) + PackCode(types, first, first, first)
    {
      var i: nat, j: nat := first, first;
      while i < |types|
        invariant first <= i <= |types|
        invariant code + PackCode(types, i, j, first) == old(code) + PackCode(types, first, first, first)
      {
        ghost var before := code;
        BuildOne(tmp, args, types[i], i, j, first);
        PackCodeSplits(types, i, j, first);
        Regroup(before, PackOne(types[i], i, j, first), PackCode(types, i + 1, j + types[i].Width(), first));
        if types[i].Wide() {
          j := j + 1;
        }
        i, j := i + 1, j + 1;
      }
    }

    method BuildOne(tmp: Reg, args: Reg, t: Type, i: nat, j: nat, first: nat)
      requires tmp == TMP && args == ARGS && first <= i
      modifies this`code
      ensures code == old(code) + PackOne(t, i, j, first)
    {
      BuildBoxIfPrimitive(Param(j), t, Param(j));
      Add(Const(tmp, i - first));
      Add(AputObject(args, Param(j), tmp));
    }

    method BuildCall(q: Request, tmp: Reg, args: Reg)
      requires tmp == TMP && args == ARGS && locals == 2
      modifies this`code, this`locals
      ensures code == old(code) + ([GetHookerField(TMP)] + CallCode(q))
      ensures locals == if !q.pack && q.isStatic && |q.shorty| == 1 then 3 else 2
    {
      Add(GetHookerField(tmp));
      if q.pack {
        Add(InvokeVirtual(tmp, tmp, [args]));
      } else if q.isStatic {
        var zero := Param(0);
        if |q.shorty| == 1 {
          zero := AllocRegister();
        }
        Add(Const(zero, 0));
        if q.nativeApi {
          Add(InvokeStatic(tmp, [zero, args, tmp]));
        } else {
          Add(InvokeVirtual(tmp, tmp, [zero, args]));
        }
      } else if q.nativeApi {
        Add(InvokeStatic(tmp, [Param(0), args, tmp]));
      } else {
        Add(InvokeVirtual(tmp, tmp, [Param(0), args]));
      }
    }

    method BuildReturn(t: Type, tmp: Reg)
      requires tmp == TMP
      modifies this`code
      ensures code == old(code) + ReturnCode(t)
    {
      if t.Void? {
        Add(ReturnVoid);
      } else if t.Primitive() {
        Add(CheckCast(tmp, t));
        Add(UnboxValue(tmp, t, tmp));
        Add(Return(tmp, false, t.Wide()));
      } else {
        Add(Return(tmp, true, false));
      }
    }
  }

  lemma Regroup(a: seq<Instruction>, b: seq<Instruction>, c: seq<Instruction>)
    ensures (a + b) + c == a + (b + c)
  {
  }

  lemma HookCodeGroups(q: Request)
    requires q.Valid()
    ensures
      var k := q.Skipped();
      HookCode(q).code == ((Prologue(q) + PackCode(q.ParamTypes(), k, k, k)) + ([GetHookerField(TMP)] + CallCode(q))) +
                          ReturnCode(q.shorty[0])
  {
    var k := q.Skipped();
    var pack, get, call, ret :=
      PackCode(q.ParamTypes(), k, k, k), [GetHookerField(TMP)], CallCode(q), ReturnCode(q.shorty[0]);
    Regroup(get, call, ret);
    Regroup(Prologue(q) + pack, get + call, ret);
    Regroup(Prologue(q), pack, get + (call + ret));
  }

  /** An empty shorty is refused. */
  method BuildHook(q: Request) returns (b: MethodBuilder?)
    requires q.WellTyped()
    ensures b == null <==> |q.shorty| == 0
    ensures b != null ==> fresh(b) && b.code == HookCode(q).code && b.locals == HookCode(q).locals
  {
    if |q.shorty| == 0 {
      return null;
    }
    var types := (if q.isStatic then [] else [Object]) + q.shorty[1..];
    b := new MethodBuilder();
    var tmp := b.AllocRegister();
    b.Add(Const(tmp, if q.pack then |types| else |q.shorty| - 1));
    var args := b.AllocRegister();
    b.Add(NewArray(args, tmp));
    if q.pack {
      b.BuildPacking(tmp, args, types, 0);
    } else {
      b.BuildPacking(tmp, args, types, if q.isStatic then 0 else 1);
    }
    assert b.code == Prologue(q) + PackCode(types, q.Skipped(), q.Skipped(), q.Skipped());
    b.BuildCall(q, tmp, args);
    b.BuildReturn(q.shorty[0], tmp);
    HookCodeGroups(q);
  }
}
