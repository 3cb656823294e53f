/** Dex registers, the instructions a hook stub is made of, and what running them does. */
module StubMachine {
  import opened Wrappers

  /** A shorty letter: the primitive types, `Object` for every reference and `Void`. */
  datatype Type = Boolean | Byte | Short | Char | Int | Float | Long | Double | Object | Void {
    predicate Wide() { Long? || Double? }
    predicate Primitive() { !Object? && !Void? }
    function Width(): nat { if Wide() then 2 else 1 }
  }

  /** A reference. `ArgsArray` is the one Object[] that a stub allocates. */
  datatype Obj = Null | Boxed(kind: Type, bits: int) | Plain(id: int) | ArgsArray

  /** An argument or a result before boxing. */
  datatype Value = Nothing | Prim(bits: int) | Reference(obj: Obj)

  predicate HasType(v: Value, t: Type) {
    if t.Object? then v.Reference? else t.Primitive() && v.Prim?
  }

  function Box(t: Type, v: Value): Obj
    requires HasType(v, t)
  {
    if t.Object? then v.obj else Boxed(t, v.bits)
  }

  /** What a register holds; a wide value takes two neighbouring registers. */
  datatype Word = Unset | Narrow(bits: int) | Low(bits: int) | High(bits: int) | Ref(obj: Obj)

  datatype Reg = Local(n: nat) | Param(n: nat)

  function Pair(r: Reg): Reg {
    if r.Local? then Local(r.n + 1) else Param(r.n + 1)
  }

  datatype Instruction =
    | Const(dest: Reg, bits: int)
    | ConstWide(dest: Reg, bits: int)
    | NewArray(dest: Reg, size: Reg)
    | ValueOf(dest: Reg, kind: Type, src: Reg)   // T.valueOf and the move of its result
    | AputObject(into: Reg, value: Reg, index: Reg)
    | GetHookerField(dest: Reg)
    | InvokeVirtual(dest: Reg, receiver: Reg, args: seq<Reg>)
    | InvokeStatic(dest: Reg, args: seq<Reg>)
    | CheckCast(reg: Reg, kind: Type)
    | UnboxValue(dest: Reg, kind: Type, src: Reg)  // tValue() and the move of its result
    | ReturnVoid
    | Return(src: Reg, isObject: bool, wide: bool)

  /** One call of the callback: on which object, with which arguments, and what the array held then. */
  datatype Call = Call(callback: Option<Obj>, args: seq<Obj>, packed: seq<Obj>)

  datatype Outcome = Running | Returned(value: Value) | ClassCast | NullPointer | Stuck

  datatype Machine = Machine(locals: seq<Word>, params: seq<Word>, packed: Option<seq<Obj>>,
                             calls: seq<Call>, outcome: Outcome)

  /** What the stub finds outside: the object in the hooker field, and what the callback returns. */
  datatype Env = Env(field: Obj, answer: Obj)

  predicate InFrame(m: Machine, r: Reg) {
    if r.Local? then r.n < |m.locals| else r.n < |m.params|
  }

  function Get(m: Machine, r: Reg): Word {
    if !InFrame(m, r) then Unset else if r.Local? then m.locals[r.n] else m.params[r.n]
  }

  /** The constant 0 doubles as the null reference. */
  function GetObj(m: Machine, r: Reg): Option<Obj> {
    match Get(m, r)
    case Ref(o) => Some(o)
    case Narrow(bits) => if bits == 0 then Some(Null) else None
    case _ => None
  }

  function GetPrim(m: Machine, r: Reg, wide: bool): Option<int> {
    if wide then
      if Get(m, r).Low? && Get(m, Pair(r)) == High(Get(m, r).bits) then Some(Get(m, r).bits) else None
    else if Get(m, r).Narrow? then Some(Get(m, r).bits) else None
  }

  function Set(m: Machine, r: Reg, w: Word): Machine {
    if !InFrame(m, r) then m.(outcome := Stuck)
    else if r.Local? then m.(locals := m.locals[r.n := w])
    else m.(params := m.params[r.n := w])
  }

  function SetPrim(m: Machine, r: Reg, wide: bool, bits: int): Machine {
    if wide then Set(Set(m, r, Low(bits)), Pair(r), High(bits)) else Set(m, r, Narrow(bits))
  }

  function GetObjs(m: Machine, regs: seq<Reg>): Option<seq<Obj>> {
    if regs == [] then Some([])
    else
      var first := GetObj(m, regs[0]);
      var rest := GetObjs(m, regs[1..]);
      if first.Some? && rest.Some? then Some([first.value] + rest.value) else None
  }

  function Halt(m: Machine, outcome: Outcome): Machine {
    m.(outcome := outcome)
  }

  function Invoke(m: Machine, env: Env, dest: Reg, callback: Option<Obj>, regs: seq<Reg>): Machine {
    var args := GetObjs(m, regs);
    if args.None? || m.packed.None? then Halt(m, Stuck)
    else Set(m.(calls := m.calls + [Call(callback, args.value, m.packed.value)]), dest, Ref(env.answer))
  }

  function StoreArray(m: Machine, i: Instruction): Machine
    requires i.AputObject?
  {
    var value := GetObj(m, i.value);
    var index := GetPrim(m, i.index, false);
    if GetObj(m, i.into) == Some(ArgsArray) && m.packed.Some? && value.Some? && index.Some? &&
       0 <= index.value < |m.packed.value|
    then m.(packed := Some(m.packed.value[index.value := value.value]))
    else Halt(m, Stuck)
  }

  function Unbox(m: Machine, i: Instruction): Machine
    requires i.UnboxValue?
  {
    match GetObj(m, i.src)
    case Some(Null) => Halt(m, NullPointer)
    case Some(Boxed(kind, bits)) => if kind == i.kind then SetPrim(m, i.dest, kind.Wide(), bits) else Halt(m, Stuck)
    case _ => Halt(m, Stuck)
  }

  function Leave(m: Machine, i: Instruction): Machine
    requires i.Return?
  {
    if i.isObject then
      var o := GetObj(m, i.src);
      if o.Some? then Halt(m, Returned(Reference(o.value))) else Halt(m, Stuck)
    else
      var p := GetPrim(m, i.src, i.wide);
      if p.Some? then Halt(m, Returned(Prim(p.value))) else Halt(m, Stuck)
  }

  function Step(m: Machine, env: Env, i: Instruction): Machine {
    match i
    case Const(dest, bits) => Set(m, dest, Narrow(bits))
    case ConstWide(dest, bits) => SetPrim(m, dest, true, bits)
    case NewArray(dest, size) =>
      var n := GetPrim(m, size, false);
      if n.None? || n.value < 0 || m.packed.Some? then Halt(m, Stuck)
      else Set(m.(packed := Some(seq(n.value, k => Null))), dest, Ref(ArgsArray))
    case ValueOf(dest, kind, src) =>
      var p := GetPrim(m, src, kind.Wide());
      if p.None? then Halt(m, Stuck) else Set(m, dest, Ref(Boxed(kind, p.value)))
    case AputObject(_, _, _) => StoreArray(m, i)
    case GetHookerField(dest) => Set(m, dest, Ref(env.field))
    case InvokeVirtual(dest, receiver, args) =>
      (match GetObj(m, receiver)
       case None => Halt(m, Stuck)
       case Some(Null) => Halt(m, NullPointer)
       case Some(o) => Invoke(m, env, dest, Some(o), args))
    case InvokeStatic(dest, args) => Invoke(m, env, dest, None, args)
    case CheckCast(reg, kind) =>
      (match GetObj(m, reg)
       case None => Halt(m, Stuck)
       case Some(o) => if o.Null? || (o.Boxed? && o.kind == kind) then m else Halt(m, ClassCast))
    case UnboxValue(_, _, _) => Unbox(m, i)
    case ReturnVoid => Halt(m, Returned(Nothing))
    case Return(_, _, _) => Leave(m, i)
  }

  /** Runs code until it returns, throws, gets stuck or falls off its end. */
  function Exec(code: seq<Instruction>, m: Machine, env: Env): Machine {
    if code == [] || !m.outcome.Running? then m else Exec(code[1..], Step(m, env, code[0]), env)
  }

  lemma {:induction false} ExecAppend(a: seq<Instruction>, b: seq<Instruction>, m: Machine, env: Env)
    ensures Exec(a + b, m, env) == Exec(b, Exec(a, m, env), env)
  {
    if a == [] {
      assert a + b == b;
    } else if m.outcome.Running? {
      assert (a + b)[1..] == a[1..] + b;
      ExecAppend(a[1..], b, Step(m, env, a[0]), env);
    }
  }

  lemma ExecFirst(i: Instruction, rest: seq<Instruction>, m: Machine, env: Env)
    requires m.outcome.Running?
    ensures Exec([i] + rest, m, env) == Exec(rest, Step(m, env, i), env)
  {
    assert ([i] + rest)[1..] == rest;
  }

  /** The registers that hold a list of arguments when a method is entered. */
  function Words(t: Type, v: Value): (ws: seq<Word>)
    requires HasType(v, t)
    ensures |ws| == t.Width()
  {
    if t.Object? then [Ref(v.obj)]
    else if t.Wide() then [Low(v.bits), High(v.bits)]
    else [Narrow(v.bits)]
  }

  predicate HaveTypes(vs: seq<Value>, ts: seq<Type>) {
    |vs| == |ts| && forall i | 0 <= i < |vs| :: HasType(vs[i], ts[i])
  }

  function ParamWords(ts: seq<Type>, vs: seq<Value>): seq<Word>
    requires HaveTypes(vs, ts)
  {
    if ts == [] then [] else Words(ts[0], vs[0]) + ParamWords(ts[1..], vs[1..])
  }

  function BoxAll(ts: seq<Type>, vs: seq<Value>): seq<Obj>
    requires HaveTypes(vs, ts)
  {
    seq(|ts|, i requires 0 <= i < |ts| => Box(ts[i], vs[i]))
  }
}
