/**
  * The hand-written native entry that stands in for the generated stub of a fast native method: it
  * reads the arguments from a va_list and calls the callback through JNI.
  */
module NativeHooker {
  import opened Wrappers
  import opened StubMachine
  import opened HookStub

  /** JNI may only unbox objects of the right class; null is tested for. */
  predicate Unboxable(t: Type, answer: Obj) {
    t.Primitive() ==> answer.Null? || (answer.Boxed? && answer.kind == t)
  }

  /** What the native entry hands to the callback: one more null when a static method packs. */
  function NativeCall(q: Request, field: Obj, vs: seq<Value>): Call
    requires q.Valid() && HaveTypes(vs, q.ParamTypes())
  {
    var owed := OwedCall(q, field, vs);
    if q.pack && q.isStatic then owed.(packed := owed.packed + [Null]) else owed
  }

  /** The result variable starts as zero and keeps that value for a null answer. */
  function NativeResult(t: Type, answer: Obj): Value
    requires Unboxable(t, answer)
  {
    if t.Void? then Nothing
    else if t.Object? then Reference(answer)
    else if answer.Null? then Prim(0)
    else Prim(answer.bits)
  }

  /** A Java callback without its hooker object is not called. */
  predicate Silent(q: Request, env: Env) { env.field.Null? && !q.nativeApi }

  /** The calls the native entry makes, and the answer it unboxes. */
  function NativeCalls(q: Request, env: Env, vs: seq<Value>): seq<Call>
    requires q.Valid() && HaveTypes(vs, q.ParamTypes())
  {
    if Silent(q, env) then [] else [NativeCall(q, env.field, vs)]
  }

  function NativeAnswer(q: Request, env: Env): Obj {
    if Silent(q, env) then Null else env.answer
  }

  lemma OwedFromBoxed(q: Request, field: Obj, vs: seq<Value>)
    requires q.Valid() && HaveTypes(vs, q.ParamTypes())
    ensures OwedCall(q, field, vs).packed == BoxAll(q.ParamTypes(), vs)[q.Skipped()..]
  {
  }

  method PackArguments(q: Request, field: Obj, va: seq<Value>) returns (receiver: Obj, args: array<Obj>)
    requires q.Valid() && HaveTypes(va, q.ParamTypes())
    ensures receiver == if q.isStatic || q.pack then Null else va[0].obj
    ensures args[..] == NativeCall(q, field, va).packed
  {
    var count := |q.shorty| - 1;
    receiver := Null;
    args := new Obj[count + if q.pack then 1 else 0](_ => Null);
    var argIndex, next := 0, 0;
    if !q.isStatic {
      if q.pack {
        args[0] := va[next].obj;
        argIndex := argIndex + 1;
      } else {
        receiver := va[next].obj;
      }
      next := next + 1;
    }
    ghost var skipped := next;
    ghost var owed := BoxAll(q.ParamTypes(), va)[q.Skipped()..];
    for i := 0 to count
      invariant next == skipped + i
      invariant forall k | 0 <= k < i + argIndex :: args[k] == owed[k]
      invariant forall k | i + argIndex <= k < args.Length :: args[k] == Null
    {
      args[i + argIndex] := Box(q.shorty[i + 1], va[next]);
      next := next + 1;
    }
    OwedFromBoxed(q, field, va);
    assert args[..|owed|] == owed;
  }

  method UnwrapResult(t: Type, wrapped: Obj) returns (result: Value)
    requires Unboxable(t, wrapped)
    ensures result == NativeResult(t, wrapped)
  {
    match t
    case Object => result := Reference(wrapped);
    case Void => result := Nothing;
    case _ =>
      result := Prim(0);
      if !wrapped.Null? {
        result := Prim(wrapped.bits);
      }
  }

  method NativeHookerEntry(q: Request, env: Env, va: seq<Value>) returns (call: Option<Call>, result: Value)
    requires q.Valid() && HaveTypes(va, q.ParamTypes()) && Unboxable(q.shorty[0], env.answer)
    ensures
      && call == (if Silent(q, env) then None else Some(NativeCall(q, env.field, va)))
      && result == NativeResult(q.shorty[0], NativeAnswer(q, env))
  {
    var receiver, args := PackArguments(q, env.field, va);
    var wrapped := Null;
    call := None;
    if q.nativeApi {
      call := Some(Call(None, [receiver, ArgsArray, env.field], args[..]));
      wrapped := env.answer;
    } else if !env.field.Null? {
      call := Some(Call(Some(env.field), if q.pack then [ArgsArray] else [receiver, ArgsArray], args[..]));
      wrapped := env.answer;
    }
    result := UnwrapResult(q.shorty[0], wrapped);
  }

  /**
    * The native entry and the generated stub make the same calls exactly when the target is not both
    * static and packing, or the hooker object is missing and neither calls; otherwise the array of the
    * native entry has one null more at its end. They give the same result exactly when the hooker object
    * is there and no primitive method answers null: otherwise the stub throws a NullPointerException and
    * the native entry answers as the generated backup would, with zero, null or nothing.
    */
  lemma NativeEntryRefinesStub(q: Request, vs: seq<Value>, env: Env)
    requires q.Valid() && HaveTypes(vs, q.ParamTypes()) && Unboxable(q.shorty[0], env.answer)
    ensures
      var end := Exec(HookCode(q).code, Entered(HookCode(q), q.ParamTypes(), vs), env);
      && (end.calls == NativeCalls(q, env, vs) <==> Silent(q, env) || !(q.isStatic && q.pack))
      && (end.outcome == Returned(NativeResult(q.shorty[0], NativeAnswer(q, env))) <==>
          !Silent(q, env) && !(q.shorty[0].Primitive() && env.answer.Null?))
    ensures
      var end := Exec(HookCode(q).code, Entered(HookCode(q), q.ParamTypes(), vs), env);
      !Silent(q, env) && q.isStatic && q.pack ==>
        |end.calls| == 1 && NativeCalls(q, env, vs) == [end.calls[0].(packed := end.calls[0].packed + [Null])]
    ensures
      var end := Exec(HookCode(q).code, Entered(HookCode(q), q.ParamTypes(), vs), env);
      var backup := Exec(BackupCode(q).code, Entered(BackupCode(q), q.ParamTypes(), vs), env);
      Silent(q, env) || (q.shorty[0].Primitive() && env.answer.Null?) ==>
        end.outcome == NullPointer && backup.outcome == Returned(NativeResult(q.shorty[0], NativeAnswer(q, env)))
  {
    HookCallsBack(q, vs, env);
    BackupAnswersZero(q, vs, env);
    var owed, made := OwedCall(q, env.field, vs), NativeCall(q, env.field, vs);
    assert q.isStatic && q.pack ==> |made.packed| == |owed.packed| + 1;
  }

  // ----- which native entry is registered

  /** There is one instance of the native entry for each result type it is written for. */
  datatype Registration = NotBuilt | Aborted | Registered(result: Type)

  /** What becomes of a request to hook a fast native method. */
  method RegisterEntry(shorty: seq<Type>) returns (r: Registration)
    ensures r == RegistrationOf(shorty)
  {
    if shorty == [] {
      return NotBuilt;
    }
    match shorty[0]
    case Boolean => r := Registered(Boolean);
    case Byte => r := Registered(Byte);
    case Short => r := Registered(Short);
    case Int => r := Registered(Int);
    case Float => r := Registered(Float);
    case Long => r := Registered(Long);
    case Double => r := Registered(Double);
    case Object => r := Registered(Object);
    case Void => r := Registered(Void);
    case _ => r := Aborted;
  }

  /** An entry for the method's own result type, except that there is none for char. */
  function RegistrationOf(shorty: seq<Type>): Registration {
    if shorty == [] then NotBuilt else if shorty[0] == Char then Aborted else Registered(shorty[0])
  }

  /**
    * Hooking a fast native method aborts the process exactly when the method returns char, although
    * the stub emitted for such a method would serve it. Every other method gets the entry that unboxes
    * its own result type.
    */
  lemma AbortsExactlyForChar(q: Request, vs: seq<Value>, env: Env)
    requires q.Valid() && HaveTypes(vs, q.ParamTypes()) && !Silent(q, env)
    ensures RegistrationOf(q.shorty).Aborted? <==> q.shorty[0].Char?
    ensures !q.shorty[0].Char? ==> RegistrationOf(q.shorty) == Registered(q.shorty[0])
    ensures
      var end := Exec(HookCode(q).code, Entered(HookCode(q), q.ParamTypes(), vs), env);
      q.shorty[0].Char? && env.answer.Boxed? && env.answer.kind.Char? ==> end.outcome == Returned(Prim(env.answer.bits))
  {
    HookCallsBack(q, vs, env);
  }

  /** Such a method: static, without parameters, hooked through the native API. */
  lemma CharMethodAborts()
    ensures exists q: Request :: q.Valid() && q.isStatic && q.nativeApi && RegistrationOf(q.shorty).Aborted?
  {
    var q := Request([Char], true, true, false);
    assert q.Valid() && RegistrationOf(q.shorty).Aborted?;
  }
}
