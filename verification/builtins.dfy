/**
 The `Builtin` class: the four primitives, how they are installed in a
 frame, and what each computes from its arguments.
 */
module Builtins {
  import opened Values
  import opened Scope
  import opened EvalErrors

  /** The Ruby method arity of each primitive. */
  function Arity(op: Prim): nat {
    match op
    case ConsOp => 2
    case CarOp => 1
    case CdrOp => 1
    case AddOp => 2
  }

  /** `Builtin.add_all_to_scope`: bind each primitive's name to it in frame `id`. */
  function AddAllToScope(st: Store, id: nat): (r: Store)
    requires id in st.frames
    ensures r.next == st.next && r.frames.Keys == st.frames.Keys
    ensures forall j | j in st.frames && j != id :: r.frames[j] == st.frames[j]
    ensures r.frames[id].parent == st.frames[id].parent
    ensures forall p: Prim :: PrimName(p) in r.frames[id].vars && r.frames[id].vars[PrimName(p)] == Builtin(p)
    ensures forall y | PrimNamed(y).None? ::
      (y in r.frames[id].vars <==> y in st.frames[id].vars) &&
      (y in st.frames[id].vars ==> r.frames[id].vars[y] == st.frames[id].vars[y])
    ensures Valid(st) ==> Valid(r)
  {
    var f := st.frames[id];
    var prims := map["cons" := Builtin(ConsOp), "car" := Builtin(CarOp), "cdr" := Builtin(CdrOp), "+" := Builtin(AddOp)];
    assert forall p: Prim :: PrimName(p) in prims && prims[PrimName(p)] == Builtin(p);
    assert forall y | PrimNamed(y).None? :: y !in prims;
    st.(frames := st.frames[id := f.(vars := f.vars + prims)])
  }

  /** `+`: integer sum (Ruby integers do not overflow) or string
      concatenation; anything else fails. */
  function Add(a: Value, b: Value): (r: Result<Value, EvalError>)
    ensures r.Ok? <==> (a.Int? && b.Int?) || (a.Str? && b.Str?)
    ensures a.Int? && b.Int? ==> r == Ok(Int(a.i + b.i))
    ensures a.Str? && b.Str? ==> r == Ok(Str(a.lit + b.lit))
  {
    if a.Int? && b.Int? then Ok(Int(a.i + b.i))
    else if a.Str? && b.Str? then Ok(Str(a.lit + b.lit))
    else if (a.Int? || a.Float?) && (b.Int? || b.Float?) then Err(FloatArithmetic)
    else Err(PrimType(AddOp))
  }

  /** The algebra `+` inherits from Ruby: whether it succeeds does not depend
      on the operands' order, integer sums commute, and string concatenation
      is associative. */
  lemma AddLaws(a: Value, b: Value, c: Value)
    ensures Add(a, b).Ok? <==> Add(b, a).Ok?
    ensures a.Int? && b.Int? ==> Add(a, b) == Add(b, a)
    ensures a.Str? && b.Str? && c.Str? ==>
      Add(Add(a, b).value, c) == Add(a, Add(b, c).value) == Ok(Str(a.lit + b.lit + c.lit))
  {
    if a.Str? && b.Str? && c.Str? {
      assert a.lit + (b.lit + c.lit) == a.lit + b.lit + c.lit;
    }
  }

  /** `Builtin#call`: run the primitive on the arguments, failing when their
      number is not its arity or `car`/`cdr` are not given a cons. */
  function ApplyPrim(op: Prim, args: seq<Value>): (r: Result<Value, EvalError>)
    ensures |args| != Arity(op) <==> r == Err(PrimArity(op, |args|))
    ensures r.Ok? && op == ConsOp ==> r.value.Cons? && r.value.car == args[0] && r.value.cdr == args[1]
    ensures op == CarOp || op == CdrOp ==> (r.Ok? <==> |args| == 1 && args[0].Cons?)
    ensures r.Ok? && op == CarOp ==> r.value == args[0].car
    ensures r.Ok? && op == CdrOp ==> r.value == args[0].cdr
  {
    if |args| != Arity(op) then Err(PrimArity(op, |args|))
    else
      match op
      case ConsOp => Ok(Cons(args[0], args[1]))
      case CarOp => if args[0].Cons? then Ok(args[0].car) else Err(PrimType(CarOp))
      case CdrOp => if args[0].Cons? then Ok(args[0].cdr) else Err(PrimType(CdrOp))
      case AddOp => Add(args[0], args[1])
  }

  /** `car` and `cdr` take back apart what `cons` built. */
  lemma ConsCarCdr(a: Value, b: Value)
    ensures ApplyPrim(ConsOp, [a, b]) == Ok(Cons(a, b))
    ensures ApplyPrim(CarOp, [ApplyPrim(ConsOp, [a, b]).value]) == Ok(a)
    ensures ApplyPrim(CdrOp, [ApplyPrim(ConsOp, [a, b]).value]) == Ok(b)
  {
  }
}
