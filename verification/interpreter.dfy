/**
 The `Interpreter` class and its `Closure`: evaluation of a value in a frame
 of the store, the special forms `quote`, `lambda`, `define` and `set!`
 (`if` is named as special but has no rule), application of builtins and
 closures. An interpreter object is the id of its frame. Every evaluation
 step spends one unit of fuel, because evaluated programs need not terminate.
 */
module Interpreter {
  import opened Values
  import opened Scope
  import opened EvalErrors
  import opened Builtins

  function SpecialName(f: Special): string {
    match f
    case DefineForm => "define"
    case IfForm => "if"
    case QuoteForm => "quote"
    case LambdaForm => "lambda"
    case SetForm => "set!"
  }

  /** Membership in `@@specials`: the form a head symbol names, if any. */
  function SpecialNamed(name: string): (r: Option<Special>)
    ensures r.Some? ==> SpecialName(r.value) == name
    ensures r.None? <==> forall f: Special :: SpecialName(f) != name
  {
    if name == "define" then Some(DefineForm)
    else if name == "if" then Some(IfForm)
    else if name == "quote" then Some(QuoteForm)
    else if name == "lambda" then Some(LambdaForm)
    else if name == "set!" then Some(SetForm)
    else None
  }

  /** Every frame the first store has is still there with the same parent. */
  ghost predicate Extends(st: Store, st': Store) {
    && st.next <= st'.next
    && forall id | id in st.frames :: id in st'.frames && st'.frames[id].parent == st.frames[id].parent
  }

  /** `Interpreter.new`: a root frame holding the four builtins. */
  function Initial(): (r: (Store, nat))
    ensures Valid(r.0) && r.1 in r.0.frames && r.0.frames[r.1].parent.None?
    ensures forall p: Prim :: Includes(r.0, r.1, PrimName(p)) && Get(r.0, r.1, PrimName(p)) == Builtin(p)
    ensures forall y | PrimNamed(y).None? :: !Includes(r.0, r.1, y)
  {
    var (st, root) := NewScope(Store(map[], 0), None);
    (AddAllToScope(st, root), root)
  }

  /** `Interpreter#nest`: a child frame of `id` with the builtins bound in it again. */
  function NestInterp(st: Store, id: nat): (r: (Store, nat))
    requires Valid(st) && id in st.frames
    ensures Valid(r.0) && r.1 !in st.frames && r.1 in r.0.frames
    ensures r.0.frames.Keys == st.frames.Keys + {r.1} && r.0.next > st.next
    ensures forall j | j in st.frames :: r.0.frames[j] == st.frames[j]
    ensures r.0.frames[r.1].parent == Some(id)
    ensures forall p: Prim :: PrimName(p) in r.0.frames[r.1].vars && r.0.frames[r.1].vars[PrimName(p)] == Builtin(p)
    ensures forall y | PrimNamed(y).None? :: y !in r.0.frames[r.1].vars
  {
    var (st1, c) := Nest(st, id);
    (AddAllToScope(st1, c), c)
  }

  /** The names a closure's parameter list binds: none when the list is nil
      or false (`if @lambda_list`), the elements of a cons chain, and a
      failure for any other value, which has no `zip`. */
  function ParamNames(params: Value): (r: Result<seq<Value>, EvalError>)
    ensures r.Ok? <==> params.Nil? || params == Bool(false) || params.Cons?
    ensures r.Ok? ==> r.value == Elements(params)
  {
    match params
    case Nil => Ok([])
    case Bool(b) => if b then Err(BadParamList(params)) else Ok([])
    case Cons(_, _) => Ok(Elements(params))
    case _ => Err(BadParamList(params))
  }

  /** The argument paired with parameter `k` by Ruby's `zip`: nil past the
      end of the arguments. */
  function PadArg(args: seq<Value>, k: nat): Value {
    if k < |args| then args[k] else Nil
  }

  /** `@lambda_list.zip(args).each { |name, val| ninterp[name] = val }`:
      bind each parameter in turn to its argument, nil when arguments run
      out; extra arguments are dropped. A parameter that is not a symbol
      would be stored under a key no lookup ever asks for, so it is skipped. */
  function Zip(st: Store, c: nat, names: seq<Value>, args: seq<Value>): (r: Store)
    requires c in st.frames
    ensures r.next == st.next && r.frames.Keys == st.frames.Keys
    ensures forall j | j in st.frames && j != c :: r.frames[j] == st.frames[j]
    ensures r.frames[c].parent == st.frames[c].parent
    ensures Valid(st) ==> Valid(r)
    decreases |names|
  {
    if |names| == 0 then st
    else
      var st1 := if names[0].Sym? then Assign(st, c, names[0].name, PadArg(args, 0)) else st;
      Zip(st1, c, names[1..], if |args| > 0 then args[1..] else [])
  }

  /** The frame a closure call runs its body in: `@interp.nest`, a child of
      the closure's defining frame with the builtins bound again, then the
      parameters bound in it. Nothing older than the new frame changes. */
  function CallFrame(st: Store, env: nat, names: seq<Value>, args: seq<Value>): (r: (Store, nat))
    requires Valid(st) && env in st.frames
    ensures Valid(r.0) && r.1 !in st.frames && r.1 in r.0.frames && r.0.frames[r.1].parent == Some(env)
    ensures r.0.frames.Keys == st.frames.Keys + {r.1} && r.0.next > st.next
    ensures forall j | j in st.frames :: r.0.frames[j] == st.frames[j]
  {
    var (st1, c) := NestInterp(st, env);
    (Zip(st1, c, names, args), c)
  }

  /** `Interpreter#eval`. A symbol is looked up through the chain; a cons
      whose head is a special-form name goes to that form with its unevaluated
      arguments; any other cons evaluates its head, then its arguments left to
      right, then calls the head's value; everything else evaluates to itself. */
  function Eval(fuel: nat, st: Store, sc: nat, e: Value): (r: Result<(Value, Store), EvalError>)
    requires Valid(st) && sc in st.frames
    ensures r.Ok? ==> Valid(r.value.1) && Extends(st, r.value.1)
    decreases fuel, 0
  {
    if fuel == 0 then Err(OutOfFuel)
    else
      match e
      case Sym(x) =>
        if Includes(st, sc, x) then Ok((Get(st, sc, x), st)) else Err(Unbound(x))
      case Cons(head, rest) =>
        if head.Sym? && SpecialNamed(head.name).Some? then (
          match ToArray(rest)
          case Err(t) => Err(NotAList(t))
          case Ok(args) => EvalSpecial(fuel - 1, st, sc, SpecialNamed(head.name).value, args))
        else Application(fuel - 1, st, sc, head, rest)
      case _ => Ok((e, st))
  }

  /** `eval(obj.car).call(*(obj.cdr.to_a.map { ... }))`: the operator is
      evaluated first; then the argument list must be a list, and its
      elements are evaluated left to right; then the operator's value is
      called with them. */
  function Application(fuel: nat, st: Store, sc: nat, head: Value, rest: Value): (r: Result<(Value, Store), EvalError>)
    requires Valid(st) && sc in st.frames
    ensures r.Ok? ==> Valid(r.value.1) && Extends(st, r.value.1)
    decreases fuel, 3
  {
    match Eval(fuel, st, sc, head)
    case Err(x) => Err(x)
    case Ok((callee, st1)) =>
      match ToArray(rest)
      case Err(t) => Err(NotAList(t))
      case Ok(argExprs) =>
        match EvalArgs(fuel, st1, sc, argExprs)
        case Err(x) => Err(x)
        case Ok((args, st2)) => Apply(fuel, st2, callee, args)
  }

  /** `send(form, *args)`: a special form, with the arity its Ruby method
      has: `quote` and `set!` exactly 1 and 2 arguments, `lambda` and
      `define` at least 1; `if` has no method at all. */
  function EvalSpecial(fuel: nat, st: Store, sc: nat, form: Special, args: seq<Value>): (r: Result<(Value, Store), EvalError>)
    requires Valid(st) && sc in st.frames
    ensures r.Ok? ==> Valid(r.value.1) && Extends(st, r.value.1)
    decreases fuel, 1
  {
    match form
    case IfForm => Err(NoRule(IfForm))
    case QuoteForm =>
      if |args| != 1 then Err(FormArity(QuoteForm, |args|)) else Ok((args[0], st))
    case LambdaForm =>
      if |args| == 0 then Err(FormArity(LambdaForm, 0)) else Ok((Closure(sc, args[0], args[1..]), st))
    case DefineForm =>
      if |args| == 0 then Err(FormArity(DefineForm, 0))
      else (
        match args[0]
        case Sym(x) =>
          if |args| != 2 then Err(ValueDefineArity(|args| - 1))
          else (
            match Eval(fuel, st, sc, args[1])
            case Err(err) => Err(err)
            case Ok((v, st1)) => Ok((v, Assign(st1, sc, x, v))))
        case Cons(name, params) =>
          var c := Closure(sc, params, args[1..]);
          Ok((c, if name.Sym? then Assign(st, sc, name.name, c) else st))
        case _ => Err(InvalidDefineTarget(args[0])))
    case SetForm =>
      if |args| != 2 then Err(FormArity(SetForm, |args|))
      else if !args[0].Sym? then Err(NotASymbol(args[0]))
      else if !Includes(st, sc, args[0].name) then Err(Unbound(args[0].name))
      else Ok((args[1], Assign(st, sc, args[0].name, args[1])))
  }

  /** The arguments of an application, evaluated left to right in the same
      frame, each in the store the previous one left. */
  function EvalArgs(fuel: nat, st: Store, sc: nat, es: seq<Value>): (r: Result<(seq<Value>, Store), EvalError>)
    requires Valid(st) && sc in st.frames
    ensures r.Ok? ==> |r.value.0| == |es| && Valid(r.value.1) && Extends(st, r.value.1)
    decreases fuel, 1, |es|
  {
    if |es| == 0 then Ok(([], st))
    else
      match Eval(fuel, st, sc, es[0])
      case Err(x) => Err(x)
      case Ok((v, st1)) =>
        match EvalArgs(fuel, st1, sc, es[1..])
        case Err(x) => Err(x)
        case Ok((vs, st2)) => Ok(([v] + vs, st2))
  }

  /** `callee.call(*args)`: a builtin runs its primitive; a closure runs
      `Closure#call`; any other value has no `call`. */
  function Apply(fuel: nat, st: Store, callee: Value, args: seq<Value>): (r: Result<(Value, Store), EvalError>)
    requires Valid(st)
    ensures r.Ok? ==> Valid(r.value.1) && Extends(st, r.value.1)
    decreases fuel, 2
  {
    match callee
    case Builtin(op) => (
      match ApplyPrim(op, args)
      case Ok(v) => Ok((v, st))
      case Err(x) => Err(x))
    case Closure(env, params, body) =>
      if env !in st.frames then Err(DanglingScope(env))
      else (
        match ParamNames(params)
        case Err(x) => Err(x)
        case Ok(names) =>
          var (st1, c) := CallFrame(st, env, names, args);
          EvalBody(fuel, st1, c, body, Nil))
    case _ => Err(NotCallable(callee))
  }

  /** The body loop of `Closure#call`: `ret` starts as nil and takes the
      value of each body expression in turn. */
  function EvalBody(fuel: nat, st: Store, sc: nat, body: seq<Value>, ret: Value): (r: Result<(Value, Store), EvalError>)
    requires Valid(st) && sc in st.frames
    ensures r.Ok? ==> Valid(r.value.1) && Extends(st, r.value.1)
    decreases fuel, 1, |body|
  {
    if |body| == 0 then Ok((ret, st))
    else
      match Eval(fuel, st, sc, body[0])
      case Err(x) => Err(x)
      case Ok((v, st1)) => EvalBody(fuel, st1, sc, body[1..], v)
  }
}
