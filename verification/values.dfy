/**
 The universal value representation shared by the reader, the printer and
 the evaluator: Ruby's nil, true/false, Integer, Float, String, Symbol,
 `Sexp::Cons`, `Builtin` and `Interpreter::Closure` objects, as one tagged union.
 */
module Values {

  datatype Option<+T> = None | Some(value: T)

  datatype Result<+T, +E> = Ok(value: T) | Err(error: E)

  /** The closed set of primitives `Builtin` accepts: `cons`, `car`, `cdr`, `+`. */
  datatype Prim = ConsOp | CarOp | CdrOp | AddOp

  /** A Lisp value. `Float` keeps the token text it was read from; `Str` keeps
      the literal's text between the quotes with its escapes still encoded;
      `Closure` refers to its defining frame by id in the evaluator's store. */
  datatype Value =
    | Nil
    | Bool(b: bool)
    | Int(i: int)
    | Float(text: string)
    | Str(lit: string)
    | Sym(name: string)
    | Cons(car: Value, cdr: Value)
    | Builtin(op: Prim)
    | Closure(env: nat, params: Value, body: seq<Value>)

  /** The symbol under which a primitive is installed in every frame. */
  function PrimName(p: Prim): string {
    match p
    case ConsOp => "cons"
    case CarOp => "car"
    case CdrOp => "cdr"
    case AddOp => "+"
  }

  /** `Builtin.new(sym)`: the primitive called `name`, or None where the
      constructor raises "no such builtin". */
  function PrimNamed(name: string): (r: Option<Prim>)
    ensures r.Some? ==> PrimName(r.value) == name
    ensures r.None? <==> forall p: Prim :: PrimName(p) != name
  {
    if name == "cons" then Some(ConsOp)
    else if name == "car" then Some(CarOp)
    else if name == "cdr" then Some(CdrOp)
    else if name == "+" then Some(AddOp)
    else None
  }

  /** The cars of a cons chain, in order, as `Cons#each` yields them; the walk
      stops at the first cdr that is not a cons, so an improper tail is dropped. */
  function Elements(v: Value): (r: seq<Value>)
    ensures |r| == 0 <==> !v.Cons?
    ensures v.Cons? ==> r[0] == v.car
  {
    if v.Cons? then [v.car] + Elements(v.cdr) else []
  }

  /** The value that ends a cons chain: nil for a proper list. */
  function ListTail(v: Value): Value {
    if v.Cons? then ListTail(v.cdr) else v
  }

  /** The right-nested chain of cons cells holding `xs` and ending in `tail`. */
  function FromSeq(xs: seq<Value>, tail: Value): Value {
    if |xs| == 0 then tail else Cons(xs[0], FromSeq(xs[1..], tail))
  }

  /** The proper list holding `xs`. */
  function List(xs: seq<Value>): Value {
    FromSeq(xs, Nil)
  }

  /** Ruby's `to_a` on a list tail: nil gives no elements, a cons gives its
      elements, and any other value has no `to_a` and fails with itself. */
  function ToArray(v: Value): (r: Result<seq<Value>, Value>)
    ensures r.Ok? <==> v.Nil? || v.Cons?
    ensures r.Ok? ==> r.value == Elements(v)
    ensures r.Err? ==> r.error == v
  {
    match v
    case Nil => Ok([])
    case Cons(_, _) => Ok(Elements(v))
    case _ => Err(v)
  }

  /** Splitting a chain into its elements and its tail loses nothing. */
  lemma {:induction false} FromSeqElements(v: Value)
    ensures FromSeq(Elements(v), ListTail(v)) == v
  {
    if v.Cons? {
      FromSeqElements(v.cdr);
      assert Elements(v)[1..] == Elements(v.cdr);
    }
  }

  /** A chain built from `xs` and a non-cons tail has exactly `xs` as its
      elements and that tail as its end. */
  lemma {:induction false} ElementsFromSeq(xs: seq<Value>, tail: Value)
    requires !tail.Cons?
    ensures Elements(FromSeq(xs, tail)) == xs
    ensures ListTail(FromSeq(xs, tail)) == tail
  {
    if |xs| > 0 {
      ElementsFromSeq(xs[1..], tail);
    }
  }

  /** `to_a` of a non-empty chain ignores its improper tail: the argument
      list of `(f a b . c)` is the same as that of `(f a b)`. */
  lemma ToArrayIgnoresTail(xs: seq<Value>, tail: Value)
    requires !tail.Cons?
    requires |xs| > 0 || tail.Nil?
    ensures ToArray(FromSeq(xs, tail)) == Ok(xs)
    ensures ToArray(FromSeq(xs, tail)) == ToArray(List(xs))
  {
    ElementsFromSeq(xs, tail);
    ElementsFromSeq(xs, Nil);
  }
}
