/**
 What the interpreter promises: symbol lookup, self-evaluating values,
 dispatch of the special forms whatever the names are bound to, the order
 of evaluation in an application, `define` and `set!` writing only the
 current frame, and closure calls running in a child of the defining frame.
 */
module InterpreterProps {
  import opened Values
  import opened Scope
  import opened EvalErrors
  import opened Builtins
  import opened Interpreter

  /** A symbol evaluates to the binding of the first frame in its chain that
      binds it, and leaves the store alone. */
  lemma EvalSymbolInnermost(fuel: nat, st: Store, sc: nat, x: string, k: nat)
    requires fuel > 0 && Valid(st) && sc in st.frames
    requires k < |Chain(st, sc)| && x in st.frames[Chain(st, sc)[k]].vars
    requires forall m :: 0 <= m < k ==> x !in st.frames[Chain(st, sc)[m]].vars
    ensures Eval(fuel, st, sc, Sym(x)) == Ok((st.frames[Chain(st, sc)[k]].vars[x], st))
  {
    IncludesIffInChain(st, sc, x);
    GetInnermost(st, sc, x, k);
  }

  /** A symbol no frame of the chain binds fails as unbound. */
  lemma EvalSymbolUnbound(fuel: nat, st: Store, sc: nat, x: string)
    requires fuel > 0 && Valid(st) && sc in st.frames
    requires forall k :: 0 <= k < |Chain(st, sc)| ==> x !in st.frames[Chain(st, sc)[k]].vars
    ensures Eval(fuel, st, sc, Sym(x)) == Err(Unbound(x))
  {
    IncludesIffInChain(st, sc, x);
  }

  /** A value that is neither a symbol nor a cons evaluates to itself. */
  lemma EvalSelf(fuel: nat, st: Store, sc: nat, e: Value)
    requires fuel > 0 && Valid(st) && sc in st.frames
    requires !e.Sym? && !e.Cons?
    ensures Eval(fuel, st, sc, e) == Ok((e, st))
  {
  }

  /** A list headed by a special-form name goes to that form with its
      elements unevaluated, whatever the name is bound to in the frame. */
  lemma SpecialDispatch(fuel: nat, st: Store, sc: nat, f: Special, args: seq<Value>)
    requires fuel > 0 && Valid(st) && sc in st.frames
    ensures Eval(fuel, st, sc, Cons(Sym(SpecialName(f)), List(args))) == EvalSpecial(fuel - 1, st, sc, f, args)
  {
    assert SpecialNamed(SpecialName(f)) == Some(f) by {
      match f
      case DefineForm =>
      case IfForm =>
      case QuoteForm =>
      case LambdaForm =>
      case SetForm =>
    }
    ToArrayIgnoresTail(args, Nil);
  }

  /** `quote` with exactly one operand returns it unevaluated; any other
      number of operands fails. */
  lemma QuoteOperand(fuel: nat, st: Store, sc: nat, args: seq<Value>)
    requires fuel > 0 && Valid(st) && sc in st.frames
    ensures Eval(fuel, st, sc, Cons(Sym("quote"), List(args))) ==
      if |args| == 1 then Ok((args[0], st)) else Err(FormArity(QuoteForm, |args|))
  {
    SpecialDispatch(fuel, st, sc, QuoteForm, args);
  }

  /** `if` is a special form without a rule: it always fails, and not for
      want of fuel. */
  lemma IfAlwaysFails(fuel: nat, st: Store, sc: nat, rest: Value)
    requires Valid(st) && sc in st.frames
    ensures Eval(fuel, st, sc, Cons(Sym("if"), rest)).Err?
    ensures fuel > 0 && (rest.Nil? || rest.Cons?) ==> Eval(fuel, st, sc, Cons(Sym("if"), rest)) == Err(NoRule(IfForm))
    ensures fuel > 0 ==> Eval(fuel, st, sc, Cons(Sym("if"), rest)).error != OutOfFuel
  {
  }

  /** `lambda` closes over the current frame, keeping its parameter list and
      body unevaluated; without a parameter list it fails. */
  lemma LambdaCaptures(fuel: nat, st: Store, sc: nat, params: Value, body: seq<Value>)
    requires fuel > 0 && Valid(st) && sc in st.frames
    ensures Eval(fuel, st, sc, Cons(Sym("lambda"), List([params] + body))) == Ok((Closure(sc, params, body), st))
    ensures Eval(fuel, st, sc, Cons(Sym("lambda"), Nil)) == Err(FormArity(LambdaForm, 0))
  {
    SpecialDispatch(fuel, st, sc, LambdaForm, [params] + body);
    assert ([params] + body)[1..] == body;
  }

  /** `(define x e)` evaluates `e` once and binds `x` to its value in the
      current frame: other names read as before there, and every other
      frame, the ancestors holding any outer `x` included, is untouched, so
      an outer binding is shadowed and not changed. */
  lemma DefineValue(fuel: nat, st: Store, sc: nat, x: string, e: Value)
    requires fuel > 0 && Valid(st) && sc in st.frames
    ensures var r := Eval(fuel, st, sc, Cons(Sym("define"), List([Sym(x), e])));
      var ev := Eval(fuel - 1, st, sc, e);
      && (ev.Err? ==> r == Err(ev.error))
      && (ev.Ok? ==>
            var (v, st1) := ev.value;
            && r.Ok? && r.value.0 == v
            && var st2 := r.value.1;
            && sc in st2.frames && Valid(st2)
            && Includes(st2, sc, x) && Get(st2, sc, x) == v
            && (forall y | y != x :: Includes(st2, sc, y) == Includes(st1, sc, y) && Get(st2, sc, y) == Get(st1, sc, y))
            && st2.frames.Keys == st1.frames.Keys
            && (forall j | j in st1.frames && j != sc :: st2.frames[j] == st1.frames[j]))
  {
    SpecialDispatch(fuel, st, sc, DefineForm, [Sym(x), e]);
    var ev := Eval(fuel - 1, st, sc, e);
    if ev.Ok? {
      var (v, st1) := ev.value;
      AssignInnermost(st1, sc, x, v);
    }
  }

  /** `define` of a symbol needs exactly one body expression. */
  lemma DefineValueArity(fuel: nat, st: Store, sc: nat, x: string, body: seq<Value>)
    requires fuel > 0 && Valid(st) && sc in st.frames
    requires |body| != 1
    ensures Eval(fuel, st, sc, Cons(Sym("define"), List([Sym(x)] + body))) == Err(ValueDefineArity(|body|))
  {
    SpecialDispatch(fuel, st, sc, DefineForm, [Sym(x)] + body);
  }

  /** `(define (name . params) body...)` evaluates nothing: it binds `name`
      in the current frame to a closure over that frame, and changes nothing
      else. */
  lemma DefineProcedure(fuel: nat, st: Store, sc: nat, name: string, params: Value, body: seq<Value>)
    requires fuel > 0 && Valid(st) && sc in st.frames
    ensures var r := Eval(fuel, st, sc, Cons(Sym("define"), List([Cons(Sym(name), params)] + body)));
      var c := Closure(sc, params, body);
      && r.Ok? && r.value.0 == c
      && var st2 := r.value.1;
      && Valid(st2) && sc in st2.frames && st2.next == st.next && st2.frames.Keys == st.frames.Keys
      && Includes(st2, sc, name) && Get(st2, sc, name) == c
      && (forall y | y != name :: Includes(st2, sc, y) == Includes(st, sc, y) && Get(st2, sc, y) == Get(st, sc, y))
      && (forall j | j in st.frames && j != sc :: st2.frames[j] == st.frames[j])
  {
    SpecialDispatch(fuel, st, sc, DefineForm, [Cons(Sym(name), params)] + body);
    assert ([Cons(Sym(name), params)] + body)[1..] == body;
    AssignInnermost(st, sc, name, Closure(sc, params, body));
  }

  /** `define` needs a target, and the target must be a symbol or a cons. */
  lemma DefineInvalid(fuel: nat, st: Store, sc: nat, target: Value, body: seq<Value>)
    requires fuel > 0 && Valid(st) && sc in st.frames
    ensures Eval(fuel, st, sc, Cons(Sym("define"), Nil)) == Err(FormArity(DefineForm, 0))
    ensures !target.Sym? && !target.Cons? ==>
      Eval(fuel, st, sc, Cons(Sym("define"), List([target] + body))) == Err(InvalidDefineTarget(target))
  {
    SpecialDispatch(fuel, st, sc, DefineForm, [target] + body);
  }

  /** `(set! target operand)` fails on a non-symbol target and on a name
      bound nowhere in the chain; otherwise it binds the name to the operand
      as written, unevaluated, in the current frame, and leaves every other
      frame alone. */
  lemma SetBang(fuel: nat, st: Store, sc: nat, target: Value, operand: Value)
    requires fuel > 0 && Valid(st) && sc in st.frames
    ensures var r := Eval(fuel, st, sc, Cons(Sym("set!"), List([target, operand])));
      && (!target.Sym? ==> r == Err(NotASymbol(target)))
      && (target.Sym? && !Includes(st, sc, target.name) ==> r == Err(Unbound(target.name)))
      && (target.Sym? && Includes(st, sc, target.name) ==>
            && r.Ok? && r.value.0 == operand
            && var st2 := r.value.1;
            && Valid(st2) && sc in st2.frames && st2.frames.Keys == st.frames.Keys
            && target.name in st2.frames[sc].vars && Get(st2, sc, target.name) == operand
            && (forall y | y != target.name :: Get(st2, sc, y) == Get(st, sc, y))
            && (forall j | j in st.frames && j != sc :: st2.frames[j] == st.frames[j]))
  {
    SpecialDispatch(fuel, st, sc, SetForm, [target, operand]);
    if target.Sym? && Includes(st, sc, target.name) {
      AssignInnermost(st, sc, target.name, operand);
    }
  }

  /** `set!` takes exactly a target and an operand. */
  lemma SetArity(fuel: nat, st: Store, sc: nat, args: seq<Value>)
    requires fuel > 0 && Valid(st) && sc in st.frames
    requires |args| != 2
    ensures Eval(fuel, st, sc, Cons(Sym("set!"), List(args))) == Err(FormArity(SetForm, |args|))
  {
    SpecialDispatch(fuel, st, sc, SetForm, args);
  }

  /** A `set!` of a name bound only in an ancestor frame does not reach that
      binding: the ancestor still sees its old value, while the current frame
      now has a binding of its own. */
  lemma SetShadowsOuter(fuel: nat, st: Store, sc: nat, p: nat, x: string, operand: Value)
    requires fuel > 0 && Valid(st) && sc in st.frames
    requires st.frames[sc].parent == Some(p) && x !in st.frames[sc].vars && Includes(st, p, x)
    ensures var r := Eval(fuel, st, sc, Cons(Sym("set!"), List([Sym(x), operand])));
      && r.Ok? && Valid(r.value.1) && p in r.value.1.frames
      && Get(r.value.1, sc, x) == operand
      && Get(r.value.1, p, x) == Get(st, p, x)
  {
    SpecialDispatch(fuel, st, sc, SetForm, [Sym(x), operand]);
    AssignInnermost(st, sc, x, operand);
  }

  /** The argument list of an application is read with `to_a`, so an
      improper tail after at least one argument is ignored. */
  lemma ApplicationIgnoresTail(fuel: nat, st: Store, sc: nat, head: Value, xs: seq<Value>, tail: Value)
    requires Valid(st) && sc in st.frames
    requires |xs| > 0 && !tail.Cons?
    ensures Eval(fuel, st, sc, Cons(head, FromSeq(xs, tail))) == Eval(fuel, st, sc, Cons(head, List(xs)))
  {
    ToArrayIgnoresTail(xs, tail);
    ToArrayIgnoresTail(xs, Nil);
  }

  /** An application evaluates its operator first, in the current store; a
      failure there ends evaluation before the arguments are looked at. Then
      the argument list must be a list (`to_a`), its elements are evaluated
      in the store the operator left, and the operator's value is applied to
      them. */
  lemma ApplicationOrder(fuel: nat, st: Store, sc: nat, head: Value, rest: Value)
    requires 0 < fuel && Valid(st) && sc in st.frames
    requires !(head.Sym? && SpecialNamed(head.name).Some?)
    ensures var r := Eval(fuel, st, sc, Cons(head, rest));
      var h := Eval(fuel - 1, st, sc, head);
      && (h.Err? ==> r == Err(h.error))
      && (h.Ok? && ToArray(rest).Err? ==> r == Err(NotAList(rest)))
      && (h.Ok? && ToArray(rest).Ok? ==>
            var a := EvalArgs(fuel - 1, h.value.1, sc, Elements(rest));
            && (a.Err? ==> r == Err(a.error))
            && (a.Ok? ==> r == Apply(fuel - 1, a.value.1, h.value.0, a.value.0)))
  {
  }

  /** Arguments are evaluated left to right: evaluating `xs + ys` evaluates
      all of `xs`, then all of `ys` in the store `xs` left. */
  lemma {:induction false} EvalArgsAppend(fuel: nat, st: Store, sc: nat, xs: seq<Value>, ys: seq<Value>)
    requires Valid(st) && sc in st.frames
    ensures var a := EvalArgs(fuel, st, sc, xs);
      && (a.Err? ==> EvalArgs(fuel, st, sc, xs + ys) == Err(a.error))
      && (a.Ok? ==>
            var b := EvalArgs(fuel, a.value.1, sc, ys);
            && (b.Err? ==> EvalArgs(fuel, st, sc, xs + ys) == Err(b.error))
            && (b.Ok? ==> EvalArgs(fuel, st, sc, xs + ys) == Ok((a.value.0 + b.value.0, b.value.1))))
    decreases |xs|
  {
    if |xs| == 0 {
      assert xs + ys == ys;
      var b := EvalArgs(fuel, st, sc, ys);
      if b.Ok? {
        assert [] + b.value.0 == b.value.0;
      }
    } else {
      assert (xs + ys)[0] == xs[0];
      assert (xs + ys)[1..] == xs[1..] + ys;
      var h := Eval(fuel, st, sc, xs[0]);
      if h.Ok? {
        var (v, st1) := h.value;
        EvalArgsAppend(fuel, st1, sc, xs[1..], ys);
        var t := EvalArgs(fuel, st1, sc, xs[1..]);
        if t.Ok? {
          var b := EvalArgs(fuel, t.value.1, sc, ys);
          if b.Ok? {
            assert [v] + t.value.0 + b.value.0 == [v] + (t.value.0 + b.value.0);
          }
        }
      }
    }
  }

  /** A single argument is evaluated exactly as the expression would be. */
  lemma EvalArgsSingle(fuel: nat, st: Store, sc: nat, e: Value)
    requires Valid(st) && sc in st.frames
    ensures var h := Eval(fuel, st, sc, e);
      && (h.Err? ==> EvalArgs(fuel, st, sc, [e]) == Err(h.error))
      && (h.Ok? ==> EvalArgs(fuel, st, sc, [e]) == Ok(([h.value.0], h.value.1)))
  {
    assert [e][1..] == [];
    var h := Eval(fuel, st, sc, e);
    if h.Ok? {
      assert EvalArgs(fuel, h.value.1, sc, []) == Ok(([], h.value.1));
      assert [h.value.0] + [] == [h.value.0];
    }
  }

  /** Calling a builtin runs its primitive on the arguments and leaves the
      store alone; calling anything that is neither a builtin nor a closure
      fails. */
  lemma ApplyBuiltin(fuel: nat, st: Store, callee: Value, args: seq<Value>)
    requires Valid(st)
    ensures callee.Builtin? ==>
      var p := ApplyPrim(callee.op, args);
      && (p.Ok? ==> Apply(fuel, st, callee, args) == Ok((p.value, st)))
      && (p.Err? ==> Apply(fuel, st, callee, args) == Err(p.error))
    ensures !callee.Builtin? && !callee.Closure? ==> Apply(fuel, st, callee, args) == Err(NotCallable(callee))
  {
  }

  /** Binding the parameters gives the last parameter named `x` the argument
      at its position, nil past the end of the arguments. */
  lemma {:induction false} ZipBinds(st: Store, c: nat, names: seq<Value>, args: seq<Value>, k: nat)
    requires c in st.frames
    requires k < |names| && names[k].Sym?
    requires forall m | k < m < |names| :: names[m] != names[k]
    ensures var r := Zip(st, c, names, args);
      names[k].name in r.frames[c].vars && r.frames[c].vars[names[k].name] == PadArg(args, k)
    decreases |names|
  {
    var st1 := if names[0].Sym? then Assign(st, c, names[0].name, PadArg(args, 0)) else st;
    var rest := if |args| > 0 then args[1..] else [];
    if k == 0 {
      forall m | 0 <= m < |names[1..]|
        ensures names[1..][m] != Sym(names[0].name)
      {
        assert names[1..][m] == names[m + 1];
      }
      ZipKeeps(st1, c, names[1..], rest, names[0].name);
    } else {
      forall m | k - 1 < m < |names[1..]|
        ensures names[1..][m] != names[1..][k - 1]
      {
        assert names[1..][m] == names[m + 1];
      }
      ZipBinds(st1, c, names[1..], rest, k - 1);
      assert PadArg(rest, k - 1) == PadArg(args, k);
    }
  }

  /** Binding the parameters leaves every name that is not a parameter as it
      was in the frame. */
  lemma {:induction false} ZipKeeps(st: Store, c: nat, names: seq<Value>, args: seq<Value>, y: string)
    requires c in st.frames
    requires forall m | 0 <= m < |names| :: names[m] != Sym(y)
    ensures var r := Zip(st, c, names, args);
      && (y in r.frames[c].vars <==> y in st.frames[c].vars)
      && (y in st.frames[c].vars ==> r.frames[c].vars[y] == st.frames[c].vars[y])
    decreases |names|
  {
    if |names| > 0 {
      var st1 := if names[0].Sym? then Assign(st, c, names[0].name, PadArg(args, 0)) else st;
      var rest := if |args| > 0 then args[1..] else [];
      forall m | 0 <= m < |names[1..]|
        ensures names[1..][m] != Sym(y)
      {
        assert names[1..][m] == names[m + 1];
      }
      ZipKeeps(st1, c, names[1..], rest, y);
    }
  }

  /** In the frame of a closure call a parameter is bound to its argument
      (the last parameter of that name wins; nil when the arguments ran out). */
  lemma CallFrameBindsParam(st: Store, env: nat, names: seq<Value>, args: seq<Value>, k: nat)
    requires Valid(st) && env in st.frames
    requires k < |names| && names[k].Sym?
    requires forall m | k < m < |names| :: names[m] != names[k]
    ensures var (st1, c) := CallFrame(st, env, names, args);
      Includes(st1, c, names[k].name) && Get(st1, c, names[k].name) == PadArg(args, k)
  {
    var (st0, c) := NestInterp(st, env);
    ZipBinds(st0, c, names, args, k);
  }

  /** In the frame of a closure call every primitive not shadowed by a
      parameter is bound again, whatever the defining frame binds its name to. */
  lemma CallFrameBuiltins(st: Store, env: nat, names: seq<Value>, args: seq<Value>, p: Prim)
    requires Valid(st) && env in st.frames
    requires forall m | 0 <= m < |names| :: names[m] != Sym(PrimName(p))
    ensures var (st1, c) := CallFrame(st, env, names, args);
      Includes(st1, c, PrimName(p)) && Get(st1, c, PrimName(p)) == Builtin(p)
  {
    var (st0, c) := NestInterp(st, env);
    ZipKeeps(st0, c, names, args, PrimName(p));
  }

  /** Lexical scope: in the frame of a closure call, any name that is
      neither a parameter nor a primitive is looked up exactly as in the
      closure's defining frame at the time of the call. */
  lemma CallFrameLexical(st: Store, env: nat, names: seq<Value>, args: seq<Value>, y: string)
    requires Valid(st) && env in st.frames
    requires PrimNamed(y).None?
    requires forall m | 0 <= m < |names| :: names[m] != Sym(y)
    ensures var (st1, c) := CallFrame(st, env, names, args);
      Includes(st1, c, y) == Includes(st, env, y) && Get(st1, c, y) == Get(st, env, y)
  {
    var (st0, c) := NestInterp(st, env);
    ZipKeeps(st0, c, names, args, y);
    var (st1, c1) := CallFrame(st, env, names, args);
    assert y !in st1.frames[c].vars;
    LookupAgrees(st, st1, env);
  }

  /** A body is run expression by expression, each in the store the one
      before it left, and yields the value of its last expression. */
  lemma {:induction false} EvalBodyLast(fuel: nat, st: Store, sc: nat, body: seq<Value>, e: Value, ret: Value)
    requires Valid(st) && sc in st.frames
    ensures var b := EvalBody(fuel, st, sc, body, ret);
      && (b.Err? ==> EvalBody(fuel, st, sc, body + [e], ret) == Err(b.error))
      && (b.Ok? ==> EvalBody(fuel, st, sc, body + [e], ret) == Eval(fuel, b.value.1, sc, e))
    decreases |body|
  {
    if |body| == 0 {
      assert body + [e] == [e];
      assert [e][1..] == [];
    } else {
      assert (body + [e])[0] == body[0];
      assert (body + [e])[1..] == body[1..] + [e];
      var h := Eval(fuel, st, sc, body[0]);
      if h.Ok? {
        EvalBodyLast(fuel, h.value.1, sc, body[1..], e, h.value.0);
      }
    }
  }

  /** Calling a closure whose parameter list is a list runs its body from
      a nil result in the frame the call builds under the defining one. */
  lemma ApplyClosure(fuel: nat, st: Store, env: nat, params: Value, body: seq<Value>, args: seq<Value>)
    requires Valid(st) && env in st.frames && ParamNames(params).Ok?
    ensures var (st1, c) := CallFrame(st, env, Elements(params), args);
      Apply(fuel, st, Closure(env, params, body), args) == EvalBody(fuel, st1, c, body, Nil)
  {
  }

  /** A parameter list that is not a list (and not nil or false) makes every
      call of the closure fail. */
  lemma ClosureBadParams(fuel: nat, st: Store, env: nat, params: Value, body: seq<Value>, args: seq<Value>)
    requires Valid(st) && env in st.frames && ParamNames(params).Err?
    ensures Apply(fuel, st, Closure(env, params, body), args) == Err(BadParamList(params))
  {
  }

  /** Calling a closure runs its body in a new frame under the defining one:
      an empty body gives nil, and otherwise the value of the last body
      expression after all the ones before it. */
  lemma ClosureCall(fuel: nat, st: Store, env: nat, params: Value, init: seq<Value>, last: Value, args: seq<Value>)
    requires Valid(st) && env in st.frames && ParamNames(params).Ok?
    ensures var (st1, c) := CallFrame(st, env, Elements(params), args);
      && Apply(fuel, st, Closure(env, params, []), args) == Ok((Nil, st1))
      && var b := EvalBody(fuel, st1, c, init, Nil);
      && (b.Err? ==> Apply(fuel, st, Closure(env, params, init + [last]), args) == Err(b.error))
      && (b.Ok? ==> Apply(fuel, st, Closure(env, params, init + [last]), args) == Eval(fuel, b.value.1, c, last))
  {
    var (st1, c) := CallFrame(st, env, Elements(params), args);
    ApplyClosure(fuel, st, env, params, [], args);
    ApplyClosure(fuel, st, env, params, init + [last], args);
    EvalBodyLast(fuel, st1, c, init, last, Nil);
  }

  /** A closure whose body is one expression returns that expression's value
      in the call's frame. */
  lemma ClosureCallOne(fuel: nat, st: Store, env: nat, params: Value, e: Value, args: seq<Value>)
    requires Valid(st) && env in st.frames && ParamNames(params).Ok?
    ensures var (st1, c) := CallFrame(st, env, Elements(params), args);
      Apply(fuel, st, Closure(env, params, [e]), args) == Eval(fuel, st1, c, e)
  {
    var (st1, c) := CallFrame(st, env, Elements(params), args);
    ApplyClosure(fuel, st, env, params, [e], args);
    EvalBodyLast(fuel, st1, c, [], e, Nil);
    assert [] + [e] == [e];
  }

  /** A closure over a frame the store does not hold cannot be called. */
  lemma ClosureDangling(fuel: nat, st: Store, env: nat, params: Value, body: seq<Value>, args: seq<Value>)
    requires Valid(st) && env !in st.frames
    ensures Apply(fuel, st, Closure(env, params, body), args) == Err(DanglingScope(env))
  {
  }

  /** `(+ 1 2)` in a fresh interpreter evaluates to 3. */
  lemma AddExample()
    ensures var (st, root) := Initial();
      Eval(2, st, root, List([Sym("+"), Int(1), Int(2)])) == Ok((Int(3), st))
  {
    var (st, root) := Initial();
    assert Get(st, root, "+") == Builtin(AddOp);
    assert SpecialNamed("+").None?;
    ToArrayIgnoresTail([Int(1), Int(2)], Nil);
    assert Eval(1, st, root, Sym("+")) == Ok((Builtin(AddOp), st));
    assert EvalArgs(1, st, root, [Int(2)]) == Ok(([Int(2)], st));
    assert EvalArgs(1, st, root, [Int(1), Int(2)]) == Ok(([Int(1), Int(2)], st));
  }

  /** The identity closure `(lambda (x) x)`, over any frame, returns its
      argument and leaves every existing frame as it was. */
  lemma IdentityCall(fuel: nat, st: Store, env: nat, v: Value)
    requires 0 < fuel && Valid(st) && env in st.frames
    ensures var r := Apply(fuel, st, Closure(env, List([Sym("x")]), [Sym("x")]), [v]);
      && r.Ok? && r.value.0 == v
      && (forall j | j in st.frames :: j in r.value.1.frames && r.value.1.frames[j] == st.frames[j])
  {
    var params := List([Sym("x")]);
    var (st1, c) := CallFrame(st, env, [Sym("x")], [v]);
    IdentityBody(fuel, st, env, v);
    ElementsFromSeq([Sym("x")], Nil);
    ClosureCallOne(fuel, st, env, params, Sym("x"), [v]);
  }

  /** In the frame of a call of `(lambda (x) x)`, the body `x` evaluates to
      the argument. */
  lemma IdentityBody(fuel: nat, st: Store, env: nat, v: Value)
    requires 0 < fuel && Valid(st) && env in st.frames
    ensures var (st1, c) := CallFrame(st, env, [Sym("x")], [v]);
      Eval(fuel, st1, c, Sym("x")) == Ok((v, st1))
  {
    var (st1, c) := CallFrame(st, env, [Sym("x")], [v]);
    CallFrameBindsParam(st, env, [Sym("x")], [v], 0);
    EvalBoundSymbol(fuel, st1, c, "x", v);
  }

  /** A symbol bound to `v` evaluates to `v`. */
  lemma EvalBoundSymbol(fuel: nat, st: Store, sc: nat, x: string, v: Value)
    requires 0 < fuel && Valid(st) && sc in st.frames && Includes(st, sc, x) && Get(st, sc, x) == v
    ensures Eval(fuel, st, sc, Sym(x)) == Ok((v, st))
  {
  }

  /** `((lambda (x) x) 5)` in a fresh interpreter gives 5, and the call's
      binding of `x` stays in the call's own frame. */
  lemma IdentityExample()
    ensures var (st, root) := Initial();
      var r := Eval(3, st, root, List([List([Sym("lambda"), List([Sym("x")]), Sym("x")]), Int(5)]));
      && r.Ok? && r.value.0 == Int(5)
      && Valid(r.value.1) && root in r.value.1.frames && !Includes(r.value.1, root, "x")
  {
    var (st, root) := Initial();
    var params := List([Sym("x")]);
    var lam := List([Sym("lambda"), params, Sym("x")]);
    assert [Sym("lambda"), params, Sym("x")][1..] == [params] + [Sym("x")];
    assert lam == Cons(Sym("lambda"), List([params] + [Sym("x")]));
    LambdaCaptures(2, st, root, params, [Sym("x")]);
    var clo := Closure(root, params, [Sym("x")]);
    ApplicationOrder(3, st, root, lam, List([Int(5)]));
    ElementsFromSeq([Int(5)], Nil);
    EvalArgsSingle(2, st, root, Int(5));
    IdentityCall(2, st, root, Int(5));
    var r := Apply(2, st, clo, [Int(5)]);
    assert Eval(3, st, root, List([lam, Int(5)])) == r;
    LookupAgrees(st, r.value.1, root);
  }
}
