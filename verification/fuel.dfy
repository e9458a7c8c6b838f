/**
 The step bound is only a bound: giving evaluation more fuel never changes
 an outcome that was reached, it can only turn running out of fuel into an
 answer. So every result the bounded evaluator gives is the one an
 unbounded evaluation would reach.
 */
module Fuel {
  import opened Values
  import opened Scope
  import opened EvalErrors
  import opened Builtins
  import opened Interpreter

  /** Evaluation with more fuel agrees with evaluation with less, unless the
      smaller amount ran out. */
  lemma {:induction false} EvalMono(fuel: nat, more: nat, st: Store, sc: nat, e: Value)
    requires fuel <= more && Valid(st) && sc in st.frames
    ensures Eval(fuel, st, sc, e) == Err(OutOfFuel) || Eval(more, st, sc, e) == Eval(fuel, st, sc, e)
    decreases fuel, 0
  {
    if fuel > 0 && e.Cons? {
      if e.car.Sym? && SpecialNamed(e.car.name).Some? {
        if ToArray(e.cdr).Ok? {
          EvalSpecialMono(fuel - 1, more - 1, st, sc, SpecialNamed(e.car.name).value, ToArray(e.cdr).value);
        }
      } else {
        ApplicationMono(fuel - 1, more - 1, st, sc, e.car, e.cdr);
      }
    }
  }

  lemma {:induction false} ApplicationMono(fuel: nat, more: nat, st: Store, sc: nat, head: Value, rest: Value)
    requires fuel <= more && Valid(st) && sc in st.frames
    ensures Application(fuel, st, sc, head, rest) == Err(OutOfFuel)
      || Application(more, st, sc, head, rest) == Application(fuel, st, sc, head, rest)
    decreases fuel, 3
  {
    EvalMono(fuel, more, st, sc, head);
    var h := Eval(fuel, st, sc, head);
    if h.Ok? && ToArray(rest).Ok? {
      var (callee, st1) := h.value;
      EvalArgsMono(fuel, more, st1, sc, ToArray(rest).value);
      var a := EvalArgs(fuel, st1, sc, ToArray(rest).value);
      if a.Ok? {
        ApplyMono(fuel, more, a.value.1, callee, a.value.0);
      }
    }
  }

  lemma {:induction false} EvalSpecialMono(fuel: nat, more: nat, st: Store, sc: nat, form: Special, args: seq<Value>)
    requires fuel <= more && Valid(st) && sc in st.frames
    ensures EvalSpecial(fuel, st, sc, form, args) == Err(OutOfFuel)
      || EvalSpecial(more, st, sc, form, args) == EvalSpecial(fuel, st, sc, form, args)
    decreases fuel, 1
  {
    if form == DefineForm && |args| == 2 && args[0].Sym? {
      EvalMono(fuel, more, st, sc, args[1]);
    }
  }

  lemma {:induction false} EvalArgsMono(fuel: nat, more: nat, st: Store, sc: nat, es: seq<Value>)
    requires fuel <= more && Valid(st) && sc in st.frames
    ensures EvalArgs(fuel, st, sc, es) == Err(OutOfFuel)
      || EvalArgs(more, st, sc, es) == EvalArgs(fuel, st, sc, es)
    decreases fuel, 1, |es|
  {
    if |es| > 0 {
      EvalMono(fuel, more, st, sc, es[0]);
      var h := Eval(fuel, st, sc, es[0]);
      if h.Ok? {
        EvalArgsMono(fuel, more, h.value.1, sc, es[1..]);
      }
    }
  }

  lemma {:induction false} ApplyMono(fuel: nat, more: nat, st: Store, callee: Value, args: seq<Value>)
    requires fuel <= more && Valid(st)
    ensures Apply(fuel, st, callee, args) == Err(OutOfFuel)
      || Apply(more, st, callee, args) == Apply(fuel, st, callee, args)
    decreases fuel, 2
  {
    if callee.Closure? && callee.env in st.frames && ParamNames(callee.params).Ok? {
      var (st1, c) := CallFrame(st, callee.env, ParamNames(callee.params).value, args);
      EvalBodyMono(fuel, more, st1, c, callee.body, Nil);
    }
  }

  lemma {:induction false} EvalBodyMono(fuel: nat, more: nat, st: Store, sc: nat, body: seq<Value>, ret: Value)
    requires fuel <= more && Valid(st) && sc in st.frames
    ensures EvalBody(fuel, st, sc, body, ret) == Err(OutOfFuel)
      || EvalBody(more, st, sc, body, ret) == EvalBody(fuel, st, sc, body, ret)
    decreases fuel, 1, |body|
  {
    if |body| > 0 {
      EvalMono(fuel, more, st, sc, body[0]);
      var h := Eval(fuel, st, sc, body[0]);
      if h.Ok? {
        EvalBodyMono(fuel, more, h.value.1, sc, body[1..], h.value.0);
      }
    }
  }
}
