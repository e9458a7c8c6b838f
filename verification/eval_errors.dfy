/**
 The names `Interpreter#eval` treats as special forms, and the ways an
 evaluation can fail: one constructor per exception that `eval`,
 `Closure#call` or a `Builtin` can raise.
 */
module EvalErrors {
  import opened Values

  /** The special forms the interpreter recognises by name: `@@specials`. */
  datatype Special = DefineForm | IfForm | QuoteForm | LambdaForm | SetForm

  /** Why evaluation stopped. Each constructor stands for one Ruby exception
      the evaluator or a primitive can raise; `OutOfFuel` marks an evaluation
      cut short by the model's step bound. */
  datatype EvalError =
    | Unbound(name: string)                 // a symbol, or a `set!` target, bound nowhere in the chain
    | NotAList(tail: Value)                 // `to_a` on an argument tail that is neither nil nor a cons
    | FormArity(form: Special, given: nat)  // a special form called with a count its method refuses
    | NoRule(form: Special)                 // a special form with no method behind it (`if`)
    | ValueDefineArity(given: nat)          // `define` of a symbol with other than one body expression
    | InvalidDefineTarget(target: Value)    // `define` of something neither a symbol nor a cons
    | NotASymbol(target: Value)             // `set!` of something that is not a symbol
    | NotCallable(callee: Value)            // an operator that has no `call`
    | PrimArity(op: Prim, given: nat)       // a primitive called with the wrong number of arguments
    | PrimType(op: Prim)                    // a primitive given an argument it cannot work on
    | FloatArithmetic                       // `+` on a float, which this model does not compute
    | BadParamList(params: Value)           // a closure whose parameter list has no `zip`
    | DanglingScope(env: nat)               // a closure over a frame the store does not hold
    | OutOfFuel
}
