/**
 The canonical text form of a value: the `to_sexp` methods of `Sexp::Cons`,
 nil, Symbol, true and false, and `Object#to_sexp` (Ruby's `inspect`) for
 integers.
 */
module Printer {
  import opened Values
  import Reader

  function DigitChar(d: nat): char
    requires d < 10
  {
    ('0' as int + d) as char
  }

  /** The decimal digits of `n`, most significant first, without leading zeros. */
  function NatDigits(n: nat): (d: string)
    ensures |d| > 0
    ensures forall k :: 0 <= k < |d| ==> Reader.IsDigit(d[k])
  {
    if n < 10 then [DigitChar(n)] else NatDigits(n / 10) + [DigitChar(n % 10)]
  }

  /** `Integer#inspect`: an optional minus sign and the decimal digits. */
  function IntText(n: int): string {
    if n < 0 then "-" + NatDigits(-n) else NatDigits(n)
  }

  /** `to_sexp`. Floats print as the token they were read from and strings as
      their literal; builtins and closures print as an opaque tag. */
  function ToSexp(v: Value): (r: string)
    ensures |r| == 0 ==> v.Float? || v.Sym?
    ensures v.Cons? ==> |r| == |InnerToSexp(v)| + 2
    decreases v, 1
  {
    match v
    case Nil => "()"
    case Bool(b) => if b then "#t" else "#f"
    case Int(n) => IntText(n)
    case Float(t) => t
    case Str(b) => "\"" + b + "\""
    case Sym(name) => name
    case Cons(_, _) => "(" + InnerToSexp(v) + ")"
    case Builtin(op) => "#<builtin " + PrimName(op) + ">"
    case Closure(_, _, _) => "#<closure>"
  }

  /** `Cons#inner_to_sexp`: the car, then nothing before a nil cdr, a space
      and the inner text of a cons cdr, or ` . ` and any other cdr. */
  function InnerToSexp(c: Value): (r: string)
    requires c.Cons?
    ensures |ToSexp(c.car)| <= |r|
    decreases c, 0
  {
    if c.cdr == Nil then ToSexp(c.car)
    else if c.cdr.Cons? then ToSexp(c.car) + " " + InnerToSexp(c.cdr)
    else ToSexp(c.car) + " . " + ToSexp(c.cdr)
  }

  /** The printed forms of `vs`, separated by single spaces. */
  function JoinSpaced(vs: seq<Value>): string {
    if |vs| == 0 then ""
    else if |vs| == 1 then ToSexp(vs[0])
    else ToSexp(vs[0]) + " " + JoinSpaced(vs[1..])
  }

  /** A chain's printed form is its elements, space separated, inside
      parentheses, followed by ` . ` and the tail before the `)` exactly when
      the tail is not nil. */
  lemma {:induction false} PrintedList(xs: seq<Value>, tail: Value)
    requires |xs| > 0 && !tail.Cons?
    ensures ToSexp(FromSeq(xs, tail)) ==
      "(" + JoinSpaced(xs) + (if tail == Nil then "" else " . " + ToSexp(tail)) + ")"
  {
    InnerIsJoined(xs, tail);
  }

  lemma {:induction false} InnerIsJoined(xs: seq<Value>, tail: Value)
    requires |xs| > 0 && !tail.Cons?
    ensures FromSeq(xs, tail).Cons?
    ensures InnerToSexp(FromSeq(xs, tail)) ==
      JoinSpaced(xs) + (if tail == Nil then "" else " . " + ToSexp(tail))
  {
    if |xs| > 1 {
      InnerIsJoined(xs[1..], tail);
    }
  }

  /** The empty list prints as `()` and a proper list as its elements inside
      parentheses. */
  lemma PrintedProperList(xs: seq<Value>)
    ensures ToSexp(List(xs)) == "(" + JoinSpaced(xs) + ")"
  {
    if |xs| > 0 {
      PrintedList(xs, Nil);
    }
  }
}
