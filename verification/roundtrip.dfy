/**
 Printing then reading: for every value built from nil, booleans, integers,
 symbols with readable names, well-formed string literals and cons cells,
 the reader gives back the same tree and stops just after the printed text.
 */
module RoundTrip {
  import opened Values
  import opened Reader
  import opened Printer
  import opened ReaderLemmas

  /** A symbol name that reads back as that same symbol: non-empty, no
      whitespace or parenthesis, not starting with a character the reader
      dispatches on (`"`, `#`) or a list treats as a tail marker (`.`), and
      matching neither number pattern. */
  predicate ValidSymbolName(name: string) {
    && |name| > 0
    && (forall k :: 0 <= k < |name| ==> !IsDelim(name[k]))
    && name[0] != '"' && name[0] != '#' && name[0] != '.'
    && !IsIntToken(name)
    && !IsFloatToken(name)
  }

  /** The values whose printed form the reader accepts back. */
  predicate Readable(v: Value) {
    match v
    case Nil => true
    case Bool(_) => true
    case Int(_) => true
    case Str(b) => EscapedBody(b)
    case Sym(name) => ValidSymbolName(name)
    case Cons(a, d) => Readable(a) && Readable(d)
    case _ => false
  }

  /** The text `t` sits at position `i` of `s`. */
  predicate TextAt(s: string, i: nat, t: string) {
    i + |t| <= |s| && forall k :: 0 <= k < |t| ==> s[i + k] == t[k]
  }

  /** Where a text sits, the slice of that length is the text. */
  lemma TextAtSlice(s: string, i: nat, t: string)
    requires TextAt(s, i, t)
    ensures s[i..i + |t|] == t
  {
    var w := s[i..i + |t|];
    assert forall k :: 0 <= k < |t| ==> w[k] == t[k];
  }

  /** Where a concatenation sits, both of its parts sit, one after the other. */
  lemma TextAtSplit(s: string, i: nat, x: string, y: string)
    requires TextAt(s, i, x + y)
    ensures TextAt(s, i, x) && TextAt(s, i + |x|, y)
  {
    forall k | 0 <= k < |x|
      ensures s[i + k] == x[k]
    {
      assert (x + y)[k] == x[k];
    }
    forall k | 0 <= k < |y|
      ensures s[i + |x| + k] == y[k]
    {
      assert (x + y)[|x| + k] == y[k];
    }
  }

  /** Two texts that sit one after the other make their concatenation sit. */
  lemma TextAtJoin(s: string, i: nat, x: string, y: string)
    requires TextAt(s, i, x) && TextAt(s, i + |x|, y)
    ensures TextAt(s, i, x + y)
  {
    forall k | 0 <= k < |x + y|
      ensures s[i + k] == (x + y)[k]
    {
      if k >= |x| {
        assert s[i + |x| + (k - |x|)] == y[k - |x|];
      }
    }
  }

  /** Reading back the decimal digits of `n` gives `n`. */
  lemma {:induction false} NatDigitsValue(n: nat)
    ensures DigitsValue(NatDigits(n)) == n
  {
    if n >= 10 {
      var d := NatDigits(n);
      NatDigitsValue(n / 10);
      assert d[..|d| - 1] == NatDigits(n / 10);
    }
  }

  /** The printed form of an integer is an integer token of the same value,
      made only of a minus sign and digits. */
  lemma IntTextIsToken(n: int)
    ensures IsIntToken(IntText(n)) && TokenInt(IntText(n)) == n
    ensures forall k :: 0 <= k < |IntText(n)| ==> IntText(n)[k] == '-' || IsDigit(IntText(n)[k])
  {
    var t := IntText(n);
    if n < 0 {
      NatDigitsValue(-n);
      assert Unsigned(t) == NatDigits(-n);
    } else {
      NatDigitsValue(n);
      assert Unsigned(t) == NatDigits(n);
    }
  }

  /** A printed readable value is non-empty and starts with a character that
      is neither whitespace, `)` nor `.`, so a list reads it as an element. */
  lemma PrintedHead(v: Value)
    requires Readable(v)
    ensures |ToSexp(v)| > 0
    ensures !IsWs(ToSexp(v)[0]) && ToSexp(v)[0] != ')' && ToSexp(v)[0] != '.'
  {
    if v.Int? {
      IntTextIsToken(v.i);
    }
  }

  /** A run of token characters ended by a delimiter or the end is one token. */
  lemma {:induction false} ScanTokenSpan(s: string, i: nat, j: nat)
    requires i <= j <= |s|
    requires forall k :: i <= k < j ==> !IsDelim(s[k])
    requires j == |s| || IsDelim(s[j])
    ensures ScanToken(s, i) == j
    decreases j - i
  {
    if i < j {
      ScanTokenSpan(s, i + 1, j);
    }
  }

  /** A well-formed literal body followed by `"` is scanned exactly up to and
      including that quote. */
  lemma {:induction false} ScanStringSpan(s: string, i: nat, b: string)
    requires EscapedBody(b) && TextAt(s, i, b) && i + |b| < |s| && s[i + |b|] == '"'
    ensures ScanString(s, i) == Ok(i + |b| + 1)
    decreases |b|
  {
    if |b| > 0 {
      assert s[i] == b[0];
      var n := if b[0] == '\\' then 2 else 1;
      assert TextAt(s, i + n, b[n..]) by {
        forall k | 0 <= k < |b[n..]|
          ensures s[i + n + k] == b[n..][k]
        {
          assert b[n..][k] == b[n + k];
        }
      }
      ScanStringSpan(s, i + n, b[n..]);
    }
  }

  /** A bare token followed by a delimiter or the end reads as its classification. */
  lemma ReadToken(t: string, s: string, i: nat)
    requires |t| > 0 && (forall k :: 0 <= k < |t| ==> !IsDelim(t[k]))
    requires t[0] != '"' && t[0] != '#'
    requires TextAt(s, i, t) && (i + |t| == |s| || IsDelim(s[i + |t|]))
    ensures i < |s| && !IsWs(s[i])
    ensures ReadDatum(s, i) == Ok((Classify(t), i + |t|))
  {
    assert s[i] == t[0];
    assert forall k :: i <= k < i + |t| ==> s[k] == t[k - i];
    ScanTokenSpan(s, i, i + |t|);
    TextAtSlice(s, i, t);
  }

  /** The printed form of `v` sits at `i` in `s`, followed by a delimiter
      or the end of the text. */
  predicate PrintedAt(v: Value, s: string, i: nat) {
    && TextAt(s, i, ToSexp(v))
    && (i + |ToSexp(v)| == |s| || IsDelim(s[i + |ToSexp(v)|]))
  }

  /** Reading at `i` gives `v` and stops just after its printed form. */
  predicate ReadsBackAt(v: Value, s: string, i: nat) {
    && i < |s| && !IsWs(s[i])
    && ReadDatum(s, i) == Ok((v, i + |ToSexp(v)|))
  }

  /** Reading at the start of a printed readable atom, followed by a
      delimiter or the end of the text, gives that atom and stops just after it. */
  lemma ReadAtom(v: Value, s: string, i: nat)
    requires Readable(v) && !v.Cons? && PrintedAt(v, s, i)
    ensures ReadsBackAt(v, s, i)
  {
    if v.Nil? {
      ReadNil(v, s, i);
    } else if v.Bool? {
      ReadBool(v, s, i);
    } else if v.Int? {
      ReadInt(v, s, i);
    } else if v.Sym? {
      ReadSym(v, s, i);
    } else {
      StrTextParts(v, s, i);
      ReadStr(v.lit, s, i);
    }
  }

  /** `()` reads as nil. */
  lemma ReadNil(v: Value, s: string, i: nat)
    requires v.Nil? && PrintedAt(v, s, i)
    ensures ReadsBackAt(v, s, i)
  {
    var t := ToSexp(v);
    assert s[i] == t[0] == '(' && s[i + 1] == t[1] == ')';
    assert DrainWs(s, i + 1) == i + 1;
  }

  /** `#t` and `#f` followed by a delimiter or the end read as booleans. */
  lemma ReadBool(v: Value, s: string, i: nat)
    requires v.Bool? && PrintedAt(v, s, i)
    ensures ReadsBackAt(v, s, i)
  {
    var t := ToSexp(v);
    assert |t| == 2 && s[i] == t[0] && s[i + 1] == t[1];
    ScanTokenSpan(s, i + 1, i + 2);
    assert s[i + 1..i + 2] == [t[1]];
  }

  /** A printed integer followed by a delimiter or the end reads as that integer. */
  lemma ReadInt(v: Value, s: string, i: nat)
    requires v.Int? && PrintedAt(v, s, i)
    ensures ReadsBackAt(v, s, i)
  {
    IntTextIsToken(v.i);
    ReadTokenAs(IntText(v.i), v, s, i);
  }

  /** A valid symbol name followed by a delimiter or the end reads as that symbol. */
  lemma ReadSym(v: Value, s: string, i: nat)
    requires v.Sym? && ValidSymbolName(v.name) && PrintedAt(v, s, i)
    ensures ReadsBackAt(v, s, i)
  {
    SymbolClassifies(v.name);
    ReadTokenAs(v.name, v, s, i);
  }

  /** A valid symbol name is classified as the symbol of that name. */
  lemma SymbolClassifies(name: string)
    requires ValidSymbolName(name)
    ensures Classify(name) == Sym(name)
  {
  }

  /** A bare token that is the printed form of `v` and is classified as `v`,
      followed by a delimiter or the end, reads as `v`. */
  lemma ReadTokenAs(t: string, v: Value, s: string, i: nat)
    requires |t| > 0 && (forall k :: 0 <= k < |t| ==> !IsDelim(t[k]))
    requires t[0] != '"' && t[0] != '#'
    requires ToSexp(v) == t && Classify(t) == v
    requires TextAt(s, i, t) && (i + |t| == |s| || IsDelim(s[i + |t|]))
    ensures ReadsBackAt(v, s, i)
  {
    ReadToken(t, s, i);
  }

  /** The three parts of a printed string literal: quote, body, quote. */
  lemma StrTextParts(v: Value, s: string, i: nat)
    requires v.Str? && PrintedAt(v, s, i)
    ensures |ToSexp(v)| == |v.lit| + 2
    ensures i + |v.lit| + 2 <= |s| && s[i] == '"' && TextAt(s, i + 1, v.lit) && s[i + 1 + |v.lit|] == '"'
  {
    var q := "\"";
    assert ToSexp(v) == q + (v.lit + q);
    TextAtSplit(s, i, q, v.lit + q);
    TextAtSplit(s, i + 1, v.lit, q);
    assert s[i] == q[0];
    assert s[i + 1 + |v.lit|] == q[0];
  }

  /** A string literal with a well-formed body reads back as that body. */
  lemma ReadStr(b: string, s: string, i: nat)
    requires EscapedBody(b)
    requires i + |b| + 2 <= |s| && s[i] == '"' && TextAt(s, i + 1, b) && s[i + 1 + |b|] == '"'
    ensures ReadsBackAt(Str(b), s, i)
  {
    ScanStringSpan(s, i + 1, b);
    ReadStringLiteral(s, i);
    TextAtSlice(s, i + 1, b);
  }

  /** What follows the car in the printed form of a cons cell, up to and
      including the cell's closing parenthesis. */
  function TailText(c: Value): string
    requires c.Cons?
  {
    if c.cdr == Nil then ")"
    else if c.cdr.Cons? then " " + InnerToSexp(c.cdr) + ")"
    else " . " + ToSexp(c.cdr) + ")"
  }

  /** The inner text of cons cell `c` and its closing parenthesis sit at `i`. */
  predicate InnerAt(c: Value, s: string, i: nat)
    requires c.Cons?
  {
    TextAt(s, i, InnerToSexp(c) + ")")
  }

  /** The tail text of cons cell `c` sits at `j`. */
  predicate TailAt(c: Value, s: string, j: nat)
    requires c.Cons?
  {
    TextAt(s, j, TailText(c))
  }

  /** The parts of a printed cons cell: `(`, then its inner text and `)`. */
  lemma ConsTextParts(c: Value, s: string, i: nat)
    requires c.Cons? && PrintedAt(c, s, i)
    ensures |ToSexp(c)| == |InnerToSexp(c)| + 2
    ensures i < |s| && s[i] == '(' && InnerAt(c, s, i + 1)
  {
    var u := InnerToSexp(c) + ")";
    assert ToSexp(c) == "(" + u;
    TextAtSplit(s, i, "(", u);
    assert s[i] == "("[0];
  }

  /** The inner text of a cons cell and its closing parenthesis: the car's
      printed form, then the tail text. */
  lemma InnerIsCarThenTail(c: Value)
    requires c.Cons?
    ensures InnerToSexp(c) + ")" == ToSexp(c.car) + TailText(c)
  {
    var a := ToSexp(c.car);
    if c.cdr == Nil {
    } else if c.cdr.Cons? {
      assert a + " " + InnerToSexp(c.cdr) + ")" == a + (" " + InnerToSexp(c.cdr) + ")");
    } else {
      assert a + " . " + ToSexp(c.cdr) + ")" == a + (" . " + ToSexp(c.cdr) + ")");
    }
  }

  /** The first character of a tail text: `)` or a space, a delimiter either way. */
  lemma TailTextStart(c: Value)
    requires c.Cons?
    ensures |TailText(c)| > 0 && IsDelim(TailText(c)[0])
  {
  }

  /** The parts of the inner text of a cons cell and its closing
      parenthesis: the car's printed form, then the tail text, which starts
      with a delimiter. */
  lemma InnerTextParts(c: Value, s: string, i: nat)
    requires c.Cons? && InnerAt(c, s, i)
    ensures |InnerToSexp(c)| + 1 == |ToSexp(c.car)| + |TailText(c)|
    ensures PrintedAt(c.car, s, i) && TailAt(c, s, i + |ToSexp(c.car)|)
  {
    InnerIsCarThenTail(c);
    TextAtSplit(s, i, ToSexp(c.car), TailText(c));
    TailTextStart(c);
    assert s[i + |ToSexp(c.car)|] == TailText(c)[0];
  }

  /** A printed readable value starts with a character that opens a datum. */
  lemma PrintedHeadAt(v: Value, s: string, i: nat)
    requires Readable(v) && PrintedAt(v, s, i)
    ensures i < |s| && !IsWs(s[i]) && s[i] != ')' && s[i] != '.'
  {
    PrintedHead(v);
    assert s[i] == ToSexp(v)[0];
  }

  /** The parts of the tail text of a cell whose cdr is a cons: a space,
      then the cdr's inner text and the closing parenthesis. */
  lemma ConsTailTextParts(c: Value, s: string, j: nat)
    requires c.Cons? && c.cdr.Cons? && TailAt(c, s, j)
    ensures |TailText(c)| == |InnerToSexp(c.cdr)| + 2
    ensures j < |s| && s[j] == ' ' && InnerAt(c.cdr, s, j + 1)
  {
    var sp, n := " ", InnerToSexp(c.cdr);
    TextAtSplit(s, j, sp + n, ")");
    TextAtSplit(s, j, sp, n);
    TextAtJoin(s, j + 1, n, ")");
    assert s[j] == sp[0];
  }

  /** The parts of the tail text ` . d)` of a cell whose cdr is an atom. */
  lemma DottedTextParts(c: Value, s: string, j: nat)
    requires c.Cons? && !c.cdr.Cons? && c.cdr != Nil && TailAt(c, s, j)
    ensures |TailText(c)| == |ToSexp(c.cdr)| + 4
    ensures j + 3 < |s| && s[j] == ' ' && s[j + 1] == '.' && s[j + 2] == ' '
    ensures PrintedAt(c.cdr, s, j + 3)
    ensures j + 3 + |ToSexp(c.cdr)| < |s| && s[j + 3 + |ToSexp(c.cdr)|] == ')'
  {
    var dot, td := " . ", ToSexp(c.cdr);
    TextAtSplit(s, j, dot + td, ")");
    TextAtSplit(s, j, dot, td);
    assert s[j] == dot[0] && s[j + 1] == dot[1] && s[j + 2] == dot[2];
    assert s[j + 3 + |td|] == ")"[0];
  }

  /** A space before the rest of a list changes nothing about reading it. */
  lemma ReadAfterSpace(s: string, j: nat, d: Value, m: nat)
    requires j < |s| && s[j] == ' ' && ReadCdr(s, j + 1) == Ok((d, m))
    ensures ReadCdr(s, j) == Ok((d, m))
  {
    ReadCdrSkipsWs(s, j);
  }

  /** ` . `, a datum, and then directly `)` end a list with that datum as its tail. */
  lemma ReadDotDatumClose(s: string, j: nat, d: Value, e: nat)
    requires j + 3 < |s| && s[j] == ' ' && s[j + 1] == '.' && s[j + 2] == ' '
    requires !IsWs(s[j + 3]) && ReadDatum(s, j + 3) == Ok((d, e)) && e < |s| && s[e] == ')'
    ensures ReadCdr(s, j) == Ok((d, e + 1))
  {
    assert DrainWs(s, j + 3) == j + 3;
    assert DrainWs(s, j + 2) == j + 3;
    ReadSexpDatum(s, j + 2, j + 3, d, e);
    assert DrainWs(s, j + 1) == j + 1;
    assert DrainWs(s, j) == j + 1;
    assert DrainWs(s, e) == e;
    ReadListDot(s, j, j + 1, d, e);
  }

  /** An element that starts right at `i`, followed by the rest of the list. */
  lemma ReadElementThenRest(s: string, i: nat, v: Value, j: nat, tail: Value, m: nat)
    requires i < |s| && !IsWs(s[i]) && s[i] != ')' && s[i] != '.'
    requires ReadDatum(s, i) == Ok((v, j)) && ReadCdr(s, j) == Ok((tail, m))
    ensures ReadCdr(s, i) == Ok((Cons(v, tail), m))
  {
    assert DrainWs(s, i) == i;
    ReadListElement(s, i, i, v, j, tail, m);
  }

  /** Reading at the start of a printed readable value, followed by a
      delimiter or the end of the text, gives that value and stops just after it. */
  lemma {:induction false} ReadPrinted(v: Value, s: string, i: nat)
    requires Readable(v) && PrintedAt(v, s, i)
    ensures ReadsBackAt(v, s, i)
    decreases v, 4
  {
    if v.Cons? {
      ReadPrintedCons(v, s, i);
    } else {
      ReadAtom(v, s, i);
    }
  }

  /** The same for a printed cons cell: `(` opens the rest of the list. */
  lemma {:induction false} ReadPrintedCons(c: Value, s: string, i: nat)
    requires c.Cons? && Readable(c) && PrintedAt(c, s, i)
    ensures ReadsBackAt(c, s, i)
    decreases c, 3
  {
    ConsTextParts(c, s, i);
    ReadPrintedInner(c, s, i + 1);
    ReadListOpen(s, i);
    assert i + 1 + |InnerToSexp(c)| + 1 == i + |ToSexp(c)|;
  }

  /** Reading the rest of a list from the inner text of a printed readable
      cons cell and its closing parenthesis gives that cell. */
  lemma {:induction false} ReadPrintedInner(c: Value, s: string, i: nat)
    requires c.Cons? && Readable(c) && InnerAt(c, s, i)
    ensures ReadCdr(s, i) == Ok((c, i + |InnerToSexp(c)| + 1))
    decreases c, 2
  {
    var j := i + |ToSexp(c.car)|;
    InnerTextParts(c, s, i);
    PrintedHeadAt(c.car, s, i);
    ReadPrinted(c.car, s, i);
    ReadTail(c, s, j);
    ReadElementThenRest(s, i, c.car, j, c.cdr, j + |TailText(c)|);
  }

  /** Reading the rest of a list just after the car of a printed readable
      cons cell gives the cell's cdr. */
  lemma {:induction false} ReadTail(c: Value, s: string, j: nat)
    requires c.Cons? && Readable(c) && TailAt(c, s, j)
    ensures ReadCdr(s, j) == Ok((c.cdr, j + |TailText(c)|))
    decreases c, 1
  {
    if c.cdr == Nil {
      ReadNilTail(c, s, j);
    } else if c.cdr.Cons? {
      ReadConsTail(c, s, j);
    } else {
      ReadAtomTail(c, s, j);
    }
  }

  /** The tail text of a cell whose cdr is nil is its closing parenthesis. */
  lemma ReadNilTail(c: Value, s: string, j: nat)
    requires c.Cons? && c.cdr == Nil && TailAt(c, s, j)
    ensures ReadCdr(s, j) == Ok((c.cdr, j + |TailText(c)|))
  {
    assert TailText(c) == ")";
    assert s[j] == TailText(c)[0];
    assert DrainWs(s, j) == j;
    ReadListClose(s, j, j);
  }

  /** The tail text of a cell whose cdr is a readable cons reads as that cdr. */
  lemma {:induction false} ReadConsTail(c: Value, s: string, j: nat)
    requires c.Cons? && c.cdr.Cons? && Readable(c.cdr) && TailAt(c, s, j)
    ensures ReadCdr(s, j) == Ok((c.cdr, j + |TailText(c)|))
    decreases c, 0
  {
    ConsTailTextParts(c, s, j);
    ReadSpacedInner(c.cdr, s, j);
  }

  /** A space and then the inner text of a printed readable cons cell and
      its closing parenthesis read as that cell. */
  lemma {:induction false} ReadSpacedInner(d: Value, s: string, j: nat)
    requires d.Cons? && Readable(d) && j < |s| && s[j] == ' ' && InnerAt(d, s, j + 1)
    ensures ReadCdr(s, j) == Ok((d, j + |InnerToSexp(d)| + 2))
    decreases d, 3
  {
    ReadPrintedInner(d, s, j + 1);
    ReadAfterSpace(s, j, d, j + 1 + |InnerToSexp(d)| + 1);
  }

  /** The tail text of a cell whose cdr is a readable atom other than nil
      reads as that atom. */
  lemma ReadAtomTail(c: Value, s: string, j: nat)
    requires c.Cons? && !c.cdr.Cons? && c.cdr != Nil && Readable(c.cdr) && TailAt(c, s, j)
    ensures ReadCdr(s, j) == Ok((c.cdr, j + |TailText(c)|))
  {
    DottedTextParts(c, s, j);
    ReadAtom(c.cdr, s, j + 3);
    ReadDottedAtom(c.cdr, s, j);
  }

  /** ` . `, then a datum that reads back as `d`, then `)`, end a list
      with `d` as its tail. */
  lemma ReadDottedAtom(d: Value, s: string, j: nat)
    requires j + 3 < |s| && s[j] == ' ' && s[j + 1] == '.' && s[j + 2] == ' '
    requires ReadsBackAt(d, s, j + 3)
    requires j + 3 + |ToSexp(d)| < |s| && s[j + 3 + |ToSexp(d)|] == ')'
    ensures ReadCdr(s, j) == Ok((d, j + |ToSexp(d)| + 4))
  {
    ReadDotDatumClose(s, j, d, j + 3 + |ToSexp(d)|);
  }

  /** Serialise then read: the printed form of a readable value reads back
      as a structurally equal value, and the reader ends at the end of the text. */
  lemma RoundTrip(v: Value)
    requires Readable(v)
    ensures ReadSexp(ToSexp(v), 0) == Ok((Val(v), |ToSexp(v)|))
  {
    var t := ToSexp(v);
    assert TextAt(t, 0, t);
    ReadPrinted(v, t, 0);
    assert DrainWs(t, 0) == 0;
  }

  /** The same when whitespace follows: reading stops right after the value,
      leaving the whitespace for the next read. */
  lemma RoundTripBeforeWhitespace(v: Value, ws: string)
    requires Readable(v)
    requires |ws| > 0 && forall k :: 0 <= k < |ws| ==> IsWs(ws[k])
    ensures ReadSexp(ToSexp(v) + ws, 0) == Ok((Val(v), |ToSexp(v)|))
    ensures ReadSexp(ToSexp(v) + ws, |ToSexp(v)|) == Ok((Eof, |ToSexp(v) + ws|))
  {
    var t := ToSexp(v);
    var s := t + ws;
    assert forall k :: 0 <= k < |t| ==> s[k] == t[k];
    assert TextAt(s, 0, t);
    assert s[|t|] == ws[0];
    ReadPrinted(v, s, 0);
    assert DrainWs(s, 0) == 0;
    assert forall j :: |t| <= j < |s| ==> s[j] == ws[j - |t|];
  }
}
