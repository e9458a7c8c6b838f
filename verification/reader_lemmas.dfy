/**
 What one step of the reader does, case by case: the end-of-input sentinel,
 bare tokens and their classification, `#` forms, string literals, and the
 three ways a list continues (`)`, `.` and another element).
 */
module ReaderLemmas {
  import opened Values
  import opened Reader

  /** Reading gives the end-of-input sentinel exactly when nothing but
      whitespace remains, and then the whole rest of the text is consumed. */
  lemma EofIffBlank(s: string, i: nat)
    requires i <= |s|
    ensures ReadSexp(s, i) == Ok((Eof, |s|)) <==> forall j :: i <= j < |s| ==> IsWs(s[j])
  {
  }

  /** The integer and float patterns never both match a token. */
  lemma IntAndFloatDisjoint(t: string)
    ensures !(IsIntToken(t) && IsFloatToken(t))
  {
    if IsFloatToken(t) {
      var u := Unsigned(t);
      assert !IsDigit(u[DotFrom(u, 0)]);
    }
  }

  /** The first-point formulation of the float pattern is the pattern itself:
      some point has a digit run on each side. */
  lemma {:induction false} FloatTokenSplit(t: string)
    ensures IsFloatToken(t) <==>
      var u := Unsigned(t);
      exists k :: 0 <= k < |u| && u[k] == '.' && AllDigits(u[..k]) && AllDigits(u[k + 1..])
  {
    var u := Unsigned(t);
    var d := DotFrom(u, 0);
    if IsFloatToken(t) {
      assert 0 <= d < |u| && u[d] == '.' && AllDigits(u[..d]) && AllDigits(u[d + 1..]);
    }
    if exists k :: 0 <= k < |u| && u[k] == '.' && AllDigits(u[..k]) && AllDigits(u[k + 1..]) {
      var k :| 0 <= k < |u| && u[k] == '.' && AllDigits(u[..k]) && AllDigits(u[k + 1..]);
      assert d == k;
    }
  }

  /** A token is an integer when it matches the integer pattern, a float
      (kept as its text) when it matches the float pattern, and otherwise the
      symbol whose name is exactly the token's text. */
  lemma ClassifyCases(t: string)
    ensures IsIntToken(t) ==> Classify(t) == Int(TokenInt(t))
    ensures IsFloatToken(t) ==> Classify(t) == Float(t)
    ensures !IsIntToken(t) && !IsFloatToken(t) ==> Classify(t) == Sym(t)
    ensures Classify(t).Int? || Classify(t).Float? || Classify(t).Sym?
  {
    IntAndFloatDisjoint(t);
  }

  /** Examples of integer classification: signs and leading zeros are accepted. */
  lemma ClassifyIntExamples()
    ensures Classify("-42") == Int(-42)
    ensures Classify("+007") == Int(7)
  {
    var a := Unsigned("-42");
    assert a == "42" && a[..1] == "4" && "4"[..0] == [];
    var b := Unsigned("+007");
    assert b == "007" && b[..2] == "00" && "00"[..1] == "0" && "0"[..0] == [];
  }

  /** Examples of float classification: a float needs digits on both sides
      of its point, and a lone sign is a symbol. */
  lemma ClassifyFloatExamples()
    ensures Classify("1.5") == Float("1.5")
    ensures Classify("1.") == Sym("1.")
    ensures Classify("-") == Sym("-")
  {
    var u := Unsigned("1.5");
    assert u == "1.5" && DotFrom(u, 0) == 1 && u[..1] == "1" && u[2..] == "5";
    var v := Unsigned("1.");
    assert v == "1." && DotFrom(v, 0) == 1 && v[2..] == [];
    assert Unsigned("-") == [];
  }

  /** A bare token runs from its first character up to, not over, the next
      whitespace or parenthesis (or the end), and reads as its classification. */
  lemma ReadBareToken(s: string, k: nat)
    requires k < |s| && !IsWs(s[k])
    requires s[k] != '(' && s[k] != '"' && s[k] != '#'
    ensures var j := ScanToken(s, k);
      && ReadDatum(s, k) == Ok((Classify(s[k..j]), j))
      && (forall m :: k <= m < j ==> !IsDelim(s[m]))
      && (j == |s| || IsDelim(s[j]))
  {
  }

  /** After `#` the token `t` gives true, `f` gives false, and any other
      token fails. */
  lemma ReadHashForm(s: string, k: nat)
    requires k < |s| && s[k] == '#'
    ensures var j := ScanToken(s, k + 1);
      && (s[k + 1..j] == "t" ==> ReadDatum(s, k) == Ok((Bool(true), j)))
      && (s[k + 1..j] == "f" ==> ReadDatum(s, k) == Ok((Bool(false), j)))
      && (s[k + 1..j] != "t" && s[k + 1..j] != "f" ==> ReadDatum(s, k) == Err(BadHash(s[k + 1..j])))
  {
  }

  /** A string literal reads as the text between its quotes, escapes still
      encoded, and the reader stops just after the closing quote; when the text
      ends first, reading fails. */
  lemma ReadStringLiteral(s: string, k: nat)
    requires k < |s| && s[k] == '"'
    ensures ScanString(s, k + 1).Ok? ==>
      var e := ScanString(s, k + 1).value;
      ReadDatum(s, k) == Ok((Str(s[k + 1..e - 1]), e)) && s[e - 1] == '"'
    ensures ScanString(s, k + 1).Err? ==> ReadDatum(s, k) == Err(UnterminatedString)
  {
  }

  /** What the string scanner accepts between the quotes is a well-formed
      literal body: every quote in it is escaped and no backslash is last. */
  lemma {:induction false} ScanStringBody(s: string, i: nat)
    requires i <= |s| && ScanString(s, i).Ok?
    ensures EscapedBody(s[i..ScanString(s, i).value - 1])
    decreases |s| - i
  {
    var e := ScanString(s, i).value;
    if s[i] != '"' {
      var n := if s[i] == '\\' then 2 else 1;
      ScanStringBody(s, i + n);
      assert s[i..e - 1][n..] == s[i + n..e - 1];
    }
  }

  /** `(` opens a list, whose elements are read by the list continuation. */
  lemma ReadListOpen(s: string, k: nat)
    requires k < |s| && s[k] == '('
    ensures ReadDatum(s, k) == ReadCdr(s, k + 1)
  {
  }

  /** Reading skips whitespace and then gives the datum that starts there. */
  lemma ReadSexpDatum(s: string, i: nat, k: nat, v: Value, j: nat)
    requires i <= |s| && DrainWs(s, i) == k && k < |s|
    requires ReadDatum(s, k) == Ok((v, j))
    ensures ReadSexp(s, i) == Ok((Val(v), j))
  {
  }

  /** Inside a list, `)` after optional whitespace ends the list with nil. */
  lemma ReadListClose(s: string, i: nat, k: nat)
    requires i <= |s| && DrainWs(s, i) == k && k < |s| && s[k] == ')'
    ensures ReadCdr(s, i) == Ok((Nil, k + 1))
  {
  }

  /** Inside a list, any other character starts an element, and the list
      continues with the rest read after that element. */
  lemma ReadListElement(s: string, i: nat, k: nat, v: Value, j: nat, tail: Value, m: nat)
    requires i <= |s| && DrainWs(s, i) == k && k < |s| && s[k] != ')' && s[k] != '.'
    requires ReadDatum(s, k) == Ok((v, j))
    requires j <= |s| && ReadCdr(s, j) == Ok((tail, m))
    ensures ReadCdr(s, i) == Ok((Cons(v, tail), m))
  {
  }

  /** Inside a list, `.` is consumed as a tail marker: exactly one value
      follows, then optional whitespace, then `)` must come or reading fails;
      the value read is the list's final tail. */
  lemma ReadListDot(s: string, i: nat, k: nat, v: Value, j: nat)
    requires i <= |s| && DrainWs(s, i) == k && k < |s| && s[k] == '.'
    requires ReadSexp(s, k + 1) == Ok((Val(v), j))
    ensures var m := DrainWs(s, j);
      && (m < |s| && s[m] == ')' ==> ReadCdr(s, i) == Ok((v, m + 1)))
      && (m == |s| ==> ReadCdr(s, i) == Err(Expected(')', None)))
      && (m < |s| && s[m] != ')' ==> ReadCdr(s, i) == Err(Expected(')', Some(s[m]))))
  {
  }

  /** Inside a list, a `.` with nothing but whitespace after it fails on the
      missing `)`. */
  lemma ReadListDotAtEnd(s: string, i: nat, k: nat)
    requires i <= |s| && DrainWs(s, i) == k && k < |s| && s[k] == '.'
    requires forall j :: k + 1 <= j < |s| ==> IsWs(s[j])
    ensures ReadCdr(s, i) == Err(Expected(')', None))
  {
  }

  /** A list whose text ends before its `)` fails. */
  lemma ReadListAtEnd(s: string, i: nat)
    requires i <= |s| && forall j :: i <= j < |s| ==> IsWs(s[j])
    ensures ReadCdr(s, i) == Err(UnterminatedList)
  {
  }

  /** Whitespace before the rest of a list does not change how it reads. */
  lemma ReadCdrSkipsWs(s: string, i: nat)
    requires i < |s| && IsWs(s[i])
    ensures ReadCdr(s, i) == ReadCdr(s, i + 1)
  {
    assert DrainWs(s, i) == DrainWs(s, i + 1);
  }
}
