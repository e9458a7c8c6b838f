/**
 The s-expression reader of `Sexp::IO`. The character stream is the text `s`
 and a position in it: `getc` is reading `s[i]` and moving to `i + 1`,
 `ungetc` is not moving, and every reading function returns the position it
 leaves the stream at.
 */
module Reader {
  import opened Values

  /** Ruby's `\s`: space, tab, line feed, vertical tab, form feed, carriage return. */
  predicate IsWs(c: char) {
    c == ' ' || c == '\t' || c == '\n' || c == '\r' || c as int == 11 || c as int == 12
  }

  /** The characters that end a bare token: whitespace and parentheses. */
  predicate IsDelim(c: char) {
    IsWs(c) || c == '(' || c == ')'
  }

  predicate IsDigit(c: char) {
    '0' <= c <= '9'
  }

  /** One or more decimal digits (`\d+`). */
  predicate AllDigits(d: string) {
    |d| > 0 && forall k :: 0 <= k < |d| ==> IsDigit(d[k])
  }

  /** A token with its leading `+` or `-`, if any, removed. */
  function Unsigned(t: string): string {
    if |t| > 0 && (t[0] == '+' || t[0] == '-') then t[1..] else t
  }

  /** The integer pattern `^[+-]?\d+$`. */
  predicate IsIntToken(t: string) {
    AllDigits(Unsigned(t))
  }

  /** The position of the first `.` in `u` at or after `i`, or `|u|` when
      there is none. */
  function DotFrom(u: string, i: nat): (k: nat)
    requires i <= |u|
    ensures i <= k <= |u|
    ensures k < |u| ==> u[k] == '.'
    ensures forall j :: i <= j < k ==> u[j] != '.'
    decreases |u| - i
  {
    if i == |u| || u[i] == '.' then i else DotFrom(u, i + 1)
  }

  /** The float pattern `^[+-]?\d+\.\d+$`: digits, a point, digits. A match
      has no other point, so the point is the first one. */
  predicate IsFloatToken(t: string) {
    var u := Unsigned(t);
    var k := DotFrom(u, 0);
    k < |u| && AllDigits(u[..k]) && AllDigits(u[k + 1..])
  }

  function DigitValue(c: char): nat
    requires IsDigit(c)
  {
    c as int - '0' as int
  }

  /** The value of a digit string read most significant digit first. */
  function DigitsValue(d: string): nat
    requires forall k :: 0 <= k < |d| ==> IsDigit(d[k])
  {
    if |d| == 0 then 0 else DigitsValue(d[..|d| - 1]) * 10 + DigitValue(d[|d| - 1])
  }

  /** `String#to_i` on a token that matches the integer pattern. */
  function TokenInt(t: string): int
    requires IsIntToken(t)
  {
    var n: int := DigitsValue(Unsigned(t));
    if t[0] == '-' then -n else n
  }

  /** The classification at the end of `read_sexp`: an integer token, a float
      token (kept as its text), or otherwise a symbol named by the token. */
  function Classify(t: string): (r: Value)
    ensures r.Int? <==> IsIntToken(t)
    ensures r.Float? <==> !IsIntToken(t) && IsFloatToken(t)
    ensures r.Float? ==> r.text == t
    ensures r.Sym? <==> !r.Int? && !r.Float?
    ensures r.Sym? ==> r.name == t
  {
    if IsIntToken(t) then Int(TokenInt(t))
    else if IsFloatToken(t) then Float(t)
    else Sym(t)
  }

  /** `drain_ws`: skip whitespace, stopping at the first other character
      (left unread) or at the end of the text. */
  function DrainWs(s: string, i: nat): (k: nat)
    requires i <= |s|
    ensures i <= k <= |s|
    ensures forall j :: i <= j < k ==> IsWs(s[j])
    ensures k < |s| ==> !IsWs(s[k])
    decreases |s| - i
  {
    if i < |s| && IsWs(s[i]) then DrainWs(s, i + 1) else i
  }

  /** `sexp_read_tok`: the end of the token starting at `i`, which runs up to
      but not over the next whitespace or parenthesis. */
  function ScanToken(s: string, i: nat): (j: nat)
    requires i <= |s|
    ensures i <= j <= |s|
    ensures forall k :: i <= k < j ==> !IsDelim(s[k])
    ensures j < |s| ==> IsDelim(s[j])
    decreases |s| - i
  {
    if i < |s| && !IsDelim(s[i]) then ScanToken(s, i + 1) else i
  }

  /** The body of a string literal as the scanner accepts it: no quote except
      one escaped by a backslash, and no backslash without a character after it. */
  predicate EscapedBody(b: string)
    decreases |b|
  {
    || |b| == 0
    || (b[0] == '\\' && |b| >= 2 && EscapedBody(b[2..]))
    || (b[0] != '\\' && b[0] != '"' && EscapedBody(b[1..]))
  }

  datatype ReadError =
    | Expected(want: char, got: Option<char>)  // `assert_next_char` saw another character, or the end
    | UnterminatedList                         // the text ended inside a list
    | UnterminatedString                       // the text ended inside a string literal
    | BadHash(token: string)                   // `#` followed by a token other than `t` or `f`

  /** What one call of `read_sexp` produces: a value, or the end-of-input sentinel. */
  datatype Datum = Eof | Val(v: Value)

  /** `sexp_read_string` without the final `undump`: from just after the
      opening quote, the position just after the closing quote. */
  function ScanString(s: string, i: nat): (r: Result<nat, ReadError>)
    requires i <= |s|
    ensures r.Ok? ==> i < r.value <= |s| && s[r.value - 1] == '"'
    ensures r.Err? ==> r.error == UnterminatedString
    decreases |s| - i
  {
    if i == |s| then Err(UnterminatedString)
    else if s[i] == '\\' then
      if i + 1 == |s| then Err(UnterminatedString) else ScanString(s, i + 2)
    else if s[i] == '"' then Ok(i + 1)
    else ScanString(s, i + 1)
  }

  /** `read_sexp`: skip whitespace; at the end of the text give the sentinel,
      otherwise read one value. */
  function ReadSexp(s: string, i: nat): (r: Result<(Datum, nat), ReadError>)
    requires i <= |s|
    ensures r.Ok? ==> i <= r.value.1 <= |s|
    ensures r.Ok? && r.value.0.Eof? ==> r.value.1 == |s|
    decreases |s| - i, 1
  {
    var k := DrainWs(s, i);
    if k == |s| then Ok((Eof, k))
    else
      match ReadDatum(s, k)
      case Ok((v, j)) => Ok((Val(v), j))
      case Err(e) => Err(e)
  }

  /** The dispatch of `read_sexp` on the character at `k`, which is not
      whitespace: a list, a string, a `#` form or a bare token. */
  function ReadDatum(s: string, k: nat): (r: Result<(Value, nat), ReadError>)
    requires k < |s| && !IsWs(s[k])
    ensures r.Ok? ==> k <= r.value.1 <= |s|
    ensures r.Ok? && s[k] != ')' ==> k < r.value.1
    decreases |s| - k, 0
  {
    if s[k] == '(' then ReadCdr(s, k + 1)
    else if s[k] == '"' then
      match ScanString(s, k + 1)
      case Ok(e) => Ok((Str(s[k + 1..e - 1]), e))
      case Err(x) => Err(x)
    else if s[k] == '#' then
      var j := ScanToken(s, k + 1);
      var t := s[k + 1..j];
      if t == "t" then Ok((Bool(true), j))
      else if t == "f" then Ok((Bool(false), j))
      else Err(BadHash(t))
    else
      var j := ScanToken(s, k);
      Ok((Classify(s[k..j]), j))
  }

  /** `sexp_read_cdr_cons`: the rest of a list after its `(` or after an
      element. `)` ends it with nil; `.` reads one value as the tail and then
      demands `)`; anything else is an element followed by the rest. At the end
      of the text this gives `UnterminatedList`, where the Ruby code recurses
      without end. */
  function ReadCdr(s: string, i: nat): (r: Result<(Value, nat), ReadError>)
    requires i <= |s|
    ensures r.Ok? ==> i < r.value.1 <= |s| && s[r.value.1 - 1] == ')'
    decreases |s| - i, 2
  {
    var k := DrainWs(s, i);
    if k == |s| then Err(UnterminatedList)
    else if s[k] == ')' then Ok((Nil, k + 1))
    else if s[k] == '.' then
      match ReadSexp(s, k + 1)
      case Err(e) => Err(e)
      case Ok((d, j)) =>
        // the sentinel only comes back at the end of the text, where `getc` gives nil
        if d.Eof? then Err(Expected(')', None))
        else
          var m := DrainWs(s, j);
          if m == |s| then Err(Expected(')', None))
          else if s[m] != ')' then Err(Expected(')', Some(s[m])))
          else Ok((d.v, m + 1))
    else
      match ReadDatum(s, k)
      case Err(e) => Err(e)
      case Ok((v, j)) =>
        match ReadCdr(s, j)
        case Err(e) => Err(e)
        case Ok((tail, m)) => Ok((Cons(v, tail), m))
  }
}
