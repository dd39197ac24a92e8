/** A recursive-descent reading of the grammar attached to `ComputeParser`:

      expr           = SOI additive EOI
      additive       = multiplicative (("+" | "-") multiplicative)*
      multiplicative = primary (("*" | "/") primary)*
      primary        = number | "(" additive ")"
      number         = "-"? digit+ ("." digit+)?       (atomic: no whitespace inside)

    with whitespace allowed before every token and at the end.  Each function
    starts reading at position `i` of `s` and, on success, returns what it
    read and the position just after its last token (trailing whitespace is
    left for the caller). */
module Parser {
  import opened Results
  import opened Syntax

  /** The first position at or after `i` that does not hold whitespace. */
  function SkipSpace(s: string, i: nat): (j: nat)
    requires i <= |s|
    ensures i <= j <= |s|
    ensures j == |s| || !IsSpace(s[j])
    decreases |s| - i
  {
    if i < |s| && IsSpace(s[i]) then SkipSpace(s, i + 1) else i
  }

  /** The end of the longest run of digits starting at `i`. */
  function ScanDigits(s: string, i: nat): (j: nat)
    requires i <= |s|
    ensures i <= j <= |s|
    ensures AllDigits(s[i..j])
    ensures j == |s| || !IsDigit(s[j])
    decreases |s| - i
  {
    if i < |s| && IsDigit(s[i]) then ScanDigits(s, i + 1) else i
  }

  /** The `number` rule at exactly position `i`: an optional sign, at least
      one digit, and a fraction only when the point is followed by a digit
      (otherwise the point is left unread, and the caller rejects it). */
  function ParseNumber(s: string, i: nat): (r: Result<(Literal, nat)>)
    requires i <= |s|
    ensures r.Ok? ==> i < r.value.1 <= |s| && ValidLiteral(r.value.0)
    ensures r.Err? ==> r.error.ParseError?
  {
    var k := if i < |s| && s[i] == '-' then i + 1 else i;
    var d := ScanDigits(s, k);
    if d == k then
      Err(ParseError(k))
    else if d + 1 < |s| && s[d] == '.' && IsDigit(s[d + 1]) then
      var e := ScanDigits(s, d + 1);
      Ok((Literal(k > i, s[k..d], s[d + 1..e]), e))
    else
      Ok((Literal(k > i, s[k..d], []), d))
  }

  /** `primary`, after skipping leading whitespace. */
  function ParsePrimary(s: string, i: nat): (r: Result<(Primary, nat)>)
    requires i <= |s|
    ensures r.Ok? ==> i < r.value.1 <= |s| && ValidPrimary(r.value.0)
    ensures r.Err? ==> r.error.ParseError?
    decreases |s| - i, 0
  {
    var j := SkipSpace(s, i);
    if j < |s| && s[j] == '(' then
      var (a, k) :- ParseAdditive(s, j + 1);
      var m := SkipSpace(s, k);
      if m < |s| && s[m] == ')' then Ok((Paren(a), m + 1)) else Err(ParseError(m))
    else
      var (l, k) :- ParseNumber(s, j);
      Ok((Num(l), k))
  }

  /** `multiplicative`: one operand and the run of `*`/`/` operands after it. */
  function ParseMultiplicative(s: string, i: nat): (r: Result<(Multiplicative, nat)>)
    requires i <= |s|
    ensures r.Ok? ==> i < r.value.1 <= |s| && ValidMultiplicative(r.value.0)
    ensures r.Err? ==> r.error.ParseError?
    decreases |s| - i, 1
  {
    var (p, j) :- ParsePrimary(s, i);
    var (rest, k) :- ParseMulRest(s, j);
    Ok((Multiplicative(p, rest), k))
  }

  /** The repetition `(("*" | "/") primary)*`: it stops, reading nothing, where
      the next token is not `*` or `/`; an operator without an operand fails. */
  function ParseMulRest(s: string, i: nat): (r: Result<(seq<(MulOp, Primary)>, nat)>)
    requires i <= |s|
    ensures r.Ok? ==> i <= r.value.1 <= |s|
    ensures r.Ok? ==> forall k :: 0 <= k < |r.value.0| ==> ValidPrimary(r.value.0[k].1)
    ensures r.Err? ==> r.error.ParseError?
    decreases |s| - i, 1
  {
    var j := SkipSpace(s, i);
    if j < |s| && (s[j] == '*' || s[j] == '/') then
      var op := if s[j] == '*' then Times else Over;
      var (p, k) :- ParsePrimary(s, j + 1);
      var (rest, e) :- ParseMulRest(s, k);
      Ok(([(op, p)] + rest, e))
    else
      Ok(([], i))
  }

  /** `additive`: one operand and the run of `+`/`-` operands after it. */
  function ParseAdditive(s: string, i: nat): (r: Result<(Additive, nat)>)
    requires i <= |s|
    ensures r.Ok? ==> i < r.value.1 <= |s| && ValidAdditive(r.value.0)
    ensures r.Err? ==> r.error.ParseError?
    decreases |s| - i, 2
  {
    var (m, j) :- ParseMultiplicative(s, i);
    var (rest, k) :- ParseAddRest(s, j);
    Ok((Additive(m, rest), k))
  }

  /** The repetition `(("+" | "-") multiplicative)*`. */
  function ParseAddRest(s: string, i: nat): (r: Result<(seq<(AddOp, Multiplicative)>, nat)>)
    requires i <= |s|
    ensures r.Ok? ==> i <= r.value.1 <= |s|
    ensures r.Ok? ==> forall k :: 0 <= k < |r.value.0| ==> ValidMultiplicative(r.value.0[k].1)
    ensures r.Err? ==> r.error.ParseError?
    decreases |s| - i, 2
  {
    var j := SkipSpace(s, i);
    if j < |s| && (s[j] == '+' || s[j] == '-') then
      var op := if s[j] == '+' then Plus else Minus;
      var (m, k) :- ParseMultiplicative(s, j + 1);
      var (rest, e) :- ParseAddRest(s, k);
      Ok(([(op, m)] + rest, e))
    else
      Ok(([], i))
  }

  /** `expr`: an additive that, up to trailing whitespace, covers the whole input. */
  function ParseExpr(s: string): (r: Result<Additive>)
    ensures r.Ok? ==> ValidAdditive(r.value)
    ensures r.Err? ==> r.error.ParseError?
  {
    var (a, e) :- ParseAdditive(s, 0);
    var j := SkipSpace(s, e);
    if j == |s| then Ok(a) else Err(ParseError(j))
  }
}
