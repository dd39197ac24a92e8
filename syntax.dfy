/** The concrete and abstract syntax of the calculator's grammar: the
    characters it knows, the `number` token, the parse tree the pest rules
    `additive`, `multiplicative` and `primary` produce, and the token
    sequence a parse tree is written as. */
module Syntax {

  /** The grammar's implicit WHITESPACE: space, tab, newline, carriage return. */
  predicate IsSpace(c: char) {
    c == ' ' || c == '\t' || c == '\n' || c == '\r'
  }

  predicate IsDigit(c: char) {
    '0' <= c <= '9'
  }

  predicate AllSpace(s: seq<char>) {
    forall k :: 0 <= k < |s| ==> IsSpace(s[k])
  }

  predicate AllDigits(s: seq<char>) {
    forall k :: 0 <= k < |s| ==> IsDigit(s[k])
  }

  /** A `number` token: an optional minus sign, the digits before the point
      and the digits after it (`frac` is empty when the token has no point). */
  datatype Literal = Literal(negative: bool, whole: seq<char>, frac: seq<char>)

  /** What the `number` rule admits: at least one digit before the point, and
      digits only; a point is written only when digits follow it. */
  predicate ValidLiteral(l: Literal) {
    |l.whole| > 0 && AllDigits(l.whole) && AllDigits(l.frac)
  }

  function LiteralText(l: Literal): string {
    (if l.negative then "-" else "") + l.whole + (if l.frac == [] then "" else "." + l.frac)
  }

  function DigitValue(c: char): nat
    requires IsDigit(c)
  {
    c as int - '0' as int
  }

  /** The integer a run of decimal digits denotes. */
  function WholeValue(ds: seq<char>): nat
    requires AllDigits(ds)
  {
    if ds == [] then 0 else WholeValue(ds[..|ds| - 1]) * 10 + DigitValue(ds[|ds| - 1])
  }

  /** The fraction `0.d1d2...` the digits after a decimal point denote. */
  function FracValue(ds: seq<char>): real
    requires AllDigits(ds)
  {
    if ds == [] then 0.0 else (DigitValue(ds[0]) as real + FracValue(ds[1..])) / 10.0
  }

  /** The exact decimal value of a `number` token; the source hands the
      token's text to `str::parse::<f64>`, whose rounding is not modelled. */
  function LiteralValue(l: Literal): real
    requires ValidLiteral(l)
  {
    var magnitude := WholeValue(l.whole) as real + FracValue(l.frac);
    if l.negative then -magnitude else magnitude
  }

  datatype AddOp = Plus | Minus
  datatype MulOp = Times | Over

  /** `primary`: a number, or a parenthesised `additive`. */
  datatype Primary = Num(lit: Literal) | Paren(inner: Additive)

  /** `multiplicative`: a first `primary` followed by a run of `*` or `/`
      and further operands, in source order. */
  datatype Multiplicative = Multiplicative(first: Primary, rest: seq<(MulOp, Primary)>)

  /** `additive`: a first `multiplicative` followed by a run of `+` or `-`
      and further operands, in source order. */
  datatype Additive = Additive(first: Multiplicative, rest: seq<(AddOp, Multiplicative)>)

  /** Every literal in the tree is one the `number` rule admits. */
  predicate ValidPrimary(p: Primary)
    decreases p, 0
  {
    match p
    case Num(l) => ValidLiteral(l)
    case Paren(a) => ValidAdditive(a)
  }

  predicate ValidMultiplicative(m: Multiplicative)
    decreases m, 1
  {
    ValidPrimary(m.first) && forall k :: 0 <= k < |m.rest| ==> ValidPrimary(m.rest[k].1)
  }

  predicate ValidAdditive(a: Additive)
    decreases a, 1
  {
    ValidMultiplicative(a.first) && forall k :: 0 <= k < |a.rest| ==> ValidMultiplicative(a.rest[k].1)
  }

  /** The tokens of the grammar, each written without inner whitespace. */
  datatype Token = PlusTok | MinusTok | TimesTok | OverTok | OpenTok | CloseTok | NumTok(lit: Literal)

  function TokenText(t: Token): string {
    match t
    case PlusTok => "+"
    case MinusTok => "-"
    case TimesTok => "*"
    case OverTok => "/"
    case OpenTok => "("
    case CloseTok => ")"
    case NumTok(l) => LiteralText(l)
  }

  function AddOpToken(op: AddOp): Token {
    if op == Plus then PlusTok else MinusTok
  }

  function MulOpToken(op: MulOp): Token {
    if op == Times then TimesTok else OverTok
  }

  /** The token sequence a parse tree is written as. */
  function PrimaryTokens(p: Primary): seq<Token>
    decreases p, 0
  {
    match p
    case Num(l) => [NumTok(l)]
    case Paren(a) => [OpenTok] + AdditiveTokens(a) + [CloseTok]
  }

  function MultiplicativeTokens(m: Multiplicative): seq<Token>
    decreases m, |m.rest| + 1
  {
    PrimaryTokens(m.first) + MulRestTokens(m, 0)
  }

  /** The tokens of the operators and operands `m.rest[i..]`. */
  function MulRestTokens(m: Multiplicative, i: nat): seq<Token>
    requires i <= |m.rest|
    decreases m, |m.rest| - i
  {
    if i == |m.rest| then []
    else [MulOpToken(m.rest[i].0)] + PrimaryTokens(m.rest[i].1) + MulRestTokens(m, i + 1)
  }

  function AdditiveTokens(a: Additive): seq<Token>
    decreases a, |a.rest| + 1
  {
    MultiplicativeTokens(a.first) + AddRestTokens(a, 0)
  }

  /** The tokens of the operators and operands `a.rest[i..]`. */
  function AddRestTokens(a: Additive, i: nat): seq<Token>
    requires i <= |a.rest|
    decreases a, |a.rest| - i
  {
    if i == |a.rest| then []
    else [AddOpToken(a.rest[i].0)] + MultiplicativeTokens(a.rest[i].1) + AddRestTokens(a, i + 1)
  }

  /** A layout: the whitespace written before each of `n` tokens. */
  predicate IsLayout(w: seq<string>, n: nat) {
    |w| == n && forall k :: 0 <= k < n ==> AllSpace(w[k])
  }

  /** The text of `toks` with `w[k]` written before the k-th token. */
  function Spell(toks: seq<Token>, w: seq<string>): string
    requires |w| == |toks|
  {
    if toks == [] then [] else w[0] + TokenText(toks[0]) + Spell(toks[1..], w[1..])
  }
}
