/** Inputs that `evaluate` always rejects with a parse error, never a value:
    a leading character no operand can start with (this covers empty and
    whitespace-only input and a leading binary operator), a last character
    no operand can end with (a trailing operator, an unclosed group, a
    number with a bare point), a character the grammar never writes (letters,
    identifiers, an exponent), and unmatched parentheses. */
module Rejection {
  import opened Results
  import opened Syntax
  import opened Parser
  import opened Evaluator
  import opened ParserProofs
  import opened Language
  import opened Properties

  /* The first token. */

  /** A character an operand can start with: `(`, the sign of a number, or a digit. */
  predicate StartsOperand(c: char) {
    c == '(' || c == '-' || IsDigit(c)
  }

  /** When nothing, or nothing an operand can start with, follows the leading
      whitespace, the first `primary` fails and so does the whole input. */
  lemma LeadingRejected(s: string)
    requires SkipSpace(s, 0) == |s| || !StartsOperand(s[SkipSpace(s, 0)])
    ensures ExpressionValue(s).Err? && ExpressionValue(s).error.ParseError?
  {
    var j := SkipSpace(s, 0);
    assert ScanDigits(s, j) == j;
    assert ParseNumber(s, j).Err?;
    assert ParsePrimary(s, 0).Err?;
    assert ParseMultiplicative(s, 0).Err?;
    assert ParseAdditive(s, 0).Err?;
  }

  /* The last token. */

  /** A token a parse tree can end with: a well-formed number or `)`. */
  predicate EndToken(t: Token) {
    t == CloseTok || (t.NumTok? && ValidLiteral(t.lit))
  }

  /** A character a written tree can end with. */
  predicate EndsOperand(c: char) {
    c == ')' || IsDigit(c)
  }

  lemma PrimaryEnds(p: Primary)
    requires ValidPrimary(p)
    ensures |PrimaryTokens(p)| > 0 && EndToken(PrimaryTokens(p)[|PrimaryTokens(p)| - 1])
  {
  }

  lemma {:induction false} MulRestEnds(m: Multiplicative, i: nat)
    requires ValidMultiplicative(m) && i <= |m.rest|
    ensures var t := MulRestTokens(m, i); t == [] || EndToken(t[|t| - 1])
    decreases |m.rest| - i
  {
    if i < |m.rest| {
      MulRestEnds(m, i + 1);
      PrimaryEnds(m.rest[i].1);
    }
  }

  lemma MultiplicativeEnds(m: Multiplicative)
    requires ValidMultiplicative(m)
    ensures |MultiplicativeTokens(m)| > 0 && EndToken(MultiplicativeTokens(m)[|MultiplicativeTokens(m)| - 1])
  {
    PrimaryEnds(m.first);
    MulRestEnds(m, 0);
  }

  lemma {:induction false} AddRestEnds(a: Additive, i: nat)
    requires ValidAdditive(a) && i <= |a.rest|
    ensures var t := AddRestTokens(a, i); t == [] || EndToken(t[|t| - 1])
    decreases |a.rest| - i
  {
    if i < |a.rest| {
      AddRestEnds(a, i + 1);
      MultiplicativeEnds(a.rest[i].1);
    }
  }

  /** Every parse tree is written with at least one token, and its last token
      is a number or a closing parenthesis. */
  lemma AdditiveEnds(a: Additive)
    requires ValidAdditive(a)
    ensures |AdditiveTokens(a)| > 0 && EndToken(AdditiveTokens(a)[|AdditiveTokens(a)| - 1])
  {
    MultiplicativeEnds(a.first);
    AddRestEnds(a, 0);
  }

  /** A well-formed number ends with a digit. */
  lemma LiteralEnds(l: Literal)
    requires ValidLiteral(l)
    ensures |LiteralText(l)| > 0 && IsDigit(LiteralText(l)[|LiteralText(l)| - 1])
  {
    var sign: string := if l.negative then "-" else "";
    var point: string := if l.frac == [] then "" else "." + l.frac;
    assert LiteralText(l) == sign + l.whole + point;
  }

  /** The last character of a spelling is the last character of its last token. */
  lemma SpellEnds(toks: seq<Token>, w: seq<string>)
    requires |w| == |toks| && |toks| > 0 && |TokenText(toks[|toks| - 1])| > 0
    ensures var x := Spell(toks, w); var y := TokenText(toks[|toks| - 1]);
      |x| > 0 && x[|x| - 1] == y[|y| - 1]
  {
    var n := |toks|;
    var front, u, y := SpellLast(toks, w);
    LastOfJoin(u, y);
    LastOfJoin(front, u + y);
  }

  /** A spelling is the spelling of all but the last token, then the last token with its whitespace. */
  lemma SpellLast(toks: seq<Token>, w: seq<string>) returns (front: string, u: string, y: string)
    requires |w| == |toks| && |toks| > 0
    ensures y == TokenText(toks[|toks| - 1]) && Spell(toks, w) == front + (u + y)
  {
    var n := |toks|;
    front, u, y := Spell(toks[..n - 1], w[..n - 1]), w[n - 1], TokenText(toks[n - 1]);
    SpellSnoc(toks, w);
    SpellOne(toks[n - 1], u);
  }

  lemma SpellSnoc(toks: seq<Token>, w: seq<string>)
    requires |w| == |toks| && |toks| > 0
    ensures Spell(toks, w) == Spell(toks[..|toks| - 1], w[..|toks| - 1]) + Spell([toks[|toks| - 1]], [w[|toks| - 1]])
  {
    var n := |toks|;
    var front, fw, t, u := toks[..n - 1], w[..n - 1], toks[n - 1], w[n - 1];
    calc {
      Spell(toks, w);
      { SnocSplit(toks); SnocSplit(w); }
      Spell(front + [t], fw + [u]);
      { SpellAppend(front, fw, [t], [u]); }
      Spell(front, fw) + Spell([t], [u]);
    }
  }

  /** A nonempty sequence is its front followed by its last element. */
  lemma SnocSplit<T>(s: seq<T>)
    requires |s| > 0
    ensures s == s[..|s| - 1] + [s[|s| - 1]]
  {
  }

  lemma SpellOne(t: Token, u: string)
    ensures Spell([t], [u]) == u + TokenText(t)
  {
    assert Spell([t], [u]) == u + TokenText(t) + Spell([], []);
  }

  lemma LastOfJoin(x: string, y: string)
    requires |y| > 0
    ensures |x + y| > 0 && (x + y)[|x + y| - 1] == y[|y| - 1]
  {
  }

  /** The last non-whitespace character of a written tree is a digit or `)`. */
  lemma WrittenEnds(s: string, a: Additive, p: nat)
    requires Writes(s, a) && p < |s| && !IsSpace(s[p]) && AllSpace(s[p + 1..])
    ensures EndsOperand(s[p])
  {
    var w, tail := WrittenParts(s, a);
    AdditiveEnds(a);
    SpelledEnds(AdditiveTokens(a), w);
    LastBeforeSpace(Spell(AdditiveTokens(a), w), tail, p);
  }

  /** Tokens ending with a number or `)`, written out, end with a digit or `)`. */
  lemma SpelledEnds(toks: seq<Token>, w: seq<string>)
    requires |toks| > 0 && EndToken(toks[|toks| - 1]) && |w| == |toks|
    ensures var x := Spell(toks, w); |x| > 0 && EndsOperand(x[|x| - 1])
  {
    var t := toks[|toks| - 1];
    if t.NumTok? {
      LiteralEnds(t.lit);
    }
    SpellEnds(toks, w);
  }

  /** In text followed by whitespace, the last non-whitespace character is the text's last. */
  lemma LastBeforeSpace(x: string, tail: string, p: nat)
    requires |x| > 0 && AllSpace(tail) && EndsOperand(x[|x| - 1])
    requires p < |x + tail| && !IsSpace((x + tail)[p]) && AllSpace((x + tail)[p + 1..])
    ensures (x + tail)[p] == x[|x| - 1]
  {
    var s, q := x + tail, |x| - 1;
    forall k | p < k < |s| ensures IsSpace(s[k]) {
      assert s[k] == s[p + 1..][k - p - 1];
    }
    forall k | q < k < |s| ensures IsSpace(s[k]) {
      assert s[k] == tail[k - |x|];
    }
    assert s[q] == x[q];
  }

  /** When the last non-whitespace character is neither a digit nor `)`,
      no tree is written and the input is a parse error. */
  lemma TrailingRejected(s: string, p: nat)
    requires p < |s| && !IsSpace(s[p]) && AllSpace(s[p + 1..]) && !EndsOperand(s[p])
    ensures ExpressionValue(s).Err? && ExpressionValue(s).error.ParseError?
  {
    forall a | Writes(s, a) ensures false {
      WrittenEnds(s, a, p);
    }
    ParseErrorMeaning(s);
  }

  /* The characters written. */

  /** A character the grammar can write: whitespace, a digit, the point, an
      operator or a parenthesis. */
  predicate IsSymbol(c: char) {
    IsSpace(c) || IsDigit(c) || c == '.' || c == '+' || c == '-' || c == '*' || c == '/' || c == '(' || c == ')'
  }

  predicate AllSymbols(x: string) {
    forall k :: 0 <= k < |x| ==> IsSymbol(x[k])
  }

  /** The number of occurrences of `(` and `)` in `x`. */
  function Opens(x: string): nat {
    multiset(x)['(']
  }

  function Closes(x: string): nat {
    multiset(x)[')']
  }

  /** Every number in `toks` is well formed. */
  predicate LiteralsValid(toks: seq<Token>) {
    forall k :: 0 <= k < |toks| && toks[k].NumTok? ==> ValidLiteral(toks[k].lit)
  }

  /** As many `(` as `)` tokens. */
  predicate TokensBalanced(toks: seq<Token>) {
    multiset(toks)[OpenTok] == multiset(toks)[CloseTok]
  }

  lemma JoinTokens(x: seq<Token>, y: seq<Token>)
    requires LiteralsValid(x) && LiteralsValid(y)
    ensures LiteralsValid(x + y)
    ensures TokensBalanced(x) && TokensBalanced(y) ==> TokensBalanced(x + y)
  {
    forall k | 0 <= k < |x + y| && (x + y)[k].NumTok? ensures ValidLiteral((x + y)[k].lit) {
      if k >= |x| {
        assert (x + y)[k] == y[k - |x|];
      }
    }
  }

  lemma {:induction false} PrimaryTokensWellFormed(p: Primary)
    requires ValidPrimary(p)
    ensures LiteralsValid(PrimaryTokens(p)) && TokensBalanced(PrimaryTokens(p))
    decreases p, 0
  {
    match p
    case Num(_) =>
    case Paren(a) =>
      AdditiveTokensWellFormed(a);
      JoinTokens([OpenTok], AdditiveTokens(a));
      JoinTokens([OpenTok] + AdditiveTokens(a), [CloseTok]);
  }

  lemma {:induction false} MulRestTokensWellFormed(m: Multiplicative, i: nat)
    requires ValidMultiplicative(m) && i <= |m.rest|
    ensures LiteralsValid(MulRestTokens(m, i)) && TokensBalanced(MulRestTokens(m, i))
    decreases m, |m.rest| - i
  {
    if i < |m.rest| {
      PrimaryTokensWellFormed(m.rest[i].1);
      MulRestTokensWellFormed(m, i + 1);
      JoinTokens([MulOpToken(m.rest[i].0)], PrimaryTokens(m.rest[i].1));
      JoinTokens([MulOpToken(m.rest[i].0)] + PrimaryTokens(m.rest[i].1), MulRestTokens(m, i + 1));
    }
  }

  lemma {:induction false} MultiplicativeTokensWellFormed(m: Multiplicative)
    requires ValidMultiplicative(m)
    ensures LiteralsValid(MultiplicativeTokens(m)) && TokensBalanced(MultiplicativeTokens(m))
    decreases m, |m.rest| + 1
  {
    PrimaryTokensWellFormed(m.first);
    MulRestTokensWellFormed(m, 0);
    JoinTokens(PrimaryTokens(m.first), MulRestTokens(m, 0));
  }

  lemma {:induction false} AddRestTokensWellFormed(a: Additive, i: nat)
    requires ValidAdditive(a) && i <= |a.rest|
    ensures LiteralsValid(AddRestTokens(a, i)) && TokensBalanced(AddRestTokens(a, i))
    decreases a, |a.rest| - i
  {
    if i < |a.rest| {
      MultiplicativeTokensWellFormed(a.rest[i].1);
      AddRestTokensWellFormed(a, i + 1);
      JoinTokens([AddOpToken(a.rest[i].0)], MultiplicativeTokens(a.rest[i].1));
      JoinTokens([AddOpToken(a.rest[i].0)] + MultiplicativeTokens(a.rest[i].1), AddRestTokens(a, i + 1));
    }
  }

  /** The tokens of a parse tree hold well-formed numbers and matched parentheses. */
  lemma {:induction false} AdditiveTokensWellFormed(a: Additive)
    requires ValidAdditive(a)
    ensures LiteralsValid(AdditiveTokens(a)) && TokensBalanced(AdditiveTokens(a))
    decreases a, |a.rest| + 1
  {
    MultiplicativeTokensWellFormed(a.first);
    AddRestTokensWellFormed(a, 0);
    JoinTokens(MultiplicativeTokens(a.first), AddRestTokens(a, 0));
  }

  /** Whitespace holds only symbols and no parenthesis. */
  lemma SpaceChars(x: string)
    requires AllSpace(x)
    ensures AllSymbols(x) && Opens(x) == 0 && Closes(x) == 0
  {
    assert '(' !in x;
    assert ')' !in x;
  }

  /** A character of a number: its sign, a digit or its point. */
  predicate IsNumeral(c: char) {
    c == '-' || c == '.' || IsDigit(c)
  }

  predicate AllNumerals(x: string) {
    forall k :: 0 <= k < |x| ==> IsNumeral(x[k])
  }

  lemma NumeralsJoin(x: string, y: string)
    requires AllNumerals(x) && AllNumerals(y)
    ensures AllNumerals(x + y)
  {
    forall k | |x| <= k < |x + y| ensures IsNumeral((x + y)[k]) {
      assert (x + y)[k] == y[k - |x|];
    }
  }

  lemma SymbolsJoin(x: string, y: string)
    requires AllSymbols(x) && AllSymbols(y)
    ensures AllSymbols(x + y)
  {
    forall k | |x| <= k < |x + y| ensures IsSymbol((x + y)[k]) {
      assert (x + y)[k] == y[k - |x|];
    }
  }

  /** A well-formed number is written with its sign, digits and point only. */
  lemma LiteralChars(l: Literal)
    requires ValidLiteral(l)
    ensures AllNumerals(LiteralText(l))
  {
    var sign: string := if l.negative then "-" else "";
    var point: string := if l.frac == [] then "" else "." + l.frac;
    if l.frac != [] {
      NumeralsJoin(".", l.frac);
    }
    NumeralsJoin(sign, l.whole);
    NumeralsJoin(sign + l.whole, point);
    assert LiteralText(l) == sign + l.whole + point;
  }

  /** A token's text: only symbols, and a parenthesis only for a parenthesis token. */
  lemma TokenChars(t: Token)
    requires t.NumTok? ==> ValidLiteral(t.lit)
    ensures AllSymbols(TokenText(t))
    ensures Opens(TokenText(t)) == (if t == OpenTok then 1 else 0)
    ensures Closes(TokenText(t)) == (if t == CloseTok then 1 else 0)
  {
    if t.NumTok? {
      NumberChars(t.lit);
    }
  }

  lemma NumberChars(l: Literal)
    requires ValidLiteral(l)
    ensures AllSymbols(LiteralText(l)) && Opens(LiteralText(l)) == 0 && Closes(LiteralText(l)) == 0
  {
    var x := LiteralText(l);
    LiteralChars(l);
    assert '(' !in x && ')' !in x;
  }

  /** Spelling keeps to the symbols, with one `(` per `(` token and one `)` per `)` token. */
  lemma {:induction false} SpellChars(toks: seq<Token>, w: seq<string>)
    requires IsLayout(w, |toks|) && LiteralsValid(toks)
    ensures AllSymbols(Spell(toks, w))
    ensures Opens(Spell(toks, w)) == multiset(toks)[OpenTok] && Closes(Spell(toks, w)) == multiset(toks)[CloseTok]
    decreases |toks|
  {
    if toks != [] {
      assert toks == [toks[0]] + toks[1..];
      SpaceChars(w[0]);
      TokenChars(toks[0]);
      SpellChars(toks[1..], w[1..]);
      var x, y, z := w[0], TokenText(toks[0]), Spell(toks[1..], w[1..]);
      assert LiteralsValid(toks[1..]);
      SymbolsJoin(x, y);
      SymbolsJoin(x + y, z);
    }
  }

  /** A written tree holds only symbols and as many `(` as `)`. */
  lemma WrittenChars(s: string, a: Additive)
    requires Writes(s, a)
    ensures AllSymbols(s) && Opens(s) == Closes(s)
  {
    var w, tail := WrittenParts(s, a);
    AdditiveTokensWellFormed(a);
    SpellChars(AdditiveTokens(a), w);
    SpaceChars(tail);
    SymbolsJoin(Spell(AdditiveTokens(a), w), tail);
  }

  /** A character the grammar never writes (a letter, an exponent marker, a
      comma, ...) makes the input a parse error. */
  lemma ForeignCharRejected(s: string, p: nat)
    requires p < |s| && !IsSymbol(s[p])
    ensures ExpressionValue(s).Err? && ExpressionValue(s).error.ParseError?
  {
    forall a | Writes(s, a) ensures false {
      WrittenChars(s, a);
    }
    ParseErrorMeaning(s);
  }

  /** Unmatched parentheses make the input a parse error. */
  lemma UnbalancedRejected(s: string)
    requires Opens(s) != Closes(s)
    ensures ExpressionValue(s).Err? && ExpressionValue(s).error.ParseError?
  {
    forall a | Writes(s, a) ensures false {
      WrittenChars(s, a);
    }
    ParseErrorMeaning(s);
  }
}
