/** The parser reads back exactly what a parse tree spells.

    Completeness: a parse tree written with ANY whitespace before each token
    and any trailing whitespace is parsed back to that same tree.
    Soundness: whatever the parser accepts is such a spelling of the tree it
    returns, so input outside the grammar is always rejected. */
module ParserProofs {
  import opened Results
  import opened Syntax
  import opened Parser

  /** `x` occurs in `s` at position `i`.  Stated character by character so
      that the solver unfolds it only as far as a proof needs. */
  predicate At(s: string, i: nat, x: string)
    decreases |x|
  {
    i + |x| <= |s| && (|x| == 0 || (s[i] == x[0] && At(s, i + 1, x[1..])))
  }

  lemma {:induction false} AtSlice(s: string, i: nat, x: string)
    ensures At(s, i, x) <==> i + |x| <= |s| && s[i..i + |x|] == x
    decreases |x|
  {
    if |x| > 0 && i + |x| <= |s| {
      AtSlice(s, i + 1, x[1..]);
      assert s[i..i + |x|] == [s[i]] + s[i + 1..i + |x|];
      if s[i..i + |x|] == x {
        assert x == [x[0]] + x[1..];
      }
    }
  }

  lemma AtIndex(s: string, i: nat, x: string, k: nat)
    requires At(s, i, x) && k < |x|
    ensures i + k < |s| && s[i + k] == x[k]
  {
    AtSlice(s, i, x);
    assert s[i..i + |x|][k] == s[i + k];
  }

  lemma {:induction false} AtConcat(s: string, i: nat, x: string, y: string)
    ensures At(s, i, x + y) <==> At(s, i, x) && At(s, i + |x|, y)
    decreases |x|
  {
    if |x| > 0 {
      assert (x + y)[0] == x[0];
      assert (x + y)[1..] == x[1..] + y;
      AtConcat(s, i + 1, x[1..], y);
    } else {
      assert x + y == y;
    }
  }

  /** Nothing continues the `number` token that ends just before `e`. */
  predicate NumberEnds(s: string, e: nat) {
    !(e < |s| && IsDigit(s[e])) && !(e + 1 < |s| && s[e] == '.' && IsDigit(s[e + 1]))
  }

  /** The next token after `e` is not `*` or `/`. */
  predicate NoMulOpNext(s: string, e: nat)
    requires e <= |s|
  {
    var j := SkipSpace(s, e);
    !(j < |s| && (s[j] == '*' || s[j] == '/'))
  }

  /** The next token after `e` is not `+` or `-`. */
  predicate NoAddOpNext(s: string, e: nat)
    requires e <= |s|
  {
    var j := SkipSpace(s, e);
    !(j < |s| && (s[j] == '+' || s[j] == '-'))
  }

  /** Everything `SkipSpace` passes over is whitespace. */
  lemma {:induction false} SkipSpaceSkipsSpace(s: string, i: nat)
    requires i <= |s|
    ensures forall k :: i <= k < SkipSpace(s, i) ==> IsSpace(s[k])
    decreases |s| - i
  {
    if i < |s| && IsSpace(s[i]) {
      SkipSpaceSkipsSpace(s, i + 1);
    }
  }

  lemma SkipSpaceAt(s: string, i: nat, ws: string)
    requires At(s, i, ws) && AllSpace(ws)
    requires i + |ws| == |s| || !IsSpace(s[i + |ws|])
    ensures SkipSpace(s, i) == i + |ws|
  {
    forall k | i <= k < i + |ws| ensures IsSpace(s[k]) {
      AtIndex(s, i, ws, k - i);
    }
    SkipSpaceSkipsSpace(s, i);
  }

  lemma ScanDigitsAt(s: string, i: nat, ds: string)
    requires At(s, i, ds) && AllDigits(ds)
    requires i + |ds| == |s| || !IsDigit(s[i + |ds|])
    ensures ScanDigits(s, i) == i + |ds|
  {
    var j := ScanDigits(s, i);
    forall k | i <= k < i + |ds| ensures IsDigit(s[k]) {
      AtIndex(s, i, ds, k - i);
    }
    forall k | i <= k < j ensures IsDigit(s[k]) {
      assert s[k] == s[i..j][k - i];
    }
  }

  /** The `number` rule reads a literal's text back to the literal. */
  lemma NumberComplete(s: string, j: nat, l: Literal)
    requires ValidLiteral(l) && At(s, j, LiteralText(l))
    requires NumberEnds(s, j + |LiteralText(l)|)
    ensures ParseNumber(s, j) == Ok((l, j + |LiteralText(l)|))
  {
    var sign := if l.negative then "-" else "";
    var tail := if l.frac == [] then "" else "." + l.frac;
    assert LiteralText(l) == sign + l.whole + tail;
    AtConcat(s, j, sign + l.whole, tail);
    AtConcat(s, j, sign, l.whole);
    var k := j + |sign|;
    AtIndex(s, j, LiteralText(l), 0);
    if l.frac == [] {
      NumberCompleteWhole(s, j, k, l);
    } else {
      assert l.whole + tail == l.whole + "." + l.frac;
      AtConcat(s, k, l.whole, tail);
      NumberCompleteFrac(s, j, k, l);
    }
  }

  /** A literal without a point, whose digits start at `k` after the sign. */
  lemma NumberCompleteWhole(s: string, j: nat, k: nat, l: Literal)
    requires ValidLiteral(l) && l.frac == [] && At(s, k, l.whole)
    requires k == if j < |s| && s[j] == '-' then j + 1 else j
    requires l.negative == (k > j)
    requires NumberEnds(s, k + |l.whole|)
    ensures ParseNumber(s, j) == Ok((l, k + |l.whole|))
  {
    ScanDigitsAt(s, k, l.whole);
    AtSlice(s, k, l.whole);
    var d := k + |l.whole|;
    assert l == Literal(k > j, s[k..d], []);
    NumberStepWhole(s, j, k, d);
  }

  /** A literal with a point, whose digits start at `k` after the sign. */
  lemma NumberCompleteFrac(s: string, j: nat, k: nat, l: Literal)
    requires ValidLiteral(l) && l.frac != [] && At(s, k, l.whole) && At(s, k + |l.whole|, "." + l.frac)
    requires k == if j < |s| && s[j] == '-' then j + 1 else j
    requires l.negative == (k > j)
    requires NumberEnds(s, k + |l.whole| + 1 + |l.frac|)
    ensures ParseNumber(s, j) == Ok((l, k + |l.whole| + 1 + |l.frac|))
  {
    var d := k + |l.whole|;
    var e := d + 1 + |l.frac|;
    FracScans(s, k, l);
    FracSlices(s, k, l);
    NumberStepFrac(s, j, k, d, e);
  }

  /** How the scans of `ParseNumber` run over a literal with a fraction. */
  lemma FracScans(s: string, k: nat, l: Literal)
    requires ValidLiteral(l) && l.frac != [] && At(s, k, l.whole) && At(s, k + |l.whole|, "." + l.frac)
    requires NumberEnds(s, k + |l.whole| + 1 + |l.frac|)
    ensures var d := k + |l.whole|;
      ScanDigits(s, k) == d && d + 1 < |s| && s[d] == '.' && IsDigit(s[d + 1])
      && ScanDigits(s, d + 1) == d + 1 + |l.frac|
  {
    var d := k + |l.whole|;
    AtConcat(s, d, ".", l.frac);
    AtIndex(s, d, ".", 0);
    ScanDigitsAt(s, k, l.whole);
    AtIndex(s, d + 1, l.frac, 0);
    ScanDigitsAt(s, d + 1, l.frac);
  }

  lemma FracSlices(s: string, k: nat, l: Literal)
    requires At(s, k, l.whole) && At(s, k + |l.whole|, "." + l.frac)
    ensures k + |l.whole| + 1 + |l.frac| <= |s|
    ensures s[k..k + |l.whole|] == l.whole
    ensures s[k + |l.whole| + 1..k + |l.whole| + 1 + |l.frac|] == l.frac
  {
    AtConcat(s, k + |l.whole|, ".", l.frac);
    AtSlice(s, k, l.whole);
    AtSlice(s, k + |l.whole| + 1, l.frac);
  }

  /* The two successful paths through `ParseNumber`, on plain positions. */

  lemma NumberStepWhole(s: string, j: nat, k: nat, d: nat)
    requires j <= |s| && k == (if j < |s| && s[j] == '-' then j + 1 else j)
    requires ScanDigits(s, k) == d && d > k
    requires !(d + 1 < |s| && s[d] == '.' && IsDigit(s[d + 1]))
    ensures ParseNumber(s, j) == Ok((Literal(k > j, s[k..d], []), d))
  {
  }

  lemma NumberStepFrac(s: string, j: nat, k: nat, d: nat, e: nat)
    requires j <= |s| && k == (if j < |s| && s[j] == '-' then j + 1 else j)
    requires ScanDigits(s, k) == d && d > k && d + 1 < |s| && s[d] == '.' && IsDigit(s[d + 1])
    requires ScanDigits(s, d + 1) == e
    ensures ParseNumber(s, j) == Ok((Literal(k > j, s[k..d], s[d + 1..e]), e))
  {
  }

  lemma {:induction false} SpellAppend(t1: seq<Token>, w1: seq<string>, t2: seq<Token>, w2: seq<string>)
    requires |w1| == |t1| && |w2| == |t2|
    ensures Spell(t1 + t2, w1 + w2) == Spell(t1, w1) + Spell(t2, w2)
    decreases |t1|
  {
    if t1 == [] {
      assert t1 + t2 == t2 && w1 + w2 == w2;
    } else {
      assert (t1 + t2)[1..] == t1[1..] + t2;
      assert (w1 + w2)[1..] == w1[1..] + w2;
      SpellAppend(t1[1..], w1[1..], t2, w2);
    }
  }

  /** `s` holds, from `i` to `e`, the tokens `toks` each preceded by its
      whitespace from the layout `w`. */
  predicate Spells(s: string, i: nat, toks: seq<Token>, w: seq<string>, e: nat) {
    IsLayout(w, |toks|) && At(s, i, Spell(toks, w)) && e == i + |Spell(toks, w)|
  }

  lemma SuffixCons<T>(xs: seq<T>, k: nat)
    requires k < |xs|
    ensures xs[k..] == [xs[k]] + xs[k + 1..]
  {
  }

  lemma SpellsBounds(s: string, i: nat, toks: seq<Token>, w: seq<string>, e: nat)
    requires Spells(s, i, toks, w, e)
    ensures i <= e <= |s|
  {
  }

  lemma LayoutParts(w: seq<string>, n: nat, a: nat)
    requires IsLayout(w, n) && a <= n
    ensures IsLayout(w[..a], a) && IsLayout(w[a..], n - a)
  {
    forall k | 0 <= k < a ensures AllSpace(w[..a][k]) {
      assert w[..a][k] == w[k];
    }
    forall k | 0 <= k < n - a ensures AllSpace(w[a..][k]) {
      assert w[a..][k] == w[a + k];
    }
  }

  /** A spelling of `t1 + t2` is a spelling of `t1` followed by one of `t2`. */
  lemma SpellsSplit(s: string, i: nat, t1: seq<Token>, t2: seq<Token>, w: seq<string>, e: nat)
    returns (w1: seq<string>, w2: seq<string>, mid: nat)
    requires Spells(s, i, t1 + t2, w, e)
    ensures Spells(s, i, t1, w1, mid) && Spells(s, mid, t2, w2, e)
  {
    w1, w2 := w[..|t1|], w[|t1|..];
    assert w == w1 + w2;
    LayoutParts(w, |t1| + |t2|, |t1|);
    SpellAppend(t1, w1, t2, w2);
    AtConcat(s, i, Spell(t1, w1), Spell(t2, w2));
    mid := i + |Spell(t1, w1)|;
  }

  /** An operator or a parenthesis, after its whitespace: `SkipSpace` stops
      on it, and a `number` token just before it has ended. */
  lemma SymbolFacts(s: string, i: nat, t: Token, w: seq<string>, e: nat)
    requires !t.NumTok? && Spells(s, i, [t], w, e)
    ensures SkipSpace(s, i) < |s| && s[SkipSpace(s, i)] == TokenText(t)[0]
    ensures e == SkipSpace(s, i) + 1 && NumberEnds(s, i)
  {
    var x := TokenText(t);
    assert |x| == 1 && !IsSpace(x[0]) && !IsDigit(x[0]) && x[0] != '.';
    assert Spell([t], w) == w[0] + x;
    AtConcat(s, i, w[0], x);
    AtIndex(s, i + |w[0]|, x, 0);
    SkipSpaceAt(s, i, w[0]);
    if |w[0]| > 0 {
      AtIndex(s, i, w[0], 0);
    }
  }

  /** The same facts where a longer run starts with an operator or a parenthesis. */
  lemma HeadFacts(s: string, i: nat, toks: seq<Token>, w: seq<string>, e: nat)
    requires |toks| > 0 && !toks[0].NumTok? && Spells(s, i, toks, w, e)
    ensures SkipSpace(s, i) < |s| && s[SkipSpace(s, i)] == TokenText(toks[0])[0]
    ensures NumberEnds(s, i)
  {
    assert toks == [toks[0]] + toks[1..];
    var w1, w2, mid := SpellsSplit(s, i, [toks[0]], toks[1..], w, e);
    SymbolFacts(s, i, toks[0], w1, mid);
  }

  /** A `number` token, after its whitespace. */
  lemma NumberTokenFacts(s: string, i: nat, l: Literal, w: seq<string>, e: nat)
    requires ValidLiteral(l) && Spells(s, i, [NumTok(l)], w, e)
    ensures SkipSpace(s, i) < |s| && s[SkipSpace(s, i)] != '('
    ensures At(s, SkipSpace(s, i), LiteralText(l)) && e == SkipSpace(s, i) + |LiteralText(l)|
  {
    var x := LiteralText(l);
    SingleSpells(s, i, NumTok(l), w, e);
    LiteralHead(l);
    AtIndex(s, i + |w[0]|, x, 0);
    SkipSpaceAt(s, i, w[0]);
  }

  /** The spelling of one token: its whitespace, then its text. */
  lemma SingleSpells(s: string, i: nat, t: Token, w: seq<string>, e: nat)
    requires Spells(s, i, [t], w, e)
    ensures |w| == 1 && AllSpace(w[0]) && At(s, i, w[0]) && At(s, i + |w[0]|, TokenText(t))
    ensures e == i + |w[0]| + |TokenText(t)|
  {
    assert Spell([t], w) == w[0] + TokenText(t);
    AtConcat(s, i, w[0], TokenText(t));
  }

  /** A literal's text starts with a minus sign or a digit. */
  lemma LiteralHead(l: Literal)
    requires ValidLiteral(l)
    ensures |LiteralText(l)| > 0 && (LiteralText(l)[0] == '-' || IsDigit(LiteralText(l)[0]))
  {
  }

  /* One step of each parsing function, stated on plain positions so that the
     completeness proofs below never unfold the parser themselves. */

  lemma ParenStep(s: string, i: nat, a: Additive, c: nat)
    requires i <= |s| && SkipSpace(s, i) < |s| && s[SkipSpace(s, i)] == '('
    requires ParseAdditive(s, SkipSpace(s, i) + 1) == Ok((a, c))
    requires SkipSpace(s, c) < |s| && s[SkipSpace(s, c)] == ')'
    ensures ParsePrimary(s, i) == Ok((Paren(a), SkipSpace(s, c) + 1))
  {
  }

  lemma NumberStep(s: string, i: nat, j: nat, l: Literal, e: nat)
    requires i <= |s| && j == SkipSpace(s, i) && !(j < |s| && s[j] == '(')
    requires ParseNumber(s, j) == Ok((l, e))
    ensures ParsePrimary(s, i) == Ok((Num(l), e))
  {
  }

  lemma MultiplicativeStep(s: string, i: nat, p: Primary, j: nat, rest: seq<(MulOp, Primary)>, k: nat)
    requires i <= |s| && ParsePrimary(s, i) == Ok((p, j)) && ParseMulRest(s, j) == Ok((rest, k))
    ensures ParseMultiplicative(s, i) == Ok((Multiplicative(p, rest), k))
  {
  }

  lemma MulRestStep(s: string, i: nat, op: MulOp, p: Primary, e1: nat, rest: seq<(MulOp, Primary)>, e2: nat)
    requires i <= |s| && SkipSpace(s, i) < |s| && s[SkipSpace(s, i)] == TokenText(MulOpToken(op))[0]
    requires ParsePrimary(s, SkipSpace(s, i) + 1) == Ok((p, e1))
    requires e1 <= |s| && ParseMulRest(s, e1) == Ok((rest, e2))
    ensures ParseMulRest(s, i) == Ok(([(op, p)] + rest, e2))
  {
  }

  lemma MulRestStop(s: string, i: nat)
    requires i <= |s| && NoMulOpNext(s, i)
    ensures ParseMulRest(s, i) == Ok(([], i))
  {
  }

  lemma AdditiveStep(s: string, i: nat, m: Multiplicative, j: nat, rest: seq<(AddOp, Multiplicative)>, k: nat)
    requires i <= |s| && ParseMultiplicative(s, i) == Ok((m, j)) && ParseAddRest(s, j) == Ok((rest, k))
    ensures ParseAdditive(s, i) == Ok((Additive(m, rest), k))
  {
  }

  lemma AddRestStep(s: string, i: nat, op: AddOp, m: Multiplicative, e1: nat, rest: seq<(AddOp, Multiplicative)>, e2: nat)
    requires i <= |s| && SkipSpace(s, i) < |s| && s[SkipSpace(s, i)] == TokenText(AddOpToken(op))[0]
    requires ParseMultiplicative(s, SkipSpace(s, i) + 1) == Ok((m, e1))
    requires e1 <= |s| && ParseAddRest(s, e1) == Ok((rest, e2))
    ensures ParseAddRest(s, i) == Ok(([(op, m)] + rest, e2))
  {
  }

  lemma AddRestStop(s: string, i: nat)
    requires i <= |s| && NoAddOpNext(s, i)
    ensures ParseAddRest(s, i) == Ok(([], i))
  {
  }

  lemma NumComplete(s: string, i: nat, l: Literal, w: seq<string>, e: nat)
    requires ValidLiteral(l) && Spells(s, i, [NumTok(l)], w, e) && NumberEnds(s, e)
    ensures ParsePrimary(s, i) == Ok((Num(l), e))
  {
    NumberTokenFacts(s, i, l, w, e);
    NumberPrimary(s, i, SkipSpace(s, i), l, e);
  }

  /** A literal's text after whitespace, not continued by digits, is read as a `primary`. */
  lemma NumberPrimary(s: string, i: nat, j: nat, l: Literal, e: nat)
    requires i <= |s| && j == SkipSpace(s, i) && !(j < |s| && s[j] == '(')
    requires ValidLiteral(l) && At(s, j, LiteralText(l)) && e == j + |LiteralText(l)| && NumberEnds(s, e)
    ensures ParsePrimary(s, i) == Ok((Num(l), e))
  {
    NumberComplete(s, j, l);
    NumberStep(s, i, j, l, e);
  }

  lemma {:induction false} PrimaryComplete(s: string, i: nat, p: Primary, w: seq<string>, e: nat)
    requires ValidPrimary(p) && Spells(s, i, PrimaryTokens(p), w, e) && NumberEnds(s, e)
    ensures ParsePrimary(s, i) == Ok((p, e))
    decreases p, 0
  {
    match p
    case Num(l) =>
      NumComplete(s, i, l, w, e);
    case Paren(a) =>
      var at := AdditiveTokens(a);
      assert PrimaryTokens(p) == [OpenTok] + (at + [CloseTok]);
      var w1, w2, c1 := SpellsSplit(s, i, [OpenTok], at + [CloseTok], w, e);
      SymbolFacts(s, i, OpenTok, w1, c1);
      var wa, wc, c := SpellsSplit(s, c1, at, [CloseTok], w2, e);
      SymbolFacts(s, c, CloseTok, wc, e);
      AdditiveComplete(s, c1, a, wa, c);
      ParenStep(s, i, a, c);
  }

  lemma {:induction false} MultiplicativeComplete(s: string, i: nat, m: Multiplicative, w: seq<string>, e: nat)
    requires ValidMultiplicative(m) && Spells(s, i, MultiplicativeTokens(m), w, e)
    requires NumberEnds(s, e) && NoMulOpNext(s, e)
    ensures ParseMultiplicative(s, i) == Ok((m, e))
    decreases m, |m.rest| + 1
  {
    var rt := MulRestTokens(m, 0);
    var wp, wr, e1 := SpellsSplit(s, i, PrimaryTokens(m.first), rt, w, e);
    if |m.rest| > 0 {
      assert rt[0] == MulOpToken(m.rest[0].0);
      HeadFacts(s, e1, rt, wr, e);
    }
    PrimaryComplete(s, i, m.first, wp, e1);
    MulRestComplete(s, e1, m, 0, wr, e);
    assert m.rest[0..] == m.rest;
    MultiplicativeStep(s, i, m.first, e1, m.rest, e);
  }

  /** Where the operator `m.rest[k].0`, its operand and the run after it sit. */
  lemma SplitMulRest(s: string, i: nat, m: Multiplicative, k: nat, w: seq<string>, e: nat)
    returns (j1: nat, wp: seq<string>, e1: nat, wr: seq<string>)
    requires k < |m.rest| && Spells(s, i, MulRestTokens(m, k), w, e) && NumberEnds(s, e)
    ensures SkipSpace(s, i) < |s| && s[SkipSpace(s, i)] == TokenText(MulOpToken(m.rest[k].0))[0]
    ensures j1 == SkipSpace(s, i) + 1
    ensures Spells(s, j1, PrimaryTokens(m.rest[k].1), wp, e1) && NumberEnds(s, e1)
    ensures Spells(s, e1, MulRestTokens(m, k + 1), wr, e)
    ensures j1 <= e1 <= e <= |s|
  {
    var op, p := m.rest[k].0, m.rest[k].1;
    var pt, rt := PrimaryTokens(p), MulRestTokens(m, k + 1);
    assert MulRestTokens(m, k) == [MulOpToken(op)] + (pt + rt);
    var w1, w2, j := SpellsSplit(s, i, [MulOpToken(op)], pt + rt, w, e);
    SymbolFacts(s, i, MulOpToken(op), w1, j);
    j1 := j;
    wp, wr, e1 := SpellsSplit(s, j1, pt, rt, w2, e);
    if k + 1 < |m.rest| {
      assert rt[0] == MulOpToken(m.rest[k + 1].0);
      HeadFacts(s, e1, rt, wr, e);
    } else {
      assert rt == [] && Spell([], wr) == [];
    }
    SpellsBounds(s, j1, pt, wp, e1);
    SpellsBounds(s, e1, rt, wr, e);
  }

  lemma {:induction false} MulRestComplete(s: string, i: nat, m: Multiplicative, k: nat, w: seq<string>, e: nat)
    requires ValidMultiplicative(m) && k <= |m.rest| && Spells(s, i, MulRestTokens(m, k), w, e)
    requires NumberEnds(s, e) && NoMulOpNext(s, e)
    ensures ParseMulRest(s, i) == Ok((m.rest[k..], e))
    decreases m, |m.rest| - k
  {
    if k < |m.rest| {
      var op, p := m.rest[k].0, m.rest[k].1;
      var j1, wp, e1, wr := SplitMulRest(s, i, m, k, w, e);
      PrimaryComplete(s, j1, p, wp, e1);
      MulRestComplete(s, e1, m, k + 1, wr, e);
      SuffixCons(m.rest, k);
      MulRestStep(s, i, op, p, e1, m.rest[k + 1..], e);
    } else {
      assert MulRestTokens(m, k) == [] && Spell([], w) == [];
      assert e == i && m.rest[k..] == [];
      MulRestStop(s, i);
    }
  }

  lemma {:induction false} AdditiveComplete(s: string, i: nat, a: Additive, w: seq<string>, e: nat)
    requires ValidAdditive(a) && Spells(s, i, AdditiveTokens(a), w, e)
    requires NumberEnds(s, e) && NoMulOpNext(s, e) && NoAddOpNext(s, e)
    ensures ParseAdditive(s, i) == Ok((a, e))
    decreases a, |a.rest| + 1
  {
    var rt := AddRestTokens(a, 0);
    var wm, wr, e1 := SpellsSplit(s, i, MultiplicativeTokens(a.first), rt, w, e);
    if |a.rest| > 0 {
      assert rt[0] == AddOpToken(a.rest[0].0);
      HeadFacts(s, e1, rt, wr, e);
    }
    MultiplicativeComplete(s, i, a.first, wm, e1);
    AddRestComplete(s, e1, a, 0, wr, e);
    assert a.rest[0..] == a.rest;
    AdditiveStep(s, i, a.first, e1, a.rest, e);
  }

  /** Where the operator `a.rest[k].0`, its operand and the run after it sit. */
  lemma SplitAddRest(s: string, i: nat, a: Additive, k: nat, w: seq<string>, e: nat)
    returns (j1: nat, wm: seq<string>, e1: nat, wr: seq<string>)
    requires k < |a.rest| && Spells(s, i, AddRestTokens(a, k), w, e) && NumberEnds(s, e) && NoMulOpNext(s, e)
    ensures SkipSpace(s, i) < |s| && s[SkipSpace(s, i)] == TokenText(AddOpToken(a.rest[k].0))[0]
    ensures j1 == SkipSpace(s, i) + 1
    ensures Spells(s, j1, MultiplicativeTokens(a.rest[k].1), wm, e1) && NumberEnds(s, e1) && NoMulOpNext(s, e1)
    ensures Spells(s, e1, AddRestTokens(a, k + 1), wr, e)
    ensures j1 <= e1 <= e <= |s|
  {
    var op, m := a.rest[k].0, a.rest[k].1;
    var pt, rt := MultiplicativeTokens(m), AddRestTokens(a, k + 1);
    assert AddRestTokens(a, k) == [AddOpToken(op)] + (pt + rt);
    var w1, w2, j := SpellsSplit(s, i, [AddOpToken(op)], pt + rt, w, e);
    SymbolFacts(s, i, AddOpToken(op), w1, j);
    j1 := j;
    wm, wr, e1 := SpellsSplit(s, j1, pt, rt, w2, e);
    if k + 1 < |a.rest| {
      assert rt[0] == AddOpToken(a.rest[k + 1].0);
      HeadFacts(s, e1, rt, wr, e);
    } else {
      assert rt == [] && Spell([], wr) == [];
    }
    SpellsBounds(s, j1, pt, wm, e1);
    SpellsBounds(s, e1, rt, wr, e);
  }

  lemma {:induction false} AddRestComplete(s: string, i: nat, a: Additive, k: nat, w: seq<string>, e: nat)
    requires ValidAdditive(a) && k <= |a.rest| && Spells(s, i, AddRestTokens(a, k), w, e)
    requires NumberEnds(s, e) && NoMulOpNext(s, e) && NoAddOpNext(s, e)
    ensures ParseAddRest(s, i) == Ok((a.rest[k..], e))
    decreases a, |a.rest| - k
  {
    if k < |a.rest| {
      var op, m := a.rest[k].0, a.rest[k].1;
      var j1, wm, e1, wr := SplitAddRest(s, i, a, k, w, e);
      MultiplicativeComplete(s, j1, m, wm, e1);
      AddRestComplete(s, e1, a, k + 1, wr, e);
      SuffixCons(a.rest, k);
      AddRestStep(s, i, op, m, e1, a.rest[k + 1..], e);
    } else {
      assert AddRestTokens(a, k) == [] && Spell([], w) == [];
      assert e == i && a.rest[k..] == [];
      AddRestStop(s, i);
    }
  }
}
