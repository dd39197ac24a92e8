/** Soundness of the parser: whatever it accepts is the spelling of the tree
    it returns, with whitespace before each token and at the end, and
    together with completeness this makes `ParseExpr` a decoder for `Spell`. */
module ParserSoundness {
  import opened Results
  import opened Syntax
  import opened Parser
  import opened ParserProofs

  /** Two adjacent spellings make one spelling of both token runs. */
  lemma SpellsJoin(s: string, i: nat, t1: seq<Token>, w1: seq<string>, mid: nat, t2: seq<Token>, w2: seq<string>, e: nat)
    requires Spells(s, i, t1, w1, mid) && Spells(s, mid, t2, w2, e)
    ensures Spells(s, i, t1 + t2, w1 + w2, e)
  {
    SpellAppend(t1, w1, t2, w2);
    AtConcat(s, i, Spell(t1, w1), Spell(t2, w2));
    forall k | 0 <= k < |t1| + |t2| ensures AllSpace((w1 + w2)[k]) {
      if k < |w1| {
        assert (w1 + w2)[k] == w1[k];
      } else {
        assert (w1 + w2)[k] == w2[k - |w1|];
      }
    }
  }


  lemma SpellsEmpty(s: string, i: nat)
    requires i <= |s|
    ensures Spells(s, i, [], [], i)
  {
  }

  /** The whitespace `SkipSpace` passes over, as it stands in `s`. */
  lemma SpaceRun(s: string, i: nat)
    requires i <= |s|
    ensures AllSpace(s[i..SkipSpace(s, i)]) && At(s, i, s[i..SkipSpace(s, i)])
  {
    var j := SkipSpace(s, i);
    SkipSpaceSkipsSpace(s, i);
    forall k | 0 <= k < j - i ensures IsSpace(s[i..j][k]) {
      assert s[i..j][k] == s[i + k];
    }
    AtSlice(s, i, s[i..j]);
  }

  /** An operator or a parenthesis the parser reads after skipping whitespace. */
  lemma SymbolSpells(s: string, i: nat, t: Token)
    requires i <= |s| && !t.NumTok? && SkipSpace(s, i) < |s| && s[SkipSpace(s, i)] == TokenText(t)[0]
    ensures Spells(s, i, [t], [s[i..SkipSpace(s, i)]], SkipSpace(s, i) + 1)
  {
    var j := SkipSpace(s, i);
    var ws, x := s[i..j], TokenText(t);
    SpaceRun(s, i);
    assert x == [s[j]];
    AtSlice(s, j, x);
    AtConcat(s, i, ws, x);
    assert Spell([t], [ws]) == ws + x;
  }

  /** The text of the literal `ParseNumber` reads with a fraction. */
  lemma NumberSoundFrac(s: string, j: nat, k: nat, d: nat, e: nat)
    requires j <= |s| && k == (if j < |s| && s[j] == '-' then j + 1 else j)
    requires ScanDigits(s, k) == d && d > k && d + 1 < |s| && s[d] == '.' && IsDigit(s[d + 1])
    requires ScanDigits(s, d + 1) == e
    ensures At(s, j, LiteralText(Literal(k > j, s[k..d], s[d + 1..e])))
    ensures e == j + |LiteralText(Literal(k > j, s[k..d], s[d + 1..e]))|
  {
    var sign := if k > j then "-" else "";
    var l := Literal(k > j, s[k..d], s[d + 1..e]);
    assert s[j..k] == sign;
    assert e > d + 1;
    SlicePieces(s, j, k, d, e);
    assert LiteralText(l) == s[j..e];
    AtSlice(s, j, LiteralText(l));
  }

  lemma SlicePieces(s: string, j: nat, k: nat, d: nat, e: nat)
    requires j <= k <= d < e <= |s|
    ensures s[j..e] == s[j..k] + s[k..d] + ([s[d]] + s[d + 1..e])
  {
  }

  /** The text of the literal `ParseNumber` reads without a fraction. */
  lemma NumberSoundWhole(s: string, j: nat, k: nat, d: nat)
    requires j <= |s| && k == (if j < |s| && s[j] == '-' then j + 1 else j)
    requires ScanDigits(s, k) == d && d > k
    ensures At(s, j, LiteralText(Literal(k > j, s[k..d], [])))
    ensures d == j + |LiteralText(Literal(k > j, s[k..d], []))|
  {
    var sign := if k > j then "-" else "";
    var l := Literal(k > j, s[k..d], []);
    assert s[j..k] == sign;
    assert LiteralText(l) == sign + s[k..d] + "";
    assert s[j..d] == s[j..k] + s[k..d];
    AtSlice(s, j, LiteralText(l));
  }

  /** A literal `ParseNumber` accepts is spelled exactly where it was read. */
  lemma NumberSound(s: string, j: nat, l: Literal, e: nat)
    requires j <= |s| && ParseNumber(s, j) == Ok((l, e))
    ensures At(s, j, LiteralText(l)) && e == j + |LiteralText(l)|
  {
    var k := if j < |s| && s[j] == '-' then j + 1 else j;
    var d := ScanDigits(s, k);
    if d + 1 < |s| && s[d] == '.' && IsDigit(s[d + 1]) {
      var e := ScanDigits(s, d + 1);
      NumberStepFrac(s, j, k, d, e);
      NumberSoundFrac(s, j, k, d, e);
    } else {
      NumberStepWhole(s, j, k, d);
      NumberSoundWhole(s, j, k, d);
    }
  }

  /* Assembling the spelling of one grammar step from its parts; these
     steps mention no parsing function. */

  /** An operator or parenthesis the parser reads after skipping
      whitespace, followed by a spelling, is a spelling of both. */
  lemma SymbolJoin(s: string, i: nat, t: Token, j: nat, xs: seq<Token>, wx: seq<string>, k: nat)
    requires i <= |s| && !t.NumTok? && j == SkipSpace(s, i) && j < |s| && s[j] == TokenText(t)[0]
    requires Spells(s, j + 1, xs, wx, k)
    ensures Spells(s, i, [t] + xs, [s[i..j]] + wx, k)
  {
    SymbolSpells(s, i, t);
    SpellsJoin(s, i, [t], [s[i..j]], j + 1, xs, wx, k);
  }

  lemma ParenJoin(s: string, i: nat, a: Additive, j: nat, c: nat, e: nat, wa: seq<string>)
    requires i <= |s| && j == SkipSpace(s, i) && j < |s| && s[j] == '('
    requires Spells(s, j + 1, AdditiveTokens(a), wa, c)
    requires SkipSpace(s, c) < |s| && s[SkipSpace(s, c)] == ')' && e == SkipSpace(s, c) + 1
    ensures Spells(s, i, PrimaryTokens(Paren(a)), [s[i..j]] + wa + [s[c..SkipSpace(s, c)]], e)
  {
    SymbolJoin(s, i, OpenTok, j, AdditiveTokens(a), wa, c);
    CloseJoin(s, i, [OpenTok] + AdditiveTokens(a), [s[i..j]] + wa, c);
  }

  /** A spelling followed by a closing parenthesis. */
  lemma CloseJoin(s: string, i: nat, xs: seq<Token>, wx: seq<string>, c: nat)
    requires Spells(s, i, xs, wx, c) && c <= |s|
    requires SkipSpace(s, c) < |s| && s[SkipSpace(s, c)] == ')'
    ensures Spells(s, i, xs + [CloseTok], wx + [s[c..SkipSpace(s, c)]], SkipSpace(s, c) + 1)
  {
    SymbolSpells(s, c, CloseTok);
    SpellsJoin(s, i, xs, wx, c, [CloseTok], [s[c..SkipSpace(s, c)]], SkipSpace(s, c) + 1);
  }

  lemma MulRestJoin(s: string, i: nat, m: Multiplicative, k: nat, j: nat, k1: nat, e: nat, wp: seq<string>, wr: seq<string>)
    requires i <= |s| && k < |m.rest| && j == SkipSpace(s, i) && j < |s| && s[j] == TokenText(MulOpToken(m.rest[k].0))[0]
    requires Spells(s, j + 1, PrimaryTokens(m.rest[k].1), wp, k1) && Spells(s, k1, MulRestTokens(m, k + 1), wr, e)
    ensures Spells(s, i, MulRestTokens(m, k), [s[i..j]] + wp + wr, e)
  {
    var t := MulOpToken(m.rest[k].0);
    SymbolJoin(s, i, t, j, PrimaryTokens(m.rest[k].1), wp, k1);
    SpellsJoin(s, i, [t] + PrimaryTokens(m.rest[k].1), [s[i..j]] + wp, k1, MulRestTokens(m, k + 1), wr, e);
  }

  lemma AddRestJoin(s: string, i: nat, a: Additive, k: nat, j: nat, k1: nat, e: nat, wm: seq<string>, wr: seq<string>)
    requires i <= |s| && k < |a.rest| && j == SkipSpace(s, i) && j < |s| && s[j] == TokenText(AddOpToken(a.rest[k].0))[0]
    requires Spells(s, j + 1, MultiplicativeTokens(a.rest[k].1), wm, k1) && Spells(s, k1, AddRestTokens(a, k + 1), wr, e)
    ensures Spells(s, i, AddRestTokens(a, k), [s[i..j]] + wm + wr, e)
  {
    var t := AddOpToken(a.rest[k].0);
    SymbolJoin(s, i, t, j, MultiplicativeTokens(a.rest[k].1), wm, k1);
    SpellsJoin(s, i, [t] + MultiplicativeTokens(a.rest[k].1), [s[i..j]] + wm, k1, AddRestTokens(a, k + 1), wr, e);
  }

  /* What each parsing function did when it succeeded, on plain positions. */

  /** The first element of a suffix, and the suffix after it. */
  lemma SliceStep<T>(xs: seq<T>, k: nat)
    requires k < |xs|
    ensures xs[k..][0] == xs[k] && xs[k..][1..] == xs[k + 1..]
  {
  }

  lemma ParenInv(s: string, i: nat, a: Additive, e: nat) returns (j: nat, c: nat)
    requires i <= |s| && ParsePrimary(s, i) == Ok((Paren(a), e))
    ensures j == SkipSpace(s, i) && j < |s| && s[j] == '(' && ParseAdditive(s, j + 1) == Ok((a, c))
    ensures SkipSpace(s, c) < |s| && s[SkipSpace(s, c)] == ')' && e == SkipSpace(s, c) + 1
  {
    j := SkipSpace(s, i);
    c := ParseAdditive(s, j + 1).value.1;
  }

  lemma NumInv(s: string, i: nat, l: Literal, e: nat)
    requires i <= |s| && ParsePrimary(s, i) == Ok((Num(l), e))
    ensures ParseNumber(s, SkipSpace(s, i)) == Ok((l, e))
  {
  }

  lemma MultiplicativeInv(s: string, i: nat, m: Multiplicative, e: nat) returns (j: nat)
    requires i <= |s| && ParseMultiplicative(s, i) == Ok((m, e))
    ensures i < j <= |s| && ParsePrimary(s, i) == Ok((m.first, j)) && ParseMulRest(s, j) == Ok((m.rest, e))
  {
    j := ParsePrimary(s, i).value.1;
  }

  lemma MulRestNone(s: string, i: nat, e: nat)
    requires i <= |s| && ParseMulRest(s, i) == Ok(([], e))
    ensures e == i
  {
  }

  lemma MulRestInv(s: string, i: nat, r: seq<(MulOp, Primary)>, e: nat) returns (j: nat, k1: nat)
    requires i <= |s| && ParseMulRest(s, i) == Ok((r, e)) && r != []
    ensures j == SkipSpace(s, i) && j < |s| && s[j] == TokenText(MulOpToken(r[0].0))[0]
    ensures ParsePrimary(s, j + 1) == Ok((r[0].1, k1)) && j + 1 < k1 <= |s| && ParseMulRest(s, k1) == Ok((r[1..], e))
  {
    j := SkipSpace(s, i);
    k1 := ParsePrimary(s, j + 1).value.1;
  }

  lemma AdditiveInv(s: string, i: nat, a: Additive, e: nat) returns (j: nat)
    requires i <= |s| && ParseAdditive(s, i) == Ok((a, e))
    ensures i < j <= |s| && ParseMultiplicative(s, i) == Ok((a.first, j)) && ParseAddRest(s, j) == Ok((a.rest, e))
  {
    j := ParseMultiplicative(s, i).value.1;
  }

  lemma AddRestNone(s: string, i: nat, e: nat)
    requires i <= |s| && ParseAddRest(s, i) == Ok(([], e))
    ensures e == i
  {
  }

  lemma AddRestInv(s: string, i: nat, r: seq<(AddOp, Multiplicative)>, e: nat) returns (j: nat, k1: nat)
    requires i <= |s| && ParseAddRest(s, i) == Ok((r, e)) && r != []
    ensures j == SkipSpace(s, i) && j < |s| && s[j] == TokenText(AddOpToken(r[0].0))[0]
    ensures ParseMultiplicative(s, j + 1) == Ok((r[0].1, k1)) && j + 1 < k1 <= |s| && ParseAddRest(s, k1) == Ok((r[1..], e))
  {
    j := SkipSpace(s, i);
    k1 := ParseMultiplicative(s, j + 1).value.1;
  }

  /** A number token the parser reads after skipping whitespace. */
  lemma NumberSpells(s: string, i: nat, l: Literal, e: nat)
    requires i <= |s| && At(s, SkipSpace(s, i), LiteralText(l)) && e == SkipSpace(s, i) + |LiteralText(l)|
    ensures Spells(s, i, [NumTok(l)], [s[i..SkipSpace(s, i)]], e)
  {
    var j := SkipSpace(s, i);
    SpaceRun(s, i);
    AtConcat(s, i, s[i..j], LiteralText(l));
    assert Spell([NumTok(l)], [s[i..j]]) == s[i..j] + LiteralText(l);
  }
  lemma {:induction false} PrimarySound(s: string, i: nat, p: Primary, e: nat) returns (w: seq<string>)
    requires i <= |s| && ParsePrimary(s, i) == Ok((p, e))
    ensures Spells(s, i, PrimaryTokens(p), w, e)
    decreases |s| - i, 0
  {
    match p
    case Paren(a) =>
      var j, c := ParenInv(s, i, a, e);
      var wa := AdditiveSound(s, j + 1, a, c);
      ParenJoin(s, i, a, j, c, e, wa);
      w := [s[i..j]] + wa + [s[c..SkipSpace(s, c)]];
    case Num(l) =>
      NumInv(s, i, l, e);
      NumberSound(s, SkipSpace(s, i), l, e);
      NumberSpells(s, i, l, e);
      w := [s[i..SkipSpace(s, i)]];
  }

  lemma {:induction false} MultiplicativeSound(s: string, i: nat, m: Multiplicative, e: nat) returns (w: seq<string>)
    requires i <= |s| && ParseMultiplicative(s, i) == Ok((m, e))
    ensures Spells(s, i, MultiplicativeTokens(m), w, e)
    decreases |s| - i, 1
  {
    var j := MultiplicativeInv(s, i, m, e);
    var wp := PrimarySound(s, i, m.first, j);
    assert m.rest[0..] == m.rest;
    var wr := MulRestSound(s, j, m, 0, e);
    SpellsJoin(s, i, PrimaryTokens(m.first), wp, j, MulRestTokens(m, 0), wr, e);
    w := wp + wr;
  }

  lemma {:induction false} MulRestSound(s: string, i: nat, m: Multiplicative, k: nat, e: nat) returns (w: seq<string>)
    requires i <= |s| && k <= |m.rest| && ParseMulRest(s, i) == Ok((m.rest[k..], e))
    ensures Spells(s, i, MulRestTokens(m, k), w, e)
    decreases |s| - i, 1
  {
    if k == |m.rest| {
      assert m.rest[k..] == [];
      MulRestNone(s, i, e);
      SpellsEmpty(s, i);
      w := [];
    } else {
      var j, k1 := MulRestInv(s, i, m.rest[k..], e);
      SliceStep(m.rest, k);
      var wp := PrimarySound(s, j + 1, m.rest[k].1, k1);
      var wr := MulRestSound(s, k1, m, k + 1, e);
      MulRestJoin(s, i, m, k, j, k1, e, wp, wr);
      w := [s[i..j]] + wp + wr;
    }
  }

  lemma {:induction false} AdditiveSound(s: string, i: nat, a: Additive, e: nat) returns (w: seq<string>)
    requires i <= |s| && ParseAdditive(s, i) == Ok((a, e))
    ensures Spells(s, i, AdditiveTokens(a), w, e)
    decreases |s| - i, 2
  {
    var j := AdditiveInv(s, i, a, e);
    var wm := MultiplicativeSound(s, i, a.first, j);
    assert a.rest[0..] == a.rest;
    var wr := AddRestSound(s, j, a, 0, e);
    SpellsJoin(s, i, MultiplicativeTokens(a.first), wm, j, AddRestTokens(a, 0), wr, e);
    w := wm + wr;
  }

  lemma {:induction false} AddRestSound(s: string, i: nat, a: Additive, k: nat, e: nat) returns (w: seq<string>)
    requires i <= |s| && k <= |a.rest| && ParseAddRest(s, i) == Ok((a.rest[k..], e))
    ensures Spells(s, i, AddRestTokens(a, k), w, e)
    decreases |s| - i, 2
  {
    if k == |a.rest| {
      assert a.rest[k..] == [];
      AddRestNone(s, i, e);
      SpellsEmpty(s, i);
      w := [];
    } else {
      var j, k1 := AddRestInv(s, i, a.rest[k..], e);
      SliceStep(a.rest, k);
      var wm := MultiplicativeSound(s, j + 1, a.rest[k].1, k1);
      var wr := AddRestSound(s, k1, a, k + 1, e);
      AddRestJoin(s, i, a, k, j, k1, e, wm, wr);
      w := [s[i..j]] + wm + wr;
    }
  }
}
