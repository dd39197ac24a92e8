/** The language `ComputeParser` accepts, stated without the parser: an
    input is accepted exactly when it writes some parse tree, token by token,
    with any whitespace before each token and at the end, and the tree it
    yields is that one; so no input writes two different trees. */
module Language {
  import opened Results
  import opened Syntax
  import opened Parser
  import opened ParserProofs
  import opened ParserSoundness

  /** `s` writes the tree `a`. */
  ghost predicate Writes(s: string, a: Additive) {
    ValidAdditive(a)
    && exists w: seq<string>, tail: string ::
         IsLayout(w, |AdditiveTokens(a)|) && AllSpace(tail) && s == Spell(AdditiveTokens(a), w) + tail
  }

  /** The layout and trailing whitespace with which `s` writes `a`. */
  lemma WrittenParts(s: string, a: Additive) returns (w: seq<string>, tail: string)
    requires Writes(s, a)
    ensures IsLayout(w, |AdditiveTokens(a)|) && AllSpace(tail) && s == Spell(AdditiveTokens(a), w) + tail
  {
    w, tail :| IsLayout(w, |AdditiveTokens(a)|) && AllSpace(tail) && s == Spell(AdditiveTokens(a), w) + tail;
  }

  /** Every way of writing a tree is parsed back to that tree. */
  lemma ExprComplete(a: Additive, w: seq<string>, tail: string)
    requires ValidAdditive(a) && IsLayout(w, |AdditiveTokens(a)|) && AllSpace(tail)
    ensures ParseExpr(Spell(AdditiveTokens(a), w) + tail) == Ok(a)
  {
    var x := Spell(AdditiveTokens(a), w);
    var s := x + tail;
    var e := |x|;
    assert s[0..e] == x && s[e..] == tail;
    AtSlice(s, 0, x);
    AtSlice(s, e, tail);
    SkipSpaceAt(s, e, tail);
    if e < |s| {
      assert s[e] == tail[0];
    }
    AdditiveComplete(s, 0, a, w, e);
  }

  /** Whatever is accepted writes the tree it is parsed to. */
  lemma ExprSound(s: string) returns (w: seq<string>, tail: string)
    requires ParseExpr(s).Ok?
    ensures IsLayout(w, |AdditiveTokens(ParseExpr(s).value)|) && AllSpace(tail)
    ensures s == Spell(AdditiveTokens(ParseExpr(s).value), w) + tail
  {
    var a, e := ExprInv(s);
    w := AdditiveSound(s, 0, a, e);
    tail := s[e..];
    TrailingSpace(s, e);
    AtCover(s, Spell(AdditiveTokens(a), w), tail);
  }

  lemma TrailingSpace(s: string, e: nat)
    requires e <= |s| && SkipSpace(s, e) == |s|
    ensures AllSpace(s[e..]) && At(s, e, s[e..])
  {
    SpaceRun(s, e);
    assert s[e..] == s[e..SkipSpace(s, e)];
  }

  /** Text that occurs at the start of `s`, followed by text that reaches its end, is all of `s`. */
  lemma AtCover(s: string, x: string, y: string)
    requires At(s, 0, x) && At(s, |x|, y) && |x| + |y| == |s|
    ensures s == x + y
  {
    AtConcat(s, 0, x, y);
    AtSlice(s, 0, x + y);
    assert s[0..|s|] == s;
  }

  lemma ExprInv(s: string) returns (a: Additive, e: nat)
    requires ParseExpr(s).Ok?
    ensures ParseAdditive(s, 0) == Ok((a, e)) && e <= |s| && SkipSpace(s, e) == |s| && ParseExpr(s) == Ok(a)
  {
    a, e := ParseAdditive(s, 0).value.0, ParseAdditive(s, 0).value.1;
  }

  /** The parser decides the language, and the tree is the one written. */
  lemma ParseExprMeaning(s: string, a: Additive)
    ensures ParseExpr(s) == Ok(a) <==> Writes(s, a)
  {
    if ParseExpr(s) == Ok(a) {
      var w, tail := ExprSound(s);
    }
    if Writes(s, a) {
      var w: seq<string>, tail: string :| IsLayout(w, |AdditiveTokens(a)|) && AllSpace(tail) && s == Spell(AdditiveTokens(a), w) + tail;
      ExprComplete(a, w, tail);
    }
  }

  /** No input writes two different trees. */
  lemma Unambiguous(s: string, a: Additive, b: Additive)
    requires Writes(s, a) && Writes(s, b)
    ensures a == b
  {
    ParseExprMeaning(s, a);
    ParseExprMeaning(s, b);
  }

  /** An input is rejected exactly when it writes no tree. */
  lemma RejectedMeaning(s: string)
    ensures ParseExpr(s).Err? <==> forall a :: !Writes(s, a)
  {
    if ParseExpr(s).Ok? {
      ParseExprMeaning(s, ParseExpr(s).value);
    } else {
      forall a ensures !Writes(s, a) {
        ParseExprMeaning(s, a);
      }
    }
  }
}
