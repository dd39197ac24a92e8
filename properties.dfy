/** What `evaluate` promises about whole input strings: its result in terms
    of the tree an input writes, whitespace independence, precedence and
    left-to-right folding, division by zero at any depth, and rejection of
    input outside the grammar. */
module Properties {
  import opened Results
  import opened Syntax
  import opened Parser
  import opened Evaluator
  import opened Semantics
  import opened ParserProofs
  import opened ParserSoundness
  import opened Language

  /* The result in terms of the written tree. */

  /** Any layout of whitespace gives the value of the tree written. */
  lemma WrittenValue(a: Additive, w: seq<string>, tail: string)
    requires ValidAdditive(a) && IsLayout(w, |AdditiveTokens(a)|) && AllSpace(tail)
    ensures ExpressionValue(Spell(AdditiveTokens(a), w) + tail) == Denote(LowerAdditive(a))
  {
    ExprComplete(a, w, tail);
    AdditiveMeaning(a);
  }

  /** The same tree written with two different layouts evaluates alike. */
  lemma WhitespaceIrrelevant(a: Additive, w1: seq<string>, t1: string, w2: seq<string>, t2: string)
    requires ValidAdditive(a) && IsLayout(w1, |AdditiveTokens(a)|) && AllSpace(t1)
    requires IsLayout(w2, |AdditiveTokens(a)|) && AllSpace(t2)
    ensures ExpressionValue(Spell(AdditiveTokens(a), w1) + t1) == ExpressionValue(Spell(AdditiveTokens(a), w2) + t2)
  {
    WrittenValue(a, w1, t1);
    WrittenValue(a, w2, t2);
  }

  /** A value is returned exactly when the input writes a tree of that value. */
  lemma ValueMeaning(s: string, v: real)
    ensures ExpressionValue(s) == Ok(v) <==> exists a :: Writes(s, a) && Denote(LowerAdditive(a)) == Ok(v)
  {
    if ExpressionValue(s) == Ok(v) {
      var a := ParseExpr(s).value;
      ParseExprMeaning(s, a);
      AdditiveMeaning(a);
    }
    if exists a :: Writes(s, a) && Denote(LowerAdditive(a)) == Ok(v) {
      var a :| Writes(s, a) && Denote(LowerAdditive(a)) == Ok(v);
      ParseExprMeaning(s, a);
      AdditiveMeaning(a);
    }
  }

  /** A parse error is returned exactly when the input writes no tree. */
  lemma ParseErrorMeaning(s: string)
    ensures (ExpressionValue(s).Err? && ExpressionValue(s).error.ParseError?) <==> forall a :: !Writes(s, a)
  {
    RejectedMeaning(s);
    if ParseExpr(s).Ok? {
      var a := ParseExpr(s).value;
      AdditiveMeaning(a);
      DenoteFails(LowerAdditive(a));
    }
  }

  /** Division by zero is reported exactly when the input writes a tree in
      which some divisor, possibly a whole sub-expression, is zero. */
  lemma DivisionByZeroMeaning(s: string)
    ensures ExpressionValue(s) == Err(DivisionByZero) <==> exists a :: Writes(s, a) && DividesByZero(LowerAdditive(a))
  {
    if ParseExpr(s).Ok? {
      var a := ParseExpr(s).value;
      ParseExprMeaning(s, a);
      AdditiveMeaning(a);
      DenoteFails(LowerAdditive(a));
      forall b | Writes(s, b) ensures b == a {
        Unambiguous(s, a, b);
      }
    } else {
      forall b ensures !Writes(s, b) {
        ParseExprMeaning(s, b);
      }
    }
  }

  /* Three operands: the fold order and precedence, for any literals and any layout. */

  /** A literal as a whole operand. */
  function Atom(l: Literal): Multiplicative {
    Multiplicative(Num(l), [])
  }

  lemma AtomFacts(l: Literal)
    requires ValidLiteral(l)
    ensures ValidMultiplicative(Atom(l)) && MultiplicativeTokens(Atom(l)) == [NumTok(l)]
    ensures LowerMultiplicative(Atom(l)) == Lit(LiteralValue(l))
  {
    assert MulRestTokens(Atom(l), 0) == [];
    assert MulChain(Atom(l), 0) == LowerPrimary(Num(l));
  }

  /** Two literals joined by `*` or `/`. */
  lemma ProductFacts(x: Literal, o: MulOp, y: Literal)
    requires ValidLiteral(x) && ValidLiteral(y)
    ensures var m := Multiplicative(Num(x), [(o, Num(y))]);
      ValidMultiplicative(m) && MultiplicativeTokens(m) == [NumTok(x), MulOpToken(o), NumTok(y)]
      && LowerMultiplicative(m) == Bin(MulBinOp(o), Lit(LiteralValue(x)), Lit(LiteralValue(y)))
  {
    var m := Multiplicative(Num(x), [(o, Num(y))]);
    assert ValidPrimary(m.rest[0].1);
    assert MulRestTokens(m, 1) == [];
    assert MulRestTokens(m, 0) == [MulOpToken(o), NumTok(y)];
    assert MulChain(m, 0) == Lit(LiteralValue(x));
    assert MulChain(m, 1) == Bin(MulBinOp(o), Lit(LiteralValue(x)), Lit(LiteralValue(y)));
  }

  /** A run of `+`/`-` is folded from the left: `x o1 y o2 z` is `(x o1 y) o2 z`. */
  lemma AdditiveLeftToRight(x: Literal, o1: AddOp, y: Literal, o2: AddOp, z: Literal, w: seq<string>, tail: string)
    requires ValidLiteral(x) && ValidLiteral(y) && ValidLiteral(z) && IsLayout(w, 5) && AllSpace(tail)
    ensures ExpressionValue(Spell([NumTok(x), AddOpToken(o1), NumTok(y), AddOpToken(o2), NumTok(z)], w) + tail)
         == Denote(Bin(AddBinOp(o2), Bin(AddBinOp(o1), Lit(LiteralValue(x)), Lit(LiteralValue(y))), Lit(LiteralValue(z))))
  {
    AtomFacts(x);
    AtomFacts(y);
    AtomFacts(z);
    var a := Additive(Atom(x), [(o1, Atom(y)), (o2, Atom(z))]);
    assert ValidMultiplicative(a.rest[0].1) && ValidMultiplicative(a.rest[1].1);
    assert AddRestTokens(a, 2) == [];
    assert AddRestTokens(a, 1) == [AddOpToken(o2), NumTok(z)];
    assert AddRestTokens(a, 0) == [AddOpToken(o1), NumTok(y), AddOpToken(o2), NumTok(z)];
    assert AddChain(a, 0) == Lit(LiteralValue(x));
    assert AddChain(a, 1) == Bin(AddBinOp(o1), Lit(LiteralValue(x)), Lit(LiteralValue(y)));
    WrittenValue(a, w, tail);
  }

  /** A run of `*`/`/` is folded from the left: `x o1 y o2 z` is `(x o1 y) o2 z`. */
  lemma MultiplicativeLeftToRight(x: Literal, o1: MulOp, y: Literal, o2: MulOp, z: Literal, w: seq<string>, tail: string)
    requires ValidLiteral(x) && ValidLiteral(y) && ValidLiteral(z) && IsLayout(w, 5) && AllSpace(tail)
    ensures ExpressionValue(Spell([NumTok(x), MulOpToken(o1), NumTok(y), MulOpToken(o2), NumTok(z)], w) + tail)
         == Denote(Bin(MulBinOp(o2), Bin(MulBinOp(o1), Lit(LiteralValue(x)), Lit(LiteralValue(y))), Lit(LiteralValue(z))))
  {
    var m := Multiplicative(Num(x), [(o1, Num(y)), (o2, Num(z))]);
    var a := Additive(m, []);
    assert ValidPrimary(m.rest[0].1) && ValidPrimary(m.rest[1].1);
    assert MulRestTokens(m, 2) == [];
    assert MulRestTokens(m, 1) == [MulOpToken(o2), NumTok(z)];
    assert MulRestTokens(m, 0) == [MulOpToken(o1), NumTok(y), MulOpToken(o2), NumTok(z)];
    assert AddRestTokens(a, 0) == [];
    assert MulChain(m, 0) == Lit(LiteralValue(x));
    assert MulChain(m, 1) == Bin(MulBinOp(o1), Lit(LiteralValue(x)), Lit(LiteralValue(y)));
    assert MulChain(m, 2) == Bin(MulBinOp(o2), MulChain(m, 1), LowerPrimary(Num(z)));
    assert AddChain(a, 0) == MulChain(m, 2);
    assert LowerAdditive(a) == Bin(MulBinOp(o2), Bin(MulBinOp(o1), Lit(LiteralValue(x)), Lit(LiteralValue(y))), Lit(LiteralValue(z)));
    assert MultiplicativeTokens(m) == [NumTok(x), MulOpToken(o1), NumTok(y), MulOpToken(o2), NumTok(z)];
    assert AdditiveTokens(a) == [NumTok(x), MulOpToken(o1), NumTok(y), MulOpToken(o2), NumTok(z)];
    WrittenValue(a, w, tail);
  }

  /** `*`/`/` after `+`/`-` binds tighter: `x o1 y o2 z` is `x o1 (y o2 z)`. */
  lemma ProductBindsTighterRight(x: Literal, o1: AddOp, y: Literal, o2: MulOp, z: Literal, w: seq<string>, tail: string)
    requires ValidLiteral(x) && ValidLiteral(y) && ValidLiteral(z) && IsLayout(w, 5) && AllSpace(tail)
    ensures ExpressionValue(Spell([NumTok(x), AddOpToken(o1), NumTok(y), MulOpToken(o2), NumTok(z)], w) + tail)
         == Denote(Bin(AddBinOp(o1), Lit(LiteralValue(x)), Bin(MulBinOp(o2), Lit(LiteralValue(y)), Lit(LiteralValue(z)))))
  {
    AtomFacts(x);
    ProductFacts(y, o2, z);
    var m := Multiplicative(Num(y), [(o2, Num(z))]);
    var a := Additive(Atom(x), [(o1, m)]);
    assert ValidMultiplicative(a.rest[0].1);
    assert AddRestTokens(a, 1) == [];
    assert AddRestTokens(a, 0) == [AddOpToken(o1), NumTok(y), MulOpToken(o2), NumTok(z)];
    assert AddChain(a, 0) == Lit(LiteralValue(x));
    WrittenValue(a, w, tail);
  }

  /** `*`/`/` before `+`/`-` binds tighter: `x o1 y o2 z` is `(x o1 y) o2 z`. */
  lemma ProductBindsTighterLeft(x: Literal, o1: MulOp, y: Literal, o2: AddOp, z: Literal, w: seq<string>, tail: string)
    requires ValidLiteral(x) && ValidLiteral(y) && ValidLiteral(z) && IsLayout(w, 5) && AllSpace(tail)
    ensures ExpressionValue(Spell([NumTok(x), MulOpToken(o1), NumTok(y), AddOpToken(o2), NumTok(z)], w) + tail)
         == Denote(Bin(AddBinOp(o2), Bin(MulBinOp(o1), Lit(LiteralValue(x)), Lit(LiteralValue(y))), Lit(LiteralValue(z))))
  {
    AtomFacts(z);
    ProductFacts(x, o1, y);
    var m := Multiplicative(Num(x), [(o1, Num(y))]);
    var a := Additive(m, [(o2, Atom(z))]);
    assert ValidMultiplicative(a.rest[0].1);
    assert AddRestTokens(a, 1) == [];
    assert AddRestTokens(a, 0) == [AddOpToken(o2), NumTok(z)];
    assert AddChain(a, 0) == LowerMultiplicative(m);
    assert AdditiveTokens(a) == [NumTok(x), MulOpToken(o1), NumTok(y), AddOpToken(o2), NumTok(z)];
    assert LowerAdditive(a) == Bin(AddBinOp(o2), Bin(MulBinOp(o1), Lit(LiteralValue(x)), Lit(LiteralValue(y))), Lit(LiteralValue(z)));
    WrittenValue(a, w, tail);
  }

  /** Two literals joined by `+` or `-`, as a tree of its own. */
  lemma SumFacts(x: Literal, o: AddOp, y: Literal)
    requires ValidLiteral(x) && ValidLiteral(y)
    ensures var g := Additive(Atom(x), [(o, Atom(y))]);
      ValidAdditive(g) && AdditiveTokens(g) == [NumTok(x), AddOpToken(o), NumTok(y)]
      && LowerAdditive(g) == Bin(AddBinOp(o), Lit(LiteralValue(x)), Lit(LiteralValue(y)))
  {
    AtomFacts(x);
    AtomFacts(y);
    var g := Additive(Atom(x), [(o, Atom(y))]);
    assert ValidMultiplicative(g.rest[0].1);
    assert AddRestTokens(g, 1) == [];
    assert AddRestTokens(g, 0) == [AddOpToken(o), NumTok(y)];
    assert AddChain(g, 0) == Lit(LiteralValue(x));
  }

  /** A single literal evaluates to its value. */
  lemma SingleLiteral(x: Literal, w: seq<string>, tail: string)
    requires ValidLiteral(x) && IsLayout(w, 1) && AllSpace(tail)
    ensures ExpressionValue(Spell([NumTok(x)], w) + tail) == Ok(LiteralValue(x))
  {
    AtomFacts(x);
    var a := Additive(Atom(x), []);
    assert AddRestTokens(a, 0) == [];
    assert AddChain(a, 0) == Lit(LiteralValue(x));
    WrittenValue(a, w, tail);
  }

  /** `x + y` and `x - y`. */
  lemma SumOfTwo(x: Literal, o: AddOp, y: Literal, w: seq<string>, tail: string)
    requires ValidLiteral(x) && ValidLiteral(y) && IsLayout(w, 3) && AllSpace(tail)
    ensures ExpressionValue(Spell([NumTok(x), AddOpToken(o), NumTok(y)], w) + tail)
         == Denote(Bin(AddBinOp(o), Lit(LiteralValue(x)), Lit(LiteralValue(y))))
  {
    SumFacts(x, o, y);
    WrittenValue(Additive(Atom(x), [(o, Atom(y))]), w, tail);
  }

  /** `x * y` and `x / y`. */
  lemma ProductOfTwo(x: Literal, o: MulOp, y: Literal, w: seq<string>, tail: string)
    requires ValidLiteral(x) && ValidLiteral(y) && IsLayout(w, 3) && AllSpace(tail)
    ensures ExpressionValue(Spell([NumTok(x), MulOpToken(o), NumTok(y)], w) + tail)
         == Denote(Bin(MulBinOp(o), Lit(LiteralValue(x)), Lit(LiteralValue(y))))
  {
    ProductFacts(x, o, y);
    var m := Multiplicative(Num(x), [(o, Num(y))]);
    var a := Additive(m, []);
    assert AddRestTokens(a, 0) == [];
    assert AddChain(a, 0) == LowerMultiplicative(m);
    assert AdditiveTokens(a) == MultiplicativeTokens(m);
    WrittenValue(a, w, tail);
  }

  /** A parenthesised sum as the left operand of a product: `(x o1 y) o2 z`. */
  lemma GroupTimesLiteral(x: Literal, o1: AddOp, y: Literal, o2: MulOp, z: Literal, w: seq<string>, tail: string)
    requires ValidLiteral(x) && ValidLiteral(y) && ValidLiteral(z) && IsLayout(w, 7) && AllSpace(tail)
    ensures ExpressionValue(Spell([OpenTok, NumTok(x), AddOpToken(o1), NumTok(y), CloseTok, MulOpToken(o2), NumTok(z)], w) + tail)
         == Denote(Bin(MulBinOp(o2), Bin(AddBinOp(o1), Lit(LiteralValue(x)), Lit(LiteralValue(y))), Lit(LiteralValue(z))))
  {
    SumFacts(x, o1, y);
    var g := Additive(Atom(x), [(o1, Atom(y))]);
    var m := Multiplicative(Paren(g), [(o2, Num(z))]);
    var a := Additive(m, []);
    assert ValidPrimary(m.first) && ValidPrimary(m.rest[0].1);
    assert PrimaryTokens(m.first) == [OpenTok, NumTok(x), AddOpToken(o1), NumTok(y), CloseTok];
    assert MulRestTokens(m, 1) == [];
    assert MulRestTokens(m, 0) == [MulOpToken(o2), NumTok(z)];
    assert MultiplicativeTokens(m) == [OpenTok, NumTok(x), AddOpToken(o1), NumTok(y), CloseTok, MulOpToken(o2), NumTok(z)];
    assert AddRestTokens(a, 0) == [];
    assert MulChain(m, 0) == LowerAdditive(g);
    assert MulChain(m, 1) == Bin(MulBinOp(o2), LowerAdditive(g), Lit(LiteralValue(z)));
    assert AddChain(a, 0) == MulChain(m, 1);
    assert AdditiveTokens(a) == MultiplicativeTokens(m);
    WrittenValue(a, w, tail);
  }

  /** A parenthesised sum as the right operand of a product: `x o2 (y o1 z)`. */
  lemma LiteralTimesGroup(x: Literal, o2: MulOp, y: Literal, o1: AddOp, z: Literal, w: seq<string>, tail: string)
    requires ValidLiteral(x) && ValidLiteral(y) && ValidLiteral(z) && IsLayout(w, 7) && AllSpace(tail)
    ensures ExpressionValue(Spell([NumTok(x), MulOpToken(o2), OpenTok, NumTok(y), AddOpToken(o1), NumTok(z), CloseTok], w) + tail)
         == Denote(Bin(MulBinOp(o2), Lit(LiteralValue(x)), Bin(AddBinOp(o1), Lit(LiteralValue(y)), Lit(LiteralValue(z)))))
  {
    SumFacts(y, o1, z);
    var g := Additive(Atom(y), [(o1, Atom(z))]);
    var m := Multiplicative(Num(x), [(o2, Paren(g))]);
    var a := Additive(m, []);
    assert ValidPrimary(m.first) && ValidPrimary(m.rest[0].1);
    assert PrimaryTokens(m.rest[0].1) == [OpenTok, NumTok(y), AddOpToken(o1), NumTok(z), CloseTok];
    assert MulRestTokens(m, 1) == [];
    assert MulRestTokens(m, 0) == [MulOpToken(o2), OpenTok, NumTok(y), AddOpToken(o1), NumTok(z), CloseTok];
    assert MultiplicativeTokens(m) == [NumTok(x), MulOpToken(o2), OpenTok, NumTok(y), AddOpToken(o1), NumTok(z), CloseTok];
    assert AddRestTokens(a, 0) == [];
    assert MulChain(m, 0) == Lit(LiteralValue(x));
    assert MulChain(m, 1) == Bin(MulBinOp(o2), Lit(LiteralValue(x)), LowerAdditive(g));
    assert AddChain(a, 0) == MulChain(m, 1);
    assert AdditiveTokens(a) == MultiplicativeTokens(m);
    WrittenValue(a, w, tail);
  }

  /** A zero divisor is caught even when it is a parenthesised sub-expression: `x / (y - y)`. */
  lemma ZeroDivisorFromGroup(x: Literal, y: Literal, w: seq<string>, tail: string)
    requires ValidLiteral(x) && ValidLiteral(y) && IsLayout(w, 7) && AllSpace(tail)
    ensures ExpressionValue(Spell([NumTok(x), OverTok, OpenTok, NumTok(y), MinusTok, NumTok(y), CloseTok], w) + tail)
         == Err(DivisionByZero)
  {
    LiteralTimesGroup(x, Over, y, Minus, y, w, tail);
    var v := LiteralValue(y);
    assert Denote(Bin(Sub, Lit(v), Lit(v))) == Ok(0.0);
  }

  /* Redundant parentheses. */

  /** `a` inside `n` pairs of parentheses. */
  function Wrap(a: Additive, n: nat): Additive {
    if n == 0 then a else Additive(Multiplicative(Paren(Wrap(a, n - 1)), []), [])
  }

  /** `n` copies of a token. */
  function Repeat(t: Token, n: nat): (r: seq<Token>)
    ensures |r| == n
  {
    if n == 0 then [] else [t] + Repeat(t, n - 1)
  }

  lemma {:induction false} RepeatLast(t: Token, n: nat)
    ensures Repeat(t, n) + [t] == [t] + Repeat(t, n)
  {
    if n > 0 {
      RepeatLast(t, n - 1);
    }
  }

  /** Wrapping a tree in parentheses writes it between `n` opening and `n`
      closing parentheses, and lowers to the same reference tree. */
  lemma {:induction false} WrapFacts(a: Additive, n: nat)
    requires ValidAdditive(a)
    ensures ValidAdditive(Wrap(a, n))
    ensures AdditiveTokens(Wrap(a, n)) == Repeat(OpenTok, n) + AdditiveTokens(a) + Repeat(CloseTok, n)
    ensures LowerAdditive(Wrap(a, n)) == LowerAdditive(a)
  {
    if n > 0 {
      WrapFacts(a, n - 1);
      var b := Wrap(a, n - 1);
      var m := Multiplicative(Paren(b), []);
      var c := Wrap(a, n);
      assert c == Additive(m, []);
      assert MulRestTokens(m, 0) == [];
      assert AddRestTokens(c, 0) == [];
      assert MultiplicativeTokens(m) == PrimaryTokens(Paren(b)) + [];
      assert AdditiveTokens(c) == MultiplicativeTokens(m) + [];
      assert AdditiveTokens(c) == [OpenTok] + AdditiveTokens(b) + [CloseTok];
      RepeatLast(CloseTok, n - 1);
      assert MulChain(m, 0) == LowerAdditive(b);
      assert AddChain(c, 0) == MulChain(m, 0);
    }
  }

  /** Any number of redundant parentheses around an expression leave its value unchanged. */
  lemma RedundantParentheses(a: Additive, n: nat, w: seq<string>, tail: string)
    requires ValidAdditive(a) && IsLayout(w, 2 * n + |AdditiveTokens(a)|) && AllSpace(tail)
    ensures ExpressionValue(Spell(Repeat(OpenTok, n) + AdditiveTokens(a) + Repeat(CloseTok, n), w) + tail)
         == Denote(LowerAdditive(a))
  {
    WrapFacts(a, n);
    WrittenValue(Wrap(a, n), w, tail);
  }

  /** A lone number, inside any number of parentheses, evaluates to its own value. */
  lemma ParenthesisedLiteral(x: Literal, n: nat, w: seq<string>, tail: string)
    requires ValidLiteral(x) && IsLayout(w, 2 * n + 1) && AllSpace(tail)
    ensures ExpressionValue(Spell(Repeat(OpenTok, n) + [NumTok(x)] + Repeat(CloseTok, n), w) + tail) == Ok(LiteralValue(x))
  {
    AtomFacts(x);
    var a := Additive(Atom(x), []);
    assert AddRestTokens(a, 0) == [];
    assert AdditiveTokens(a) == [NumTok(x)];
    assert AddChain(a, 0) == Lit(LiteralValue(x));
    RedundantParentheses(a, n, w, tail);
  }

  /* Laws of the arithmetic on written literals, for any layouts. */

  /** `x + y` and `y + x` evaluate alike. */
  lemma SumCommutes(x: Literal, y: Literal, w1: seq<string>, t1: string, w2: seq<string>, t2: string)
    requires ValidLiteral(x) && ValidLiteral(y)
    requires IsLayout(w1, 3) && AllSpace(t1) && IsLayout(w2, 3) && AllSpace(t2)
    ensures ExpressionValue(Spell([NumTok(x), AddOpToken(Plus), NumTok(y)], w1) + t1)
         == ExpressionValue(Spell([NumTok(y), AddOpToken(Plus), NumTok(x)], w2) + t2)
  {
    SumOfTwo(x, Plus, y, w1, t1);
    SumOfTwo(y, Plus, x, w2, t2);
  }

  /** `x * y` and `y * x` evaluate alike. */
  lemma ProductCommutes(x: Literal, y: Literal, w1: seq<string>, t1: string, w2: seq<string>, t2: string)
    requires ValidLiteral(x) && ValidLiteral(y)
    requires IsLayout(w1, 3) && AllSpace(t1) && IsLayout(w2, 3) && AllSpace(t2)
    ensures ExpressionValue(Spell([NumTok(x), MulOpToken(Times), NumTok(y)], w1) + t1)
         == ExpressionValue(Spell([NumTok(y), MulOpToken(Times), NumTok(x)], w2) + t2)
  {
    ProductOfTwo(x, Times, y, w1, t1);
    ProductOfTwo(y, Times, x, w2, t2);
    MulApply(Times, LiteralValue(x), LiteralValue(y));
    MulApply(Times, LiteralValue(y), LiteralValue(x));
  }

  /** `x - y` and `x + -y` evaluate alike, for an unsigned `y`. */
  lemma DifferenceIsSumOfNegation(x: Literal, y: Literal, w1: seq<string>, t1: string, w2: seq<string>, t2: string)
    requires ValidLiteral(x) && ValidLiteral(y) && !y.negative
    requires IsLayout(w1, 3) && AllSpace(t1) && IsLayout(w2, 3) && AllSpace(t2)
    ensures ExpressionValue(Spell([NumTok(x), AddOpToken(Minus), NumTok(y)], w1) + t1)
         == ExpressionValue(Spell([NumTok(x), AddOpToken(Plus), NumTok(y.(negative := true))], w2) + t2)
  {
    SumOfTwo(x, Minus, y, w1, t1);
    SumOfTwo(x, Plus, y.(negative := true), w2, t2);
  }

  /** Adding a literal of value zero, or multiplying or dividing by one of
      value one, gives back the other operand. */
  lemma Identities(x: Literal, o: AddOp, u: MulOp, y: Literal, w: seq<string>, tail: string)
    requires ValidLiteral(x) && ValidLiteral(y) && IsLayout(w, 3) && AllSpace(tail)
    ensures LiteralValue(y) == 0.0 ==> ExpressionValue(Spell([NumTok(x), AddOpToken(o), NumTok(y)], w) + tail) == Ok(LiteralValue(x))
    ensures LiteralValue(y) == 1.0 ==> ExpressionValue(Spell([NumTok(x), MulOpToken(u), NumTok(y)], w) + tail) == Ok(LiteralValue(x))
  {
    SumOfTwo(x, o, y, w, tail);
    ProductOfTwo(x, u, y, w, tail);
  }

  /** Dividing by any literal of value zero (`0`, `0.0`, `-0`, ...) is a division by zero. */
  lemma ZeroDivisor(x: Literal, y: Literal, w: seq<string>, tail: string)
    requires ValidLiteral(x) && ValidLiteral(y) && LiteralValue(y) == 0.0 && IsLayout(w, 3) && AllSpace(tail)
    ensures ExpressionValue(Spell([NumTok(x), MulOpToken(Over), NumTok(y)], w) + tail) == Err(DivisionByZero)
  {
    ProductOfTwo(x, Over, y, w, tail);
  }
}
