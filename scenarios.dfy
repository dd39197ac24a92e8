/** Test cases of the repository, each stated for its exact input string and
    derived from the general lemmas about the evaluator: the unit tests of
    `src/lib.rs`, then inputs the test suites expect to be rejected. */
module Scenarios {
  import opened Results
  import opened Syntax
  import opened Parser
  import opened Evaluator
  import opened Properties
  import opened Rejection

  /** A lone integer (`src/lib.rs` line 97). */
  lemma FortyTwo(s: string)
    requires s == "42"
    ensures ExpressionValue(s) == Ok(42.0)
  {
    var x := Literal(false, "42", []);
    var w := [""];
    assert Spell([NumTok(x)], w) + "" == s;
    assert WholeValue("42"[..1]) == 4;
    assert LiteralValue(x) == 42.0;
    SingleLiteral(x, w, "");
  }

  /** Addition (`src/lib.rs` line 98). */
  lemma TwoPlusThree(s: string)
    requires s == "2 + 3"
    ensures ExpressionValue(s) == Ok(5.0)
  {
    var x := Literal(false, "2", []);
    var y := Literal(false, "3", []);
    var w := ["", " ", " "];
    assert Spell([NumTok(y)], w[2..]) == " 3";
    assert Spell([AddOpToken(Plus), NumTok(y)], w[1..]) == " + 3";
    assert Spell([NumTok(x), AddOpToken(Plus), NumTok(y)], w) + "" == s;
    assert LiteralValue(x) == 2.0;
    assert LiteralValue(y) == 3.0;
    SumOfTwo(x, Plus, y, w, "");
  }

  /** Subtraction (`src/lib.rs` line 99). */
  lemma TenMinusFour(s: string)
    requires s == "10 - 4"
    ensures ExpressionValue(s) == Ok(6.0)
  {
    var x := Literal(false, "10", []);
    var y := Literal(false, "4", []);
    var w := ["", " ", " "];
    assert Spell([NumTok(y)], w[2..]) == " 4";
    assert Spell([AddOpToken(Minus), NumTok(y)], w[1..]) == " - 4";
    assert Spell([NumTok(x), AddOpToken(Minus), NumTok(y)], w) + "" == s;
    assert WholeValue("10"[..1]) == 1;
    assert LiteralValue(x) == 10.0;
    assert LiteralValue(y) == 4.0;
    SumOfTwo(x, Minus, y, w, "");
  }

  /** Multiplication (`src/lib.rs` line 100). */
  lemma ThreeTimesFour(s: string)
    requires s == "3 * 4"
    ensures ExpressionValue(s) == Ok(12.0)
  {
    var x := Literal(false, "3", []);
    var y := Literal(false, "4", []);
    var w := ["", " ", " "];
    assert Spell([NumTok(y)], w[2..]) == " 4";
    assert Spell([MulOpToken(Times), NumTok(y)], w[1..]) == " * 4";
    assert Spell([NumTok(x), MulOpToken(Times), NumTok(y)], w) + "" == s;
    assert LiteralValue(x) == 3.0;
    assert LiteralValue(y) == 4.0;
    ProductOfTwo(x, Times, y, w, "");
  }

  /** Division (`src/lib.rs` line 101). */
  lemma FifteenOverThree(s: string)
    requires s == "15 / 3"
    ensures ExpressionValue(s) == Ok(5.0)
  {
    var x := Literal(false, "15", []);
    var y := Literal(false, "3", []);
    var w := ["", " ", " "];
    assert Spell([NumTok(y)], w[2..]) == " 3";
    assert Spell([MulOpToken(Over), NumTok(y)], w[1..]) == " / 3";
    assert Spell([NumTok(x), MulOpToken(Over), NumTok(y)], w) + "" == s;
    assert WholeValue("15"[..1]) == 1;
    assert LiteralValue(x) == 15.0;
    assert LiteralValue(y) == 3.0;
    ProductOfTwo(x, Over, y, w, "");
  }

  /** A decimal literal (`src/lib.rs` line 120). */
  lemma Decimal(s: string)
    requires s == "3.14"
    ensures ExpressionValue(s) == Ok(3.14)
  {
    var x := Literal(false, "3", "14");
    var w := [""];
    assert Spell([NumTok(x)], w) + "" == s;
    assert LiteralValue(x) == 3.14;
    SingleLiteral(x, w, "");
  }

  /** A decimal operand (`src/lib.rs` line 121). */
  lemma DecimalTimesFour(s: string)
    requires s == "2.5 * 4"
    ensures ExpressionValue(s) == Ok(10.0)
  {
    var x := Literal(false, "2", "5");
    var y := Literal(false, "4", []);
    var w := ["", " ", " "];
    assert Spell([NumTok(y)], w[2..]) == " 4";
    assert Spell([MulOpToken(Times), NumTok(y)], w[1..]) == " * 4";
    assert Spell([NumTok(x), MulOpToken(Times), NumTok(y)], w) + "" == s;
    assert LiteralValue(x) == 2.5;
    assert LiteralValue(y) == 4.0;
    ProductOfTwo(x, Times, y, w, "");
  }

  /** Division is not integer division (`src/lib.rs` line 122). */
  lemma TenOverFour(s: string)
    requires s == "10 / 4"
    ensures ExpressionValue(s) == Ok(2.5)
  {
    var x := Literal(false, "10", []);
    var y := Literal(false, "4", []);
    var w := ["", " ", " "];
    assert Spell([NumTok(y)], w[2..]) == " 4";
    assert Spell([MulOpToken(Over), NumTok(y)], w[1..]) == " / 4";
    assert Spell([NumTok(x), MulOpToken(Over), NumTok(y)], w) + "" == s;
    assert WholeValue("10"[..1]) == 1;
    assert LiteralValue(x) == 10.0;
    assert LiteralValue(y) == 4.0;
    ProductOfTwo(x, Over, y, w, "");
  }

  /** A negative literal (`src/lib.rs` line 127). */
  lemma MinusFive(s: string)
    requires s == "-5"
    ensures ExpressionValue(s) == Ok(-5.0)
  {
    var x := Literal(true, "5", []);
    var w := [""];
    assert Spell([NumTok(x)], w) + "" == s;
    assert LiteralValue(x) == -5.0;
    SingleLiteral(x, w, "");
  }

  /** A negative first operand (`src/lib.rs` line 128). */
  lemma NegativeFirst(s: string)
    requires s == "-3 + 5"
    ensures ExpressionValue(s) == Ok(2.0)
  {
    var x := Literal(true, "3", []);
    var y := Literal(false, "5", []);
    var w := ["", " ", " "];
    assert Spell([NumTok(y)], w[2..]) == " 5";
    assert Spell([AddOpToken(Plus), NumTok(y)], w[1..]) == " + 5";
    assert Spell([NumTok(x), AddOpToken(Plus), NumTok(y)], w) + "" == s;
    assert LiteralValue(x) == -3.0;
    assert LiteralValue(y) == 5.0;
    SumOfTwo(x, Plus, y, w, "");
  }

  /** A negative operand after an operator (`src/lib.rs` line 129). */
  lemma NegativeOperand(s: string)
    requires s == "10 + -3"
    ensures ExpressionValue(s) == Ok(7.0)
  {
    var x := Literal(false, "10", []);
    var y := Literal(true, "3", []);
    var w := ["", " ", " "];
    assert Spell([NumTok(y)], w[2..]) == " -3";
    assert Spell([AddOpToken(Plus), NumTok(y)], w[1..]) == " + -3";
    assert Spell([NumTok(x), AddOpToken(Plus), NumTok(y)], w) + "" == s;
    assert WholeValue("10"[..1]) == 1;
    assert LiteralValue(x) == 10.0;
    assert LiteralValue(y) == -3.0;
    SumOfTwo(x, Plus, y, w, "");
  }

  /** Division by zero is an error (`src/lib.rs` line 134). */
  lemma FiveOverZero(s: string)
    requires s == "5 / 0"
    ensures ExpressionValue(s) == Err(DivisionByZero)
  {
    var x := Literal(false, "5", []);
    var y := Literal(false, "0", []);
    var w := ["", " ", " "];
    assert Spell([NumTok(y)], w[2..]) == " 0";
    assert Spell([MulOpToken(Over), NumTok(y)], w[1..]) == " / 0";
    assert Spell([NumTok(x), MulOpToken(Over), NumTok(y)], w) + "" == s;
    assert LiteralValue(x) == 5.0;
    assert LiteralValue(y) == 0.0;
    ProductOfTwo(x, Over, y, w, "");
  }

  /* Rejected inputs. */

  /** Empty input is a parse error (`tests/evaluation_tests.rs` line 169 expects a
      separate empty-expression error, which `src/lib.rs` does not have). */
  lemma EmptyInput(s: string)
    requires s == ""
    ensures ExpressionValue(s).Err? && ExpressionValue(s).error.ParseError?
  {
    LeadingRejected(s);
  }

  /** Whitespace only (`tests/evaluation_tests.rs` line 174). */
  lemma BlankInput(s: string)
    requires s == "   "
    ensures ExpressionValue(s).Err? && ExpressionValue(s).error.ParseError?
  {
    assert SkipSpace(s, 3) == 3;
    LeadingRejected(s);
  }

  /** A trailing operator (`tests/parsing_tests.rs` line 7). */
  lemma TrailingOperator(s: string)
    requires s == "2 +"
    ensures ExpressionValue(s).Err? && ExpressionValue(s).error.ParseError?
  {
    assert s[3..] == [];
    TrailingRejected(s, 2);
  }

  /** A leading operator (`tests/parsing_tests.rs` line 8). */
  lemma LeadingOperator(s: string)
    requires s == "+ 3"
    ensures ExpressionValue(s).Err? && ExpressionValue(s).error.ParseError?
  {
    LeadingRejected(s);
  }

  /** An unclosed group (`tests/parsing_tests.rs` line 48). */
  lemma UnclosedGroup(s: string)
    requires s == "(2 + 3"
    ensures ExpressionValue(s).Err? && ExpressionValue(s).error.ParseError?
  {
    assert s == ['('] + "2 + 3";
    assert ')' !in s;
    UnbalancedRejected(s);
  }

  /** Empty parentheses (`tests/parsing_tests.rs` line 53). */
  lemma EmptyGroup(s: string)
    requires s == "()"
    ensures ExpressionValue(s).Err? && ExpressionValue(s).error.ParseError?
  {
    assert ScanDigits(s, 1) == 1;
    assert ParseNumber(s, 1).Err?;
    assert ParsePrimary(s, 1).Err?;
    assert ParseMultiplicative(s, 1).Err?;
    assert ParseAdditive(s, 1).Err?;
    assert ParsePrimary(s, 0).Err?;
    assert ParseMultiplicative(s, 0).Err?;
  }

  /** Two decimal points: the number ends at the second, which nothing can follow
      (`tests/parsing_tests.rs` line 69). */
  lemma TwoPoints(s: string)
    requires s == "2.3.4"
    ensures ExpressionValue(s).Err? && ExpressionValue(s).error.ParseError?
  {
    var l := Literal(false, "2", "3");
    assert ScanDigits(s, 0) == 1;
    assert ScanDigits(s, 2) == 3;
    assert s[0..1] == "2" && s[2..3] == "3";
    assert ParseNumber(s, 0) == Ok((l, 3));
    assert ParsePrimary(s, 0) == Ok((Num(l), 3));
    assert SkipSpace(s, 3) == 3;
    assert ParseMulRest(s, 3) == Ok(([], 3));
    assert ParseAddRest(s, 3) == Ok(([], 3));
    assert ParseAdditive(s, 0) == Ok((Additive(Multiplicative(Num(l), []), []), 3));
  }

  /** Scientific notation is not part of the `number` rule (`tests/parsing_tests.rs` line 70). */
  lemma Exponent(s: string)
    requires s == "2e10"
    ensures ExpressionValue(s).Err? && ExpressionValue(s).error.ParseError?
  {
    ForeignCharRejected(s, 1);
  }

  /** A number needs a digit before its point (`tests/parsing_tests.rs` line 74). */
  lemma BarePointFirst(s: string)
    requires s == ".5"
    ensures ExpressionValue(s).Err? && ExpressionValue(s).error.ParseError?
  {
    LeadingRejected(s);
  }

  /** A number needs a digit after its point (`tests/parsing_tests.rs` line 75). */
  lemma BarePointLast(s: string)
    requires s == "5."
    ensures ExpressionValue(s).Err? && ExpressionValue(s).error.ParseError?
  {
    assert s[2..] == [];
    TrailingRejected(s, 1);
  }

  /** An identifier (`tests/parsing_tests.rs` line 92). */
  lemma Identifier(s: string)
    requires s == "abc"
    ensures ExpressionValue(s).Err? && ExpressionValue(s).error.ParseError?
  {
    ForeignCharRejected(s, 0);
  }

  /** Two operands with no operator between them (`tests/parsing_tests.rs` line 113). */
  lemma AdjacentNumbers(s: string)
    requires s == "2 3"
    ensures ExpressionValue(s).Err? && ExpressionValue(s).error.ParseError?
  {
    var two := Literal(false, "2", []);
    assert ScanDigits(s, 0) == 1;
    assert s[0..1] == "2";
    assert ParseNumber(s, 0) == Ok((two, 1));
    assert ParsePrimary(s, 0) == Ok((Num(two), 1));
    assert SkipSpace(s, 1) == 2;
    assert ParseMulRest(s, 1) == Ok(([], 1));
    assert ParseAddRest(s, 1) == Ok(([], 1));
    assert ParseAdditive(s, 0) == Ok((Additive(Multiplicative(Num(two), []), []), 1));
  }

  /** A doubled sign: there is no unary minus, so only one sign can precede
      the digits (`tests/adversarial_tests.rs` line 113 expects 5). */
  lemma DoubledSign(s: string)
    requires s == "--5"
    ensures ExpressionValue(s).Err? && ExpressionValue(s).error.ParseError?
  {
    assert ScanDigits(s, 1) == 1;
    assert ParseNumber(s, 0).Err?;
    assert ParsePrimary(s, 0).Err?;
    assert ParseMultiplicative(s, 0).Err?;
  }
}
