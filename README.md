# calculate-mcp arithmetic evaluator, modelled in Dafny

`compute_mcp::evaluate` takes an arithmetic expression as a string and returns
its value or an error. It works in two stages:

- The pest parser `ComputeParser` reads the expression with the grammar in
  `compute.pest`. That file is not part of this model: `src/lib.rs:5-7` only
  names it. The grammar modelled here is reconstructed from what the code and
  the tests require:
  - `expr = SOI additive EOI`, `additive = multiplicative (("+"|"-") multiplicative)*`,
    `multiplicative = primary (("*"|"/") primary)*` and `primary = number | "(" additive ")"`.
    The rule names and their nesting come from the walkers, which look for
    `additive` under `expr` and `number` or `additive` under `primary`
    (`src/lib.rs:22`, `src/lib.rs:69-83`).
  - `number = "-"? digit+ ("." digit+)?`, with the sign inside the number:
    `"-5"`, `"-3 + 5"` and `"10 + -3"` evaluate (`src/lib.rs:127-129`).
  - There is no unary-minus rule, because a pair of any other rule would reach
    the `unreachable!` arms at `src/lib.rs:83` and `src/lib.rs:86`.
  - Spaces, tabs, `\n` and `\r` may come between tokens but not inside a
    number (`tests/evaluation_tests.rs:137-138`, `tests/adversarial_tests.rs:102-105`).
- Three walkers fold the parse tree, left to right. The additive walker calls the
  multiplicative walker, and that one calls the primary walker. A divisor equal to
  zero stops evaluation with a division-by-zero error. The first error from any
  operand becomes the result.

The model has these parts:

- **results.dfy** defines the two errors, a parse error and a division by zero.
  The result type works with `:-`.
- **syntax.dfy** defines literals and their exact decimal values, plus parse
  trees, tokens and *spelling*. Spelling writes a token list with any whitespace
  before each token.
- **parser.dfy** is a recursive-descent reading of the grammar. Each rule is a
  function from a string position to a tree and the end position.
- **evaluator.dfy** has the walkers as `while`-loop methods. Each is proved
  against a fold function over the tree.
- **semantics.dfy** is an independent reference evaluator over binary trees. A
  parse tree lowers to a binary tree by nesting each operator run to the left.
  The folds compute the value of that tree, so the tree's shape states precedence
  and associativity.
- **parser_proofs.dfy** and **parser_sound.dfy** prove the parser correct in both
  directions:
  - every spelling of a tree parses back to that tree;
  - every accepted input is a spelling of the tree it parses to.
- **language.dfy** states the accepted language without the parser:
  - input is accepted exactly when it writes some tree;
  - no input writes two trees.
- **properties.dfy** states what `evaluate` promises for whole strings:
  - whitespace does not matter;
  - `*` and `/` bind tighter than `+` and `-`, and each level folds left to right;
  - parentheses group, and redundant ones change nothing;
  - a zero divisor at any depth fails;
  - some algebraic laws hold.
- **rejection.dfy** gives conditions on raw strings that guarantee a parse error:
  - nothing that can start an operand;
  - a last character that cannot end one;
  - a character outside the alphabet;
  - unbalanced parentheses.
- **scenarios.dfy** states the concrete expressions that the source's tests
  evaluate, as lemmas about the model.

Values are Dafny `real`s, so arithmetic is exact. The source computes with `f64`.

## Model

| member | source | states |
|---|---|---|
| Parser.SkipSpace | src/lib.rs:5-7 | skips the grammar's implicit whitespace: the result is the first non-whitespace position at or after the start |
| Parser.ScanDigits | src/lib.rs:5-7 | the `digit+` run: everything scanned is a digit, and the next character is not |
| Parser.ParseNumber | src/lib.rs:5-7 | `number` reads a valid literal and advances, or fails with a parse error |
| Parser.ParsePrimary | src/lib.rs:5-7 | `primary` reads a valid number or a parenthesised group and advances, or fails with a parse error |
| Parser.ParseMultiplicative | src/lib.rs:5-7 | `multiplicative` reads a valid tree and advances, or fails with a parse error |
| Parser.ParseMulRest | src/lib.rs:5-7 | the `*`/`/` repetition reads valid operands, or fails with a parse error |
| Parser.ParseAdditive | src/lib.rs:5-7 | `additive` reads a valid tree and advances, or fails with a parse error |
| Parser.ParseAddRest | src/lib.rs:5-7 | the `+`/`-` repetition reads valid operands, or fails with a parse error |
| Parser.ParseExpr | src/lib.rs:11-12 | `expr` gives a valid tree that spans the input, or a parse error |
| Evaluator.Evaluate | src/lib.rs:10-27 | the method returns the parse error, or the additive walker's value on the parsed tree |
| Evaluator.EvaluateAdditive | src/lib.rs:29-44 | the loop computes the left fold of `+`/`-` over the operands, and stops at the first failing operand |
| Evaluator.EvaluateMultiplicative | src/lib.rs:46-66 | the loop computes the left fold of `*`/`/`, and fails on the first zero divisor or failing operand |
| Evaluator.EvaluatePrimary | src/lib.rs:68-88 | a number gives its literal value; a group gives the value of the additive inside |
| Evaluator.MulFoldFails | src/lib.rs:51-58 | a failing operand or zero divisor anywhere after the fold position makes the fold fail |
| Evaluator.MultiplicativeFails | src/lib.rs:48-58 | any failing operand after the first, or any zero divisor, makes a multiplicative fail |
| Evaluator.FirstPrimaryFails | src/lib.rs:48 | a failing first operand makes a multiplicative fail with the same error |
| Evaluator.AddFoldFails | src/lib.rs:34-35 | a failing operand anywhere after the fold position makes the fold fail |
| Evaluator.AdditiveFails | src/lib.rs:31-35 | any failing operand after the first makes an additive fail |
| Evaluator.FirstMultiplicativeFails | src/lib.rs:31 | a failing first operand makes an additive fail with the same error |
| Semantics.Apply | src/lib.rs:36-62 | one operation fails exactly for a quotient by zero, and then with `DivisionByZero` |
| Semantics.AddApply | src/lib.rs:36-40 | the additive walker's step is the reference `+`/`-` |
| Semantics.MulApply | src/lib.rs:53-62 | the multiplicative walker's step is the reference `*`/`/`, and it fails exactly on a zero divisor |
| Semantics.DenoteFails | src/lib.rs:55-58 | a tree's value fails exactly when some divisor in it, at any depth, is zero; the only error is `DivisionByZero` |
| Semantics.PrimaryMeaning | src/lib.rs:68-88 | the primary walker's value is the reference value of the lowered tree |
| Semantics.MultiplicativeMeaning | src/lib.rs:46-66 | the multiplicative walker's value is the reference value of the left-nested tree |
| Semantics.MulChainFold | src/lib.rs:51-63 | folding the remaining operands into the first `i`'s value gives the whole chain's value |
| Semantics.AdditiveMeaning | src/lib.rs:29-44 | the additive walker's value is the reference value of the left-nested tree |
| Semantics.AddChainFold | src/lib.rs:34-41 | folding the remaining operands into the first `i`'s value gives the whole chain's value |
| Semantics.ParenFreeShape | src/lib.rs:29-66 | without parentheses, no sum is an operand of a product, and both levels nest to the left |
| Semantics.MulChainShape | src/lib.rs:46-66 | a run of products over literals lowers to a left-nested product |
| Semantics.AddChainShape | src/lib.rs:29-44 | a run of sums of products lowers to a left-nested sum |
| ParserProofs.NumberComplete | src/lib.rs:5-7 | a literal written at a position, not followed by a digit or by a point and digit, is read back exactly |
| ParserProofs.PrimaryComplete | src/lib.rs:5-7 | any spelling of a primary is parsed back to it, ending at the spelling's end |
| ParserProofs.MultiplicativeComplete | src/lib.rs:5-7 | any spelling of a multiplicative, not followed by `*` or `/`, is parsed back to it |
| ParserProofs.MulRestComplete | src/lib.rs:5-7 | any spelling of the tail of a `*`/`/` run is parsed back to that tail |
| ParserProofs.AdditiveComplete | src/lib.rs:5-7 | any spelling of an additive, not followed by an operator, is parsed back to it |
| ParserProofs.AddRestComplete | src/lib.rs:5-7 | any spelling of the tail of a `+`/`-` run is parsed back to that tail |
| ParserSoundness.NumberSound | src/lib.rs:5-7 | what `number` reads is exactly the literal's text |
| ParserSoundness.PrimarySound | src/lib.rs:5-7 | what `primary` reads is a spelling of the tree it returns |
| ParserSoundness.MultiplicativeSound | src/lib.rs:5-7 | what `multiplicative` reads is a spelling of the tree it returns |
| ParserSoundness.MulRestSound | src/lib.rs:5-7 | what the `*`/`/` repetition reads is a spelling of the operands it returns |
| ParserSoundness.AdditiveSound | src/lib.rs:5-7 | what `additive` reads is a spelling of the tree it returns |
| ParserSoundness.AddRestSound | src/lib.rs:5-7 | what the `+`/`-` repetition reads is a spelling of the operands it returns |
| Language.ExprComplete | src/lib.rs:11-12 | every spelling of a tree, with trailing whitespace, is parsed to that tree |
| Language.ExprSound | src/lib.rs:11-12 | every accepted input is a spelling of the tree it is parsed to, plus trailing whitespace |
| Language.ParseExprMeaning | src/lib.rs:11-12 | the input is parsed to a tree exactly when it writes that tree |
| Language.Unambiguous | src/lib.rs:5-7 | no input writes two different trees |
| Language.RejectedMeaning | src/lib.rs:11-12 | the input is rejected exactly when it writes no tree |
| Properties.WrittenValue | src/lib.rs:10-27 | any written tree evaluates to the reference value of its lowered tree |
| Properties.WhitespaceIrrelevant | tests/property_tests.rs:171-182 | two layouts of the same tree evaluate alike |
| Properties.ValueMeaning | src/lib.rs:10-27 | a value is returned exactly when the input writes a tree with that reference value |
| Properties.ParseErrorMeaning | src/lib.rs:11-12 | a parse error is returned exactly when the input writes no tree |
| Properties.DivisionByZeroMeaning | src/lib.rs:55-58 | a division by zero is returned exactly when the written tree has a zero divisor at some depth |
| Properties.SingleLiteral | tests/property_tests.rs:55-59 | a lone number evaluates to its own value |
| Properties.SumOfTwo | src/lib.rs:36-38 | `x + y` and `x - y` evaluate to the reference sum and difference |
| Properties.ProductOfTwo | src/lib.rs:53-60 | `x * y` and `x / y` evaluate to the reference product and quotient, with a zero `y` failing |
| Properties.AdditiveLeftToRight | tests/evaluation_tests.rs:73-78 | `x o1 y o2 z` with additive operators is `(x o1 y) o2 z` |
| Properties.MultiplicativeLeftToRight | tests/adversarial_tests.rs:127-130 | `x o1 y o2 z` with multiplicative operators is `(x o1 y) o2 z` |
| Properties.ProductBindsTighterRight | tests/property_tests.rs:102-106 | `x ± y ×/÷ z` is `x ± (y ×/÷ z)` |
| Properties.ProductBindsTighterLeft | tests/evaluation_tests.rs:39-45 | `x ×/÷ y ± z` is `(x ×/÷ y) ± z` |
| Properties.GroupTimesLiteral | src/lib.rs:113 | `(x ± y) ×/÷ z` multiplies or divides the group's value |
| Properties.LiteralTimesGroup | src/lib.rs:114 | `x ×/÷ (y ± z)` multiplies or divides by the group's value |
| Properties.ZeroDivisorFromGroup | tests/evaluation_tests.rs:155-156 | `x / (y - y)` is a division by zero |
| Properties.WrapFacts | tests/adversarial_tests.rs:56-63 | `n` groups around a tree are written as `n` opening parentheses, the tree and `n` closing ones, and lower to the same tree |
| Properties.RedundantParentheses | tests/property_tests.rs:148-153 | any number of parentheses around an expression leave its value unchanged |
| Properties.ParenthesisedLiteral | tests/evaluation_tests.rs:64-65 | a number inside `n` parentheses evaluates to its own value |
| Properties.SumCommutes | tests/property_tests.rs:62-67 | `x + y` and `y + x` evaluate alike |
| Properties.ProductCommutes | tests/property_tests.rs:70-75 | `x * y` and `y * x` evaluate alike |
| Properties.DifferenceIsSumOfNegation | tests/property_tests.rs:129-134 | `x - y` and `x + -y` evaluate alike |
| Properties.Identities | tests/property_tests.rs:115-126 | adding a zero, or multiplying or dividing by a one, gives the other operand |
| Properties.ZeroDivisor | tests/property_tests.rs:109-112 | dividing by any literal of value zero is a division by zero |
| Rejection.LeadingRejected | tests/parsing_tests.rs:8 | input with no operand start (`(`, `-` or a digit) after leading whitespace is a parse error |
| Rejection.PrimaryEnds | src/lib.rs:5-7 | a primary's tokens end with a number or `)` |
| Rejection.MultiplicativeEnds | src/lib.rs:5-7 | a multiplicative's tokens end with a number or `)` |
| Rejection.AdditiveEnds | src/lib.rs:5-7 | an additive's tokens end with a number or `)` |
| Rejection.LiteralEnds | src/lib.rs:5-7 | a number's text ends with a digit |
| Rejection.SpellEnds | src/lib.rs:5-7 | a spelling ends with the last token's last character |
| Rejection.WrittenEnds | src/lib.rs:5-7 | in accepted input, the last non-whitespace character is a digit or `)` |
| Rejection.TrailingRejected | tests/parsing_tests.rs:7 | input whose last non-whitespace character is not a digit or `)` is a parse error |
| Rejection.AdditiveTokensWellFormed | src/lib.rs:5-7 | a tree's tokens hold valid literals and equally many `(` and `)` |
| Rejection.SpellChars | src/lib.rs:5-7 | a spelling uses only digits, `-+*/().` and whitespace, with as many `(` as `(` tokens |
| Rejection.WrittenChars | src/lib.rs:5-7 | accepted input uses only the alphabet and balances its parentheses |
| Rejection.ForeignCharRejected | tests/parsing_tests.rs:90-108 | input holding a character outside the alphabet is a parse error |
| Rejection.UnbalancedRejected | tests/parsing_tests.rs:46-55 | input with unequal numbers of `(` and `)` is a parse error |
| Scenarios.FortyTwo | src/lib.rs:97 | `"42"` evaluates to 42 |
| Scenarios.TwoPlusThree | src/lib.rs:98 | `"2 + 3"` evaluates to 5 |
| Scenarios.TenMinusFour | src/lib.rs:99 | `"10 - 4"` evaluates to 6 |
| Scenarios.ThreeTimesFour | src/lib.rs:100 | `"3 * 4"` evaluates to 12 |
| Scenarios.FifteenOverThree | src/lib.rs:101 | `"15 / 3"` evaluates to 5 |
| Scenarios.Decimal | src/lib.rs:120 | `"3.14"` evaluates to 3.14 |
| Scenarios.DecimalTimesFour | src/lib.rs:121 | `"2.5 * 4"` evaluates to 10 |
| Scenarios.TenOverFour | src/lib.rs:122 | `"10 / 4"` evaluates to 2.5 |
| Scenarios.MinusFive | src/lib.rs:127 | `"-5"` evaluates to -5 |
| Scenarios.NegativeFirst | src/lib.rs:128 | `"-3 + 5"` evaluates to 2 |
| Scenarios.NegativeOperand | src/lib.rs:129 | `"10 + -3"` evaluates to 7 |
| Scenarios.FiveOverZero | src/lib.rs:134 | `"5 / 0"` is a division by zero |
| Scenarios.EmptyInput | tests/evaluation_tests.rs:168-171 | `""` is rejected, as a parse error |
| Scenarios.BlankInput | tests/evaluation_tests.rs:173-176 | `"   "` is rejected, as a parse error |
| Scenarios.TrailingOperator | tests/parsing_tests.rs:7 | `"2 +"` is a parse error |
| Scenarios.LeadingOperator | tests/parsing_tests.rs:8 | `"+ 3"` is a parse error |
| Scenarios.UnclosedGroup | tests/parsing_tests.rs:48 | `"(2 + 3"` is a parse error |
| Scenarios.EmptyGroup | tests/parsing_tests.rs:53 | `"()"` is a parse error |
| Scenarios.TwoPoints | tests/parsing_tests.rs:69 | `"2.3.4"` is a parse error |
| Scenarios.Exponent | tests/parsing_tests.rs:70 | `"2e10"` is a parse error |
| Scenarios.BarePointFirst | tests/parsing_tests.rs:74 | `".5"` is a parse error |
| Scenarios.BarePointLast | tests/parsing_tests.rs:75 | `"5."` is a parse error |
| Scenarios.Identifier | tests/parsing_tests.rs:92 | `"abc"` is a parse error |
| Scenarios.AdjacentNumbers | tests/parsing_tests.rs:113 | `"2 3"` is a parse error |
| Scenarios.DoubledSign | tests/adversarial_tests.rs:113 | `"--5"` is a parse error; the grammar has no unary minus |

## Left out

- The binaries `src/bin/stdio_direct.rs` and `src/bin/compute.rs`, which wrap `evaluate` as a tool server. They do I/O and JSON and are not part of this model.
- `f64` arithmetic: values are exact reals. The model leaves out rounding, overflow to infinity and `-0.0`. The zero test `operand == 0.0` is modelled as an exact test, which agrees with IEEE-754 for both zeros. `Properties.DivisionByZeroMeaning` and `Semantics.DenoteFails` are therefore about exact values: `"1 / (0.1 + 0.2 - 0.3)"` is a division by zero in the model but about 1.8e16 in `f64`, and a divisor that underflows to zero in `f64` fails there but has a value in the model.
- `str::parse::<f64>` on a number token is modelled as the token's exact decimal value. Its rounding and its never-taken "Invalid number" error are not modelled.
- The text of pest's error messages. A parse error carries only a position, and no lemma fixes that position.
- The "Expected additive rule" branch and the `unreachable!` arms of the walkers. The tree types make them impossible, so they have no counterpart.
- The recursive-descent parser commits to the first alternative that starts, where pest's PEG backtracks. Both accept the same inputs, because an operator not followed by an operand makes the whole `expr` fail either way. The proof that this holds is against the grammar's language in language.dfy, not against pest itself.
- The tests also call APIs that are not in `src/lib.rs`, and these are not part of this model:
  - an AST with `Neg`;
  - `Display`;
  - the `Expression` wrapper;
  - `evaluate_batch` and `eval_expr`;
  - an error enum with `EmptyExpression`.
- The code disagrees with the tests in several places, and the model follows the code:
  - Empty or blank input is a parse error here (`EmptyInput`, `BlankInput`); the tests expect `EmptyExpression`.
  - `"--5"`, `"-(2 + 3)"` and `"1 - - 2"` are rejected because the grammar has no unary minus.
- Scientific notation is a policy chosen here, since no code in `src/lib.rs` decides it: `"1e10"` is rejected, as `tests/parsing_tests.rs:70` expects, while `tests/adversarial_tests.rs:171-172` expects it to be accepted.
- Nesting depth: pest's parser and the walkers recurse without a bound (`src/lib.rs:82` calls back into `evaluate_additive`), so deeply nested input can overflow the stack and abort. The model returns a result at any depth.
- The concrete tests with five or more tokens (for example `"2 + 3 * 4"`, `"(2 + 3) * 4"`, `"((1 + 2) * 3) + 4"`) are covered only by the general lemmas for any literals and layout: `ProductBindsTighterRight`, `GroupTimesLiteral`, `RedundantParentheses` and so on. They have no scenario lemma of their own.
- Properties.SumCommutes: stated for two literal operands only, where the tests use arbitrary numbers. It holds exactly, not within the tests' tolerance of 0.0001.
- Properties.ProductCommutes: stated for two literal operands only, where the tests use arbitrary numbers.
- Properties.DifferenceIsSumOfNegation: stated for literal operands only. The subtrahend must be unsigned, since `x + --y` is rejected.
- Properties.Identities: stated for literal operands only, and for the zero or one on the right.
