/** The walkers `evaluate_additive`, `evaluate_multiplicative` and
    `evaluate_primary`, and the entry point `evaluate`.

    Each walker is given twice: as a specification function (a left fold
    over the operands, written as recursion on the operand index) and as a
    method that keeps a mutable accumulator `result` and drains the operands
    in a `while` loop, as the source does.  Each method is proved to return
    what its specification function returns. */
module Evaluator {
  import opened Results
  import opened Syntax
  import Parser

  /** `result += operand` or `result -= operand`. */
  function AddStep(op: AddOp, acc: real, operand: real): real {
    match op
    case Plus => acc + operand
    case Minus => acc - operand
  }

  /** `result *= operand` or `result /= operand`; a quotient is only ever
      formed with a divisor other than zero. */
  function MulStep(op: MulOp, acc: real, operand: real): real
    requires op == Over ==> operand != 0.0
  {
    match op
    case Times => acc * operand
    case Over => acc / operand
  }

  /** The value of a `primary`: a literal's own value, or the value of the
      parenthesised `additive`. */
  function PrimaryValue(p: Primary): Result<real>
    requires ValidPrimary(p)
    decreases p, 0
  {
    match p
    case Num(l) => Ok(LiteralValue(l))
    case Paren(a) => AdditiveValue(a)
  }

  function MultiplicativeValue(m: Multiplicative): Result<real>
    requires ValidMultiplicative(m)
    decreases m, |m.rest| + 1
  {
    var v :- PrimaryValue(m.first);
    MulFold(m, v, 0)
  }

  /** Folds the operands `m.rest[i..]` into the accumulator `acc`, left to
      right; the first failing operand, or the first divisor that is zero,
      ends the fold with an error before any quotient by it is formed. */
  function MulFold(m: Multiplicative, acc: real, i: nat): Result<real>
    requires ValidMultiplicative(m) && i <= |m.rest|
    decreases m, |m.rest| - i
  {
    if i == |m.rest| then Ok(acc)
    else
      var operand :- PrimaryValue(m.rest[i].1);
      if m.rest[i].0 == Over && operand == 0.0 then Err(DivisionByZero)
      else MulFold(m, MulStep(m.rest[i].0, acc, operand), i + 1)
  }

  function AdditiveValue(a: Additive): Result<real>
    requires ValidAdditive(a)
    decreases a, |a.rest| + 1
  {
    var v :- MultiplicativeValue(a.first);
    AddFold(a, v, 0)
  }

  /** Folds the operands `a.rest[i..]` into the accumulator `acc`, left to
      right; the first failing operand ends the fold with its error. */
  function AddFold(a: Additive, acc: real, i: nat): Result<real>
    requires ValidAdditive(a) && i <= |a.rest|
    decreases a, |a.rest| - i
  {
    if i == |a.rest| then Ok(acc)
    else
      var operand :- MultiplicativeValue(a.rest[i].1);
      AddFold(a, AddStep(a.rest[i].0, acc, operand), i + 1)
  }

  /* An error in any operand ends the evaluation with an error. */

  /** A failing operand, or a zero divisor, at or after position `i` makes the fold from `i` fail. */
  lemma {:induction false} MulFoldFails(m: Multiplicative, acc: real, i: nat, k: nat)
    requires ValidMultiplicative(m) && i <= k < |m.rest|
    requires PrimaryValue(m.rest[k].1).Err? || (m.rest[k].0 == Over && PrimaryValue(m.rest[k].1) == Ok(0.0))
    ensures MulFold(m, acc, i).Err?
    decreases k - i
  {
    if i < k {
      var operand := PrimaryValue(m.rest[i].1);
      if operand.Ok? && !(m.rest[i].0 == Over && operand.value == 0.0) {
        MulFoldFails(m, MulStep(m.rest[i].0, acc, operand.value), i + 1, k);
      }
    }
  }

  /** Any failing operand of a `multiplicative`, or any zero divisor, makes it fail. */
  lemma MultiplicativeFails(m: Multiplicative, k: nat)
    requires ValidMultiplicative(m) && k < |m.rest|
    requires PrimaryValue(m.rest[k].1).Err? || (m.rest[k].0 == Over && PrimaryValue(m.rest[k].1) == Ok(0.0))
    ensures MultiplicativeValue(m).Err?
  {
    if PrimaryValue(m.first).Ok? {
      MulFoldFails(m, PrimaryValue(m.first).value, 0, k);
    }
  }

  /** A failing first operand of a `multiplicative` is its error. */
  lemma FirstPrimaryFails(m: Multiplicative)
    requires ValidMultiplicative(m) && PrimaryValue(m.first).Err?
    ensures MultiplicativeValue(m) == Err(PrimaryValue(m.first).error)
  {
  }

  lemma {:induction false} AddFoldFails(a: Additive, acc: real, i: nat, k: nat)
    requires ValidAdditive(a) && i <= k < |a.rest| && MultiplicativeValue(a.rest[k].1).Err?
    ensures AddFold(a, acc, i).Err?
    decreases k - i
  {
    if i < k {
      var operand := MultiplicativeValue(a.rest[i].1);
      if operand.Ok? {
        AddFoldFails(a, AddStep(a.rest[i].0, acc, operand.value), i + 1, k);
      }
    }
  }

  /** Any failing operand of an `additive` makes it fail. */
  lemma AdditiveFails(a: Additive, k: nat)
    requires ValidAdditive(a) && k < |a.rest| && MultiplicativeValue(a.rest[k].1).Err?
    ensures AdditiveValue(a).Err?
  {
    if MultiplicativeValue(a.first).Ok? {
      AddFoldFails(a, MultiplicativeValue(a.first).value, 0, k);
    }
  }

  /** A failing first operand of an `additive` is its error. */
  lemma FirstMultiplicativeFails(a: Additive)
    requires ValidAdditive(a) && MultiplicativeValue(a.first).Err?
    ensures AdditiveValue(a) == Err(MultiplicativeValue(a.first).error)
  {
  }

  /** What `evaluate` computes: parse the whole input with the `expr` rule,
      then the value of the additive it holds. */
  function ExpressionValue(s: string): Result<real> {
    var a :- Parser.ParseExpr(s);
    AdditiveValue(a)
  }

  /** `evaluate`: a parse error is returned as it is; otherwise the walker
      runs over the additive the parse produced. */
  method Evaluate(s: string) returns (r: Result<real>)
    ensures r == ExpressionValue(s)
  {
    var parsed := Parser.ParseExpr(s);
    if parsed.Err? {
      return Err(parsed.error);
    }
    r := EvaluateAdditive(parsed.value);
  }

  method EvaluatePrimary(p: Primary) returns (r: Result<real>)
    requires ValidPrimary(p)
    ensures r == PrimaryValue(p)
    decreases p, 0
  {
    match p
    case Num(l) =>
      r := Ok(LiteralValue(l));
    case Paren(a) =>
      r := EvaluateAdditive(a);
  }

  method EvaluateMultiplicative(m: Multiplicative) returns (r: Result<real>)
    requires ValidMultiplicative(m)
    ensures r == MultiplicativeValue(m)
    decreases m, |m.rest| + 1
  {
    var result :- EvaluatePrimary(m.first);
    var i := 0;
    while i < |m.rest|
      invariant i <= |m.rest|
      invariant MulFold(m, result, i) == MultiplicativeValue(m)
    {
      var op, p := m.rest[i].0, m.rest[i].1;
      var operand :- EvaluatePrimary(p);
      ghost var prev := result;
      match op {
        case Times =>
          result := result * operand;
        case Over =>
          if operand == 0.0 {
            return Err(DivisionByZero);
          }
          result := result / operand;
      }
      assert result == MulStep(op, prev, operand);
      i := i + 1;
    }
    r := Ok(result);
  }

  method EvaluateAdditive(a: Additive) returns (r: Result<real>)
    requires ValidAdditive(a)
    ensures r == AdditiveValue(a)
    decreases a, |a.rest| + 1
  {
    var result :- EvaluateMultiplicative(a.first);
    var i := 0;
    while i < |a.rest|
      invariant i <= |a.rest|
      invariant AddFold(a, result, i) == AdditiveValue(a)
    {
      var op, m := a.rest[i].0, a.rest[i].1;
      var operand :- EvaluateMultiplicative(m);
      match op {
        case Plus =>
          result := result + operand;
        case Minus =>
          result := result - operand;
      }
      i := i + 1;
    }
    r := Ok(result);
  }
}
