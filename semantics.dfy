/** An independent reference for what an expression means: a binary tree
    of the four operations over its literals' values, evaluated by structural
    recursion, left operand first.  A parse tree is lowered to it by nesting
    each run of operands to the LEFT (`a - b - c` is `(a - b) - c`), and the
    walkers' left folds are proved to compute the value of that tree.  The
    shape of the lowered tree then states precedence and associativity. */
module Semantics {
  import opened Results
  import opened Syntax
  import opened Evaluator

  datatype BinOp = Add | Sub | Mul | Div

  datatype Expr = Lit(value: real) | Bin(op: BinOp, left: Expr, right: Expr)

  /** The value of a binary tree; a quotient by zero is an error, and the
      first error met, left operand first, is the result. */
  function Denote(e: Expr): Result<real> {
    match e
    case Lit(v) => Ok(v)
    case Bin(op, l, r) =>
      var x :- Denote(l);
      var y :- Denote(r);
      Apply(op, x, y)
  }

  /** One operation on two values; only a quotient by zero fails. */
  function Apply(op: BinOp, x: real, y: real): (r: Result<real>)
    ensures r.Err? <==> op == Div && y == 0.0
    ensures r.Err? ==> r.error == DivisionByZero
  {
    match op
    case Add => Ok(x + y)
    case Sub => Ok(x - y)
    case Mul => Ok(x * y)
    case Div => if y == 0.0 then Err(DivisionByZero) else Ok(x / y)
  }

  /** The walkers' steps are the reference operations. */
  lemma AddApply(op: AddOp, x: real, y: real)
    ensures Apply(AddBinOp(op), x, y) == Ok(AddStep(op, x, y))
  {
  }

  lemma MulApply(op: MulOp, x: real, y: real)
    ensures op == Over && y == 0.0 ==> Apply(MulBinOp(op), x, y) == Err(DivisionByZero)
    ensures !(op == Over && y == 0.0) ==> Apply(MulBinOp(op), x, y) == Ok(MulStep(op, x, y))
  {
  }

  /** Some quotient in `e` has a divisor whose value is zero. */
  predicate DividesByZero(e: Expr) {
    match e
    case Lit(_) => false
    case Bin(op, l, r) => DividesByZero(l) || DividesByZero(r) || (op == Div && Denote(r) == Ok(0.0))
  }

  /** Evaluation fails exactly when some divisor is zero, and the only error is `DivisionByZero`. */
  lemma {:induction false} DenoteFails(e: Expr)
    ensures Denote(e).Err? <==> DividesByZero(e)
    ensures Denote(e).Err? ==> Denote(e).error == DivisionByZero
  {
    match e
    case Lit(_) =>
    case Bin(op, l, r) =>
      DenoteFails(l);
      DenoteFails(r);
  }

  function AddBinOp(op: AddOp): BinOp {
    if op == Plus then Add else Sub
  }

  function MulBinOp(op: MulOp): BinOp {
    if op == Times then Mul else Div
  }

  function LowerPrimary(p: Primary): Expr
    requires ValidPrimary(p)
    decreases p, 0
  {
    match p
    case Num(l) => Lit(LiteralValue(l))
    case Paren(a) => LowerAdditive(a)
  }

  function LowerMultiplicative(m: Multiplicative): Expr
    requires ValidMultiplicative(m)
    decreases m, |m.rest| + 2
  {
    MulChain(m, |m.rest|)
  }

  /** The first `n` operators of `m` and their operands, nested to the left. */
  function MulChain(m: Multiplicative, n: nat): Expr
    requires ValidMultiplicative(m) && n <= |m.rest|
    decreases m, n + 1
  {
    if n == 0 then LowerPrimary(m.first)
    else Bin(MulBinOp(m.rest[n - 1].0), MulChain(m, n - 1), LowerPrimary(m.rest[n - 1].1))
  }

  function LowerAdditive(a: Additive): Expr
    requires ValidAdditive(a)
    decreases a, |a.rest| + 2
  {
    AddChain(a, |a.rest|)
  }

  /** The first `n` operators of `a` and their operands, nested to the left. */
  function AddChain(a: Additive, n: nat): Expr
    requires ValidAdditive(a) && n <= |a.rest|
    decreases a, n + 1
  {
    if n == 0 then LowerMultiplicative(a.first)
    else Bin(AddBinOp(a.rest[n - 1].0), AddChain(a, n - 1), LowerMultiplicative(a.rest[n - 1].1))
  }

  /* The walkers compute the value of the lowered tree. */

  lemma {:induction false} PrimaryMeaning(p: Primary)
    requires ValidPrimary(p)
    ensures PrimaryValue(p) == Denote(LowerPrimary(p))
    decreases p, 0
  {
    match p
    case Num(_) =>
    case Paren(a) => AdditiveMeaning(a);
  }

  lemma {:induction false} MultiplicativeMeaning(m: Multiplicative)
    requires ValidMultiplicative(m)
    ensures MultiplicativeValue(m) == Denote(LowerMultiplicative(m))
    decreases m, |m.rest| + 2
  {
    PrimaryMeaning(m.first);
    MulChainFold(m, 0);
  }

  /** Folding the operands from `i` on into the value of the first `i` gives
      the value of the whole chain. */
  lemma {:induction false} MulChainFold(m: Multiplicative, i: nat)
    requires ValidMultiplicative(m) && i <= |m.rest|
    ensures Denote(MulChain(m, |m.rest|)) == (var v :- Denote(MulChain(m, i)); MulFold(m, v, i))
    decreases m, |m.rest| - i
  {
    if i < |m.rest| {
      PrimaryMeaning(m.rest[i].1);
      MulChainFold(m, i + 1);
      var v := Denote(MulChain(m, i));
      var operand := PrimaryValue(m.rest[i].1);
      if v.Ok? && operand.Ok? {
        MulApply(m.rest[i].0, v.value, operand.value);
      }
    }
  }

  lemma {:induction false} AdditiveMeaning(a: Additive)
    requires ValidAdditive(a)
    ensures AdditiveValue(a) == Denote(LowerAdditive(a))
    decreases a, |a.rest| + 2
  {
    MultiplicativeMeaning(a.first);
    AddChainFold(a, 0);
  }

  lemma {:induction false} AddChainFold(a: Additive, i: nat)
    requires ValidAdditive(a) && i <= |a.rest|
    ensures Denote(AddChain(a, |a.rest|)) == (var v :- Denote(AddChain(a, i)); AddFold(a, v, i))
    decreases a, |a.rest| - i
  {
    if i < |a.rest| {
      MultiplicativeMeaning(a.rest[i].1);
      AddChainFold(a, i + 1);
      var v := Denote(AddChain(a, i));
      var operand := MultiplicativeValue(a.rest[i].1);
      if v.Ok? && operand.Ok? {
        AddApply(a.rest[i].0, v.value, operand.value);
      }
    }
  }

  /* Precedence and associativity, as the shape of the lowered tree. */

  /** No operand of the tree is a parenthesised group. */
  predicate ParenFree(a: Additive) {
    (a.first.first.Num? && forall k :: 0 <= k < |a.first.rest| ==> a.first.rest[k].1.Num?)
    && forall i :: 0 <= i < |a.rest| ==>
         a.rest[i].1.first.Num? && forall k :: 0 <= k < |a.rest[i].1.rest| ==> a.rest[i].1.rest[k].1.Num?
  }

  /** A product: a literal, or a product times or over a literal. */
  predicate IsProduct(e: Expr) {
    match e
    case Lit(_) => true
    case Bin(op, l, r) => (op == Mul || op == Div) && IsProduct(l) && r.Lit?
  }

  /** A sum: a product, or a sum plus or minus a product. */
  predicate IsSum(e: Expr) {
    IsProduct(e) || (e.Bin? && (e.op == Add || e.op == Sub) && IsSum(e.left) && IsProduct(e.right))
  }

  /** Without parentheses, `*` and `/` bind tighter than `+` and `-` (no sum
      is ever an operand of a product), and both levels nest to the left
      (the right operand of a sum is a product, that of a product a literal). */
  lemma ParenFreeShape(a: Additive)
    requires ValidAdditive(a) && ParenFree(a)
    ensures IsSum(LowerAdditive(a))
  {
    AddChainShape(a, |a.rest|);
  }

  lemma {:induction false} MulChainShape(m: Multiplicative, n: nat)
    requires ValidMultiplicative(m) && n <= |m.rest|
    requires m.first.Num? && forall k :: 0 <= k < |m.rest| ==> m.rest[k].1.Num?
    ensures IsProduct(MulChain(m, n))
  {
    if n > 0 {
      MulChainShape(m, n - 1);
    }
  }

  lemma {:induction false} AddChainShape(a: Additive, n: nat)
    requires ValidAdditive(a) && ParenFree(a) && n <= |a.rest|
    ensures IsSum(AddChain(a, n))
  {
    if n == 0 {
      MulChainShape(a.first, |a.first.rest|);
    } else {
      AddChainShape(a, n - 1);
      MulChainShape(a.rest[n - 1].1, |a.rest[n - 1].1.rest|);
    }
  }
}
