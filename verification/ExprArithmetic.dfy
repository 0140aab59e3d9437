/** Arithmetic and order of the expression language, as laws over its values. */
module ExprArithmetic {
  import opened Wrappers
  import opened ExprAst
  import opened ExprEval

  const ARITHMETIC: set<BinOp> := {Add, Sub, Mul, Div, FloorDiv, Mod}

  // Two results with one numerical value.
  ghost predicate Agree(x: Outcome, y: Outcome) {
    x.Ok? && y.Ok? && IsNumber(x.value) && IsNumber(y.value) && AsReal(x.value) == AsReal(y.value)
  }

  // Applied to a result.
  function Then(x: Outcome, op: BinOp, y: Outcome): Outcome
    requires op in ARITHMETIC
  {
    if x.Err? then x else if y.Err? then y else Apply(op, x.value, y.value)
  }

  // Arithmetic succeeds exactly on numbers, and `+` on strings too; a zero divisor is refused. The result is an integer
  // exactly when both operands are and the operator is not `/`.
  lemma ArithmeticDefined(op: BinOp, a: Value, b: Value)
    requires op in ARITHMETIC
    ensures var r, divides := Apply(op, a, b), op in {Div, FloorDiv, Mod};
      && (r == Err(TypeMismatch) <==> !(IsNumber(a) && IsNumber(b)) && !(op.Add? && a.VStr? && b.VStr?))
      && (r == Err(ZeroDivision) <==> IsNumber(a) && IsNumber(b) && divides && AsReal(b) == 0.0)
      && (r.Err? ==> r.error in {TypeMismatch, ZeroDivision})
      && (r.Ok? && !r.value.VStr? ==> IsNumber(r.value) && (r.value.VInt? <==> a.VInt? && b.VInt? && !op.Div?))
  {
  }

  // `+` is commutative and associative with unit zero, on integers, floats and mixtures of them.
  lemma Addition(a: Value, b: Value, c: Value)
    requires IsNumber(a) && IsNumber(b) && IsNumber(c)
    ensures Apply(Add, a, b) == Apply(Add, b, a)
    ensures Apply(Add, a, VInt(0)) == Ok(a)
    ensures Then(Apply(Add, a, b), Add, Ok(c)) == Then(Ok(a), Add, Apply(Add, b, c))
  {
    hide FloorQuotient, FloorRemainder, FloorDivide, Same, Compare;
  }

  // Integer arithmetic and float arithmetic are one arithmetic, that of the reals: mixing them changes the kind of a
  // result, never its value.
  function RealOp(op: BinOp, x: real, y: real): real
    requires op in {Add, Sub, Mul} || (op.Div? && y != 0.0)
  {
    match op
    case Add => x + y
    case Sub => x - y
    case Mul => x * y
    case _ => x / y
  }

  lemma OneArithmetic(op: BinOp, a: Value, b: Value)
    requires IsNumber(a) && IsNumber(b) && (op in {Add, Sub, Mul} || (op.Div? && AsReal(b) != 0.0))
    ensures var r := Apply(op, a, b);
      r.Ok? && IsNumber(r.value) && AsReal(r.value) == RealOp(op, AsReal(a), AsReal(b))
  {
    hide FloorQuotient, FloorRemainder, FloorDivide, Same, Compare;
    if op.Mul? && a.VInt? && b.VInt? {
      ProductIsReal(a.i, b.i);
    }
  }

  lemma {:induction false} NatProductIsReal(a: nat, b: int)
    ensures (a * b) as real == a as real * b as real
    decreases a
  {
    if a > 0 {
      NatProductIsReal(a - 1, b);
      assert a * b == (a - 1) * b + b;
    }
  }

  lemma ProductIsReal(a: int, b: int)
    ensures (a * b) as real == a as real * b as real
  {
    if a >= 0 {
      NatProductIsReal(a, b);
    } else {
      NatProductIsReal(-a, b);
      assert a * b == -(-a * b);
    }
  }

  // `-` undoes `+`, and a number and its negative cancel.
  lemma Subtraction(a: Value, b: Value)
    requires IsNumber(a) && IsNumber(b)
    ensures Agree(Then(Apply(Sub, a, b), Add, Ok(b)), Ok(a))
    ensures Agree(Then(Apply(Add, a, b), Sub, Ok(b)), Ok(a))
    ensures ApplyUnary(Neg, a).Ok? && Agree(Apply(Add, a, ApplyUnary(Neg, a).value), Ok(VInt(0)))
    ensures ApplyUnary(Pos, a) == Ok(a)
  {
    hide Apply;
    OneArithmetic(Sub, a, b);
    OneArithmetic(Add, Apply(Sub, a, b).value, b);
    OneArithmetic(Add, a, b);
    OneArithmetic(Sub, Apply(Add, a, b).value, b);
    OneArithmetic(Add, a, ApplyUnary(Neg, a).value);
  }

  // `*` is commutative with unit one and distributes over `+`.
  lemma Multiplication(a: Value, b: Value, c: Value)
    requires IsNumber(a) && IsNumber(b) && IsNumber(c)
    ensures Apply(Mul, a, b) == Apply(Mul, b, a)
    ensures Apply(Mul, a, VInt(1)) == Ok(a)
    ensures Agree(Then(Ok(a), Mul, Apply(Add, b, c)), Then(Apply(Mul, a, b), Add, Apply(Mul, a, c)))
  {
    ProductsCommute(a, b);
    ProductsDistribute(a, b, c);
    TimesOne(a);
    hide *;
  }

  lemma ProductsCommute(a: Value, b: Value)
    requires IsNumber(a) && IsNumber(b)
    ensures Apply(Mul, a, b) == Apply(Mul, b, a)
  {
  }

  lemma TimesOne(a: Value)
    requires IsNumber(a)
    ensures Apply(Mul, a, VInt(1)) == Ok(a)
  {
  }

  lemma ProductsDistribute(a: Value, b: Value, c: Value)
    requires IsNumber(a) && IsNumber(b) && IsNumber(c)
    ensures Agree(Then(Ok(a), Mul, Apply(Add, b, c)), Then(Apply(Mul, a, b), Add, Apply(Mul, a, c)))
  {
    hide Apply;
    OneArithmetic(Add, b, c);
    OneArithmetic(Mul, a, Apply(Add, b, c).value);
    OneArithmetic(Mul, a, b);
    OneArithmetic(Mul, a, c);
    OneArithmetic(Add, Apply(Mul, a, b).value, Apply(Mul, a, c).value);
    RealsDistribute(AsReal(a), AsReal(b), AsReal(c));
    hide RealOp, AsReal;
  }

  lemma RealsDistribute(x: real, y: real, z: real)
    ensures RealOp(Mul, x, RealOp(Add, y, z)) == RealOp(Add, RealOp(Mul, x, y), RealOp(Mul, x, z))
  {
  }

  // `/` undoes `*`.
  lemma Division(a: Value, b: Value)
    requires IsNumber(a) && IsNumber(b) && AsReal(b) != 0.0
    ensures Agree(Then(Apply(Div, a, b), Mul, Ok(b)), Ok(a))
    ensures Agree(Then(Apply(Mul, a, b), Div, Ok(b)), Ok(a))
  {
    hide Apply;
    OneArithmetic(Div, a, b);
    OneArithmetic(Mul, Apply(Div, a, b).value, b);
    OneArithmetic(Mul, a, b);
    OneArithmetic(Div, Apply(Mul, a, b).value, b);
    RealsDivide(AsReal(a), AsReal(b));
    hide RealOp, AsReal;
  }

  lemma RealsDivide(x: real, y: real)
    requires y != 0.0
    ensures x / y * y == x
    ensures RealOp(Mul, RealOp(Div, x, y), y) == x && RealOp(Div, RealOp(Mul, x, y), y) == x
  {
    assert x / y * y == x && x * y / y == x;
  }

  // Where a float is involved, `//` is whole and `%` lies between zero and the divisor, on the divisor's side.
  lemma FloatFloorDivision(a: Value, b: Value)
    requires IsNumber(a) && IsNumber(b) && !(a.VInt? && b.VInt?) && AsReal(b) != 0.0
    ensures var q, m := Apply(FloorDiv, a, b), Apply(Mod, a, b);
      && q.Ok? && q.value.VFloat? && m.Ok? && m.value.VFloat?
      && q.value.r == q.value.r.Floor as real
      && AsReal(a) == AsReal(b) * q.value.r + m.value.r
      && (if AsReal(b) > 0.0 then 0.0 <= m.value.r < AsReal(b) else AsReal(b) < m.value.r <= 0.0)
  {
    Floored(a, b);
    FloorBetween(AsReal(a), AsReal(b));
    hide Apply, AsReal, FloorQuotient, FloorRemainder;
  }

  lemma Floored(a: Value, b: Value)
    requires IsNumber(a) && IsNumber(b) && !(a.VInt? && b.VInt?) && AsReal(b) != 0.0
    ensures Apply(FloorDiv, a, b) == Ok(VFloat(FloorQuotient(AsReal(a), AsReal(b))))
    ensures Apply(Mod, a, b) == Ok(VFloat(FloorRemainder(AsReal(a), AsReal(b))))
  {
    hide FloorQuotient, FloorRemainder;
  }

  lemma FloorBetween(x: real, y: real)
    requires y != 0.0
    ensures var q, m := FloorQuotient(x, y), FloorRemainder(x, y);
      && q == q.Floor as real && x == y * q + m
      && if y > 0.0 then 0.0 <= m < y else y < m <= 0.0
  {
    RealsDivide(x, y);
    RemainderBetween(x, y, x / y, FloorQuotient(x, y));
  }

  lemma RemainderBetween(x: real, y: real, z: real, f: real)
    requires y != 0.0 && z * y == x && f <= z < f + 1.0
    ensures var m := x - y * f;
      if y > 0.0 then 0.0 <= m < y else y < m <= 0.0
  {
    var d := z - f;
    assert x - y * f == y * d;
    if y > 0.0 {
      ScaledBelow(y, d);
    } else {
      ScaledBelow(-y, d);
      assert -y * d == -(y * d);
    }
  }

  lemma ScaledBelow(y: real, d: real)
    requires y > 0.0 && 0.0 <= d < 1.0
    ensures 0.0 <= y * d < y
  {
    assert y - y * d == y * (1.0 - d);
  }

  // Joined strings begin with the one and end with the other.
  lemma Concatenation(s: string, t: string)
    ensures var r := Apply(Add, VStr(s), VStr(t));
      r.Ok? && r.value.VStr? && |r.value.s| == |s| + |t| && s <= r.value.s && r.value.s[|s|..] == t
  {
  }

  // ----- order

  ghost predicate IsBelow(a: Value, b: Value) { Apply(Lt, a, b) == Ok(VBool(true)) }

  // `<` is a strict order in which `==` decides what is left, and the other comparisons are told from it.
  lemma Ordering(a: Value, b: Value, c: Value)
    requires IsNumber(a) && IsNumber(b) && IsNumber(c)
    ensures !IsBelow(a, a)
    ensures IsBelow(a, b) && IsBelow(b, c) ==> IsBelow(a, c)
    ensures IsBelow(a, b) || IsBelow(b, a) || Apply(Eq, a, b) == Ok(VBool(true))
    ensures IsBelow(a, b) ==> Apply(Eq, a, b) == Ok(VBool(false))
    ensures Apply(Gt, a, b) == Apply(Lt, b, a)
    ensures Apply(Le, a, b) == Ok(VBool(!IsBelow(b, a))) && Apply(Ge, a, b) == Ok(VBool(!IsBelow(a, b)))
  {
  }

  // Adding keeps the order, one is above zero, and nothing whole lies between.
  lemma OrderAndAddition(a: Value, b: Value, c: Value)
    requires IsNumber(a) && IsNumber(b) && IsNumber(c)
    ensures var x, y := Apply(Add, a, c), Apply(Add, b, c);
      x.Ok? && y.Ok? && (IsBelow(x.value, y.value) <==> IsBelow(a, b))
    ensures var next := Apply(Add, a, VInt(1));
      next.Ok? && IsBelow(a, next.value) && (a.VInt? && b.VInt? ==> !(IsBelow(a, b) && IsBelow(b, next.value)))
  {
    hide Apply, IsBelow, AsReal;
    OneArithmetic(Add, a, c);
    OneArithmetic(Add, b, c);
    OneArithmetic(Add, a, VInt(1));
    var next := Apply(Add, a, VInt(1)).value;
    BelowIsLess(a, b);
    BelowIsLess(Apply(Add, a, c).value, Apply(Add, b, c).value);
    BelowIsLess(a, next);
    BelowIsLess(b, next);
    NothingBetween(a, b);
  }

  lemma NothingBetween(a: Value, b: Value)
    requires IsNumber(a) && IsNumber(b)
    ensures AsReal(VInt(1)) == 1.0
    ensures a.VInt? && b.VInt? ==> !(AsReal(a) < AsReal(b) < AsReal(a) + 1.0)
  {
    if a.VInt? && b.VInt? {
      WholeSteps(a.i, b.i);
    }
  }

  lemma WholeSteps(i: int, j: int)
    ensures !(i as real < j as real < i as real + 1.0)
  {
    var d := j - i;
    assert j as real == i as real + d as real;
    if d <= 0 {
      assert d as real <= 0.0;
    } else {
      assert d as real >= 1.0;
    }
  }

  lemma BelowIsLess(a: Value, b: Value)
    requires IsNumber(a) && IsNumber(b)
    ensures IsBelow(a, b) <==> AsReal(a) < AsReal(b)
  {
  }

  // Numbers alone are ordered by the comparison operators.
  lemma OrderDefined(op: BinOp, a: Value, b: Value)
    requires op in {Lt, Le, Gt, Ge}
    ensures Apply(op, a, b) == Err(TypeMismatch) <==> !IsNumber(a) || !IsNumber(b)
    ensures Apply(op, a, b).Ok? ==> Apply(op, a, b).value.VBool?
  {
  }
}
