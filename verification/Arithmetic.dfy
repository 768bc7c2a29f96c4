/** Integer arithmetic is two's complement at 64 bits, and division rounds toward zero. */
module Arithmetic {
  import opened Prelude
  import opened Ast
  import opened Values
  import opened SourceSemantics
  import opened Target
  import opened LoweringSpec

  function Magnitude(y: int): (m: int)
    ensures 0 <= m && (m == y || m == -y)
  {
    if y < 0 then -y else y
  }

  /** `q` is the quotient of `x` by `y` with remainder `r`, which is smaller than the divisor and has the sign of the
      dividend or none. */
  predicate Divides(q: int, r: int, x: int, y: int) {
    x == q * y + r && Magnitude(r) < Magnitude(y) && (0 < r ==> 0 < x) && (r < 0 ==> x < 0)
  }

  lemma QuotientExact(x: int, y: int) returns (r: int)
    requires y != 0
    ensures Divides(TruncatedQuotient(x, y), r, x, y)
  {
    hide TruncatedQuotient;
    var whole, rest := Parts(x, y);
    r := if x < 0 then -rest else rest;
  }

  /** The dividend's magnitude is the product's and a rest. */
  lemma Parts(x: int, y: int) returns (whole: int, rest: int)
    requires y != 0
    ensures 0 <= whole && Magnitude(x) == whole + rest && 0 <= rest < Magnitude(y)
    ensures TruncatedQuotient(x, y) * y == if x < 0 then -whole else whole
  {
    var a, b := Magnitude(x), Magnitude(y);
    whole, rest := a / b * b, a % b;
    Remainder(a, b);
    NonNegative(a / b, b);
    SignedProduct(a / b, b, x, y);
  }

  lemma Remainder(a: int, b: int)
    requires 0 <= a && 0 < b
    ensures a == a / b * b + a % b && 0 <= a % b < b
  {
  }

  /** Dividing magnitudes and restoring the sign. */
  lemma SignedProduct(q: int, b: int, x: int, y: int)
    requires y != 0 && b == Magnitude(y) && q == Magnitude(x) / b
    ensures TruncatedQuotient(x, y) * y == if x < 0 then -(q * b) else q * b
  {
    if 0 <= x {
      assert TruncatedQuotient(x, y) == if 0 < y then q else -q;
    } else {
      assert TruncatedQuotient(x, y) == if 0 < y then -q else q;
    }
  }

  /** There is only one quotient. */
  lemma QuotientUnique(q: int, r: int, q': int, r': int, x: int, y: int)
    requires Divides(q, r, x, y) && Divides(q', r', x, y)
    ensures q == q' && r == r'
  {
    Distribute(q, q', y);
    assert (q - q') * y == r' - r;
    SmallMultiple(q - q', y);
  }

  lemma Distribute(q: int, q': int, y: int)
    ensures (q - q') * y == q * y - q' * y
  {
  }

  lemma SmallMultiple(d: int, y: int)
    requires -Magnitude(y) < d * y < Magnitude(y)
    ensures d == 0
  {
    if d != 0 && 0 < y {
      Grows(Magnitude(d), y);
    } else if d != 0 && y < 0 {
      Grows(Magnitude(d), -y);
    }
  }

  lemma Grows(a: int, b: int)
    requires 0 < a && 0 <= b
    ensures b <= a * b
    ensures a * -b == -(a * b) && -a * b == -(a * b) && -a * -b == a * b
  {
    NonNegative(a - 1, b);
    Distribute(a, 1, b);
  }

  lemma NonNegative(a: int, b: int)
    requires 0 <= a && 0 <= b
    ensures 0 <= a * b
  {
  }

  /** The only quotient that does not fit is the one that traps. */
  lemma QuotientFits(x: Int64, y: Int64)
    requires y != 0 && !(x == INT64_MIN && y == -1)
    ensures INT64_MIN <= TruncatedQuotient(x, y) <= INT64_MAX
  {
    var a, b := Magnitude(x), Magnitude(y);
    Shrinks(a, b);
    assert TruncatedQuotient(x, y) == a / b || TruncatedQuotient(x, y) == -(a / b);
  }

  lemma Shrinks(a: int, b: int)
    requires 0 <= a && 0 < b
    ensures 0 <= a / b <= a && (1 < b ==> 2 * (a / b) <= a)
  {
    var q := a / b;
    Remainder(a, b);
    if q != 0 {
      Grows(b, q);
      if 1 < b {
        Grows(b - 1, q);
        Distribute(b, 1, q);
      }
    }
  }

  /** What an arithmetic operator yields on 64-bit integers: the sum, difference or product modulo 2^64, or the
      quotient;
      only division can trap, by zero or at its one overflow. Results of 64 bits are determined by this. */
  ghost predicate Yields(op: BinaryOperator, x: Int64, y: Int64, r: Outcome<Val>, remainder: int) {
    && (r.Trap? <==> op.Divide? && (y == 0 || (x == -0x8000_0000_0000_0000 && y == -1)))
    && (!r.Trap? ==> r.Ok? && r.value.IntV?)
    && (op.Add? ==> r.Ok? && (r.value.n - (x + y)) % 0x1_0000_0000_0000_0000 == 0)
    && (op.Subtract? ==> r.Ok? && (r.value.n - (x - y)) % 0x1_0000_0000_0000_0000 == 0)
    && (op.Multiply? ==> r.Ok? && (r.value.n - x * y) % 0x1_0000_0000_0000_0000 == 0)
    && (op.Divide? && r.Ok? ==> Divides(r.value.n, remainder, x, y))
  }

  lemma ArithmeticExact(op: BinaryOperator, x: Int64, y: Int64) returns (remainder: int)
    requires op.IsArithmetic()
    ensures Yields(op, x, y, IntArithmetic(op, x, y), remainder)
  {
    remainder := 0;
    if op.Divide? && y != 0 && !(x == INT64_MIN && y == -1) {
      remainder := QuotientExact(x, y);
      QuotientFits(x, y);
    }
  }

  /** What a comparison says of two integers. */
  predicate Says(op: BinaryOperator, x: int, y: int, b: bool) {
    && (op.Equal? ==> (b <==> x == y)) && (op.NotEqual? ==> (b <==> x != y))
    && (op.Less? ==> (b <==> x < y)) && (op.LessEqual? ==> (b <==> x <= y))
    && (op.Greater? ==> (b <==> y < x)) && (op.GreaterEqual? ==> (b <==> y <= x))
  }

  /** A source expression on two integers computes exactly this, left operand first. */
  lemma SourceExact(interp: Interp, env: Env, op: BinaryOperator, lhs: Expr, rhs: Expr, x: Int64, y: Int64)
    returns (remainder: int)
    requires EvalExpr(interp, env, lhs) == Ok(IntV(x)) && EvalExpr(interp, env, rhs) == Ok(IntV(y))
    ensures var r := EvalExpr(interp, env, Binary(op, lhs, rhs));
      if op in {Add, Subtract, Multiply, Divide} then Yields(op, x, y, r, remainder)
      else r.Ok? && r.value.BoolV? && Says(op, x, y, r.value.b)
  {
    remainder := 0;
    if op.IsArithmetic() {
      remainder := ArithmeticExact(op, x, y);
    }
  }

  /** And so do the target's instructions. */
  lemma TargetExact(interp: Interp, op: BinaryOperator, x: Int64, y: Int64) returns (remainder: int)
    ensures
      if op in {Add, Subtract, Multiply, Divide} then
        var r := Compute(interp, false, op, Some(TInt(x)), Some(TInt(y)));
        && (r.Ok? ==> r.value.TInt?)
        && Yields(op, x, y, if r.Ok? then Ok(IntV(r.value.n)) else if r.Trap? then Trap else Stuck, remainder)
      else
        var r := Compare(interp, PredicateOf(false, op), Some(TInt(x)), Some(TInt(y)));
        r.Ok? && r.value.TBool? && Says(op, x, y, r.value.b)
  {
    remainder := 0;
    if op.IsArithmetic() {
      remainder := ArithmeticExact(op, x, y);
    }
  }

  /** Two 64-bit results that agree modulo 2^64 are the same. */
  lemma CongruentEqual(m: Int64, n: Int64)
    requires (m - n) % 0x1_0000_0000_0000_0000 == 0
    ensures m == n
  {
  }
}
