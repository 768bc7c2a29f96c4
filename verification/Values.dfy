/** Run-time values and the operators that source programs and IR programs share. */
module Values {
  import opened Ast

  datatype Val =
    | IntV(n: Int64)
    | FloatV(code: int)
    | BoolV(b: bool)
    | TensorV(ty: TensorType, contents: int)

  /** A trap is a signed division by zero or INT64_MIN / -1; a stuck evaluation has no meaning. */
  datatype Outcome<+T> = Ok(value: T) | Trap | Stuck

  /** How two floats stand to each other. A float that is not a number is unordered to every float. */
  datatype Relation = Below | Same | Above | Unordered

  /** What the model leaves open: floating-point and tensor arithmetic and uninitialised storage. */
  datatype Interp = Interp(
    floatArith: (BinaryOperator, int, int) -> int,
    floatRelation: (int, int) -> Relation,
    reluInt: int -> int,
    reluFloat: int -> int,
    reluBool: bool -> bool,
    reluTensor: (TensorType, int) -> int,
    matmul: (TensorType, int, TensorType, int) -> int,
    storage: (string, TensorType) -> int)

  /** Two's complement wrap-around at 64 bits. */
  function Wrap(n: int): (r: Int64)
    ensures INT64_MIN <= n <= INT64_MAX ==> r == n
    ensures (r - n) % 0x1_0000_0000_0000_0000 == 0
  {
    (n + 0x8000_0000_0000_0000) % 0x1_0000_0000_0000_0000 - 0x8000_0000_0000_0000
  }

  /** Division rounding toward zero. */
  function TruncatedQuotient(x: int, y: int): (q: int)
    requires y != 0
  {
    if 0 <= x then
      if 0 < y then x / y else -(x / -y)
    else
      if 0 < y then -(-x / y) else -x / -y
  }

  function IntArithmetic(op: BinaryOperator, x: Int64, y: Int64): Outcome<Val>
    requires op.IsArithmetic()
  {
    match op
    case Add => Ok(IntV(Wrap(x + y)))
    case Subtract => Ok(IntV(Wrap(x - y)))
    case Multiply => Ok(IntV(Wrap(x * y)))
    case Divide =>
      if y == 0 || (x == INT64_MIN && y == -1) then Trap else Ok(IntV(Wrap(TruncatedQuotient(x, y))))
  }

  predicate IntCompare(op: BinaryOperator, x: int, y: int)
    requires !op.IsArithmetic()
  {
    match op
    case Equal => x == y
    case NotEqual => x != y
    case Less => x < y
    case LessEqual => x <= y
    case Greater => x > y
    case GreaterEqual => x >= y
  }

  /** Comparisons are ordered, except that unordered floats are not equal. */
  predicate FloatCompare(op: BinaryOperator, order: Relation)
    requires !op.IsArithmetic()
  {
    match op
    case Equal => order == Same
    case NotEqual => order != Same
    case Less => order == Below
    case LessEqual => order == Below || order == Same
    case Greater => order == Above
    case GreaterEqual => order == Above || order == Same
  }

  function ApplyBinary(interp: Interp, op: BinaryOperator, a: Val, b: Val): Outcome<Val> {
    if a.IntV? && b.IntV? then
      if op.IsArithmetic() then IntArithmetic(op, a.n, b.n) else Ok(BoolV(IntCompare(op, a.n, b.n)))
    else if a.FloatV? && b.FloatV? then
      if op.IsArithmetic() then Ok(FloatV(interp.floatArith(op, a.code, b.code)))
      else Ok(BoolV(FloatCompare(op, interp.floatRelation(a.code, b.code))))
    else
      Stuck
  }

  function ApplyRelu(interp: Interp, a: Val): Val {
    match a
    case IntV(n) => IntV(Wrap(interp.reluInt(n)))
    case FloatV(f) => FloatV(interp.reluFloat(f))
    case BoolV(b) => BoolV(interp.reluBool(b))
    case TensorV(ty, c) => TensorV(ty, interp.reluTensor(ty, c))
  }

  function ApplyMatMul(interp: Interp, a: Val, b: Val): Outcome<Val> {
    if a.TensorV? && b.TensorV? && |a.ty.shape| == 2 && |b.ty.shape| == 2 &&
       a.ty.elementType == b.ty.elementType && a.ty.shape[1] == b.ty.shape[0]
    then
      Ok(TensorV(TensorType(a.ty.elementType, [a.ty.shape[0], b.ty.shape[1]]),
                 interp.matmul(a.ty, a.contents, b.ty, b.contents)))
    else
      Stuck
  }

  /** Scalars have the three scalar types; a tensor has the type it was made with, which has a shape. */
  predicate HasType(v: Val, t: TensorType) {
    match v
    case IntV(_) => t == I64
    case FloatV(_) => t == F64
    case BoolV(_) => t == I1
    case TensorV(ty, _) => t == ty && ty.shape != []
  }
}
