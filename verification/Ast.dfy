/** The syntax tree that the parser hands to the semantic analyzer and the IR generator. */
module Ast {
  const INT64_MIN: int := -0x8000_0000_0000_0000
  const INT64_MAX: int := 0x7FFF_FFFF_FFFF_FFFF

  type Int64 = x: int | INT64_MIN <= x <= INT64_MAX

  datatype TensorType = TensorType(elementType: string, shape: seq<nat>)

  const I1 := TensorType("i1", [])
  const I64 := TensorType("i64", [])
  const F64 := TensorType("f64", [])

  datatype BinaryOperator =
    | Add | Subtract | Multiply | Divide
    | Equal | NotEqual | Less | LessEqual | Greater | GreaterEqual
  {
    predicate IsArithmetic() {
      Add? || Subtract? || Multiply? || Divide?
    }
  }

  /** `code` stands for a double; floating-point contents stay opaque throughout. */
  datatype Expr =
    | Ident(name: string)
    | IntLit(value: Int64)
    | FloatLit(code: int)
    | Call(callee: string, args: seq<Expr>)
    | Binary(op: BinaryOperator, lhs: Expr, rhs: Expr)

  datatype Stmt =
    | TensorDecl(name: string, ty: TensorType)
    | Assign(target: string, expr: Expr)
    | Return(expr: Expr)
    | If(cond: Expr, thn: seq<Stmt>, els: seq<Stmt>)

  type Program = seq<Stmt>
}
