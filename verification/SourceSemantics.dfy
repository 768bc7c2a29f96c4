/** What running a source program means: names bound in an environment, statement by statement. */
module SourceSemantics {
  import opened Ast
  import opened Values

  type Env = map<string, Val>

  datatype Result = Continue(env: Env) | Returned(value: Val) | Trapped | Wrong

  function EvalExpr(interp: Interp, env: Env, e: Expr): Outcome<Val> {
    match e
    case Ident(name) => if name in env then Ok(env[name]) else Stuck
    case IntLit(n) => Ok(IntV(n))
    case FloatLit(code) => Ok(FloatV(code))
    case Call(callee, args) =>
      if callee == "relu" && |args| == 1 then
        match EvalExpr(interp, env, args[0])
        case Ok(a) => Ok(ApplyRelu(interp, a))
        case other => other
      else if callee == "matmul" && |args| == 2 then
        match EvalExpr(interp, env, args[0]) {
          case Ok(a) =>
            match EvalExpr(interp, env, args[1]) {
              case Ok(b) => ApplyMatMul(interp, a, b)
              case other => other
            }
          case other => other
        }
      else
        Stuck
    case Binary(op, lhs, rhs) =>
      match EvalExpr(interp, env, lhs) {
        case Ok(a) =>
          match EvalExpr(interp, env, rhs) {
            case Ok(b) => ApplyBinary(interp, op, a, b)
            case other => other
          }
        case other => other
      }
  }

  function EvalStmt(interp: Interp, env: Env, s: Stmt): Result
    decreases s
  {
    match s
    case TensorDecl(name, ty) => Continue(env[name := TensorV(ty, interp.storage(name, ty))])
    case Assign(target, e) =>
      (match EvalExpr(interp, env, e)
       case Ok(v) => Continue(env[target := v])
       case Trap => Trapped
       case Stuck => Wrong)
    case Return(e) =>
      (match EvalExpr(interp, env, e)
       case Ok(v) => Returned(v)
       case Trap => Trapped
       case Stuck => Wrong)
    case If(cond, thn, els) =>
      match EvalExpr(interp, env, cond)
      case Ok(v) => if v.BoolV? then EvalStmts(interp, env, if v.b then thn else els) else Wrong
      case Trap => Trapped
      case Stuck => Wrong
  }

  function EvalStmts(interp: Interp, env: Env, ss: seq<Stmt>): Result
    decreases ss
  {
    if ss == [] then Continue(env)
    else
      match EvalStmt(interp, env, ss[0])
      case Continue(env') => EvalStmts(interp, env', ss[1..])
      case other => other
  }

  function RunProgram(interp: Interp, p: Program): Result {
    EvalStmts(interp, map[], p)
  }
}
