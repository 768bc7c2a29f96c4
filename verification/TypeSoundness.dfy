/** Accepted programs do not go wrong: every name read is bound, every operator gets operands of one
    numeric type, every condition is a boolean, and every returned value is a scalar i64. */
module TypeSoundness {
  import opened Prelude
  import opened Ast
  import opened Values
  import opened SourceSemantics
  import opened AnalyzerSpec

  ghost predicate Typed(env: Env, symbols: Symbols) {
    forall n :: n in symbols ==> n in env && HasType(env[n], symbols[n])
  }

  /** Every declared tensor has at least one dimension, as the parser guarantees. */
  ghost predicate Shaped(ss: seq<Stmt>)
    decreases ss
  {
    ss != [] ==>
      && Shaped(ss[1..])
      && match ss[0]
         case TensorDecl(_, ty) => ty.shape != []
         case If(_, thn, els) => Shaped(thn) && Shaped(els)
         case _ => true
  }

  lemma {:induction false} ExprSound(interp: Interp, env: Env, symbols: Symbols, e: Expr)
    requires Typed(env, symbols) && TypeExpr(symbols, e).Some?
    ensures var r := EvalExpr(interp, env, e);
      r.Trap? || (r.Ok? && HasType(r.value, TypeExpr(symbols, e).value))
    decreases e
  {
    match e
    case Call(callee, args) =>
      ExprSound(interp, env, symbols, args[0]);
      if callee == "matmul" {
        ExprSound(interp, env, symbols, args[1]);
      }
    case Binary(op, lhs, rhs) =>
      ExprSound(interp, env, symbols, lhs);
      ExprSound(interp, env, symbols, rhs);
    case _ =>
  }

  /** The converse for expressions: one that the analyzer refuses cannot be evaluated, in any environment with
      exactly these names and types, except that a trap may come first. */
  lemma {:induction false} ExprComplete(interp: Interp, env: Env, symbols: Symbols, e: Expr)
    requires Typed(env, symbols) && env.Keys == symbols.Keys && EvalExpr(interp, env, e).Ok?
    ensures TypeExpr(symbols, e).Some? && HasType(EvalExpr(interp, env, e).value, TypeExpr(symbols, e).value)
    decreases e
  {
    match e
    case Call(callee, args) =>
      ExprComplete(interp, env, symbols, args[0]);
      if callee == "matmul" {
        ExprComplete(interp, env, symbols, args[1]);
      }
    case Binary(_, lhs, rhs) =>
      ExprComplete(interp, env, symbols, lhs);
      ExprComplete(interp, env, symbols, rhs);
    case _ =>
  }

  ghost predicate Sound(r: Result, a: Analysis) {
    match r
    case Continue(env) => Typed(env, a.symbols)
    case Returned(v) => v.IntV?
    case Trapped => true
    case Wrong => false
  }

  lemma {:induction false} StmtSound(interp: Interp, env: Env, a: Analysis, s: Stmt)
    requires Typed(env, a.symbols) && AnalyzeStmt(a, s).Some? && Shaped([s])
    ensures Sound(EvalStmt(interp, env, s), AnalyzeStmt(a, s).value)
    decreases s
  {
    match s
    case TensorDecl(_, _) =>
    case Assign(_, e) => ExprSound(interp, env, a.symbols, e);
    case Return(e) => ExprSound(interp, env, a.symbols, e);
    case If(cond, thn, els) =>
      ExprSound(interp, env, a.symbols, cond);
      IfSymbols(a, s);
      var t := AnalyzeStmts(a, thn).value;
      StmtsSound(interp, env, a, thn);
      StmtsSound(interp, env, t.(symbols := a.symbols), els);
  }

  lemma {:induction false} StmtsSound(interp: Interp, env: Env, a: Analysis, ss: seq<Stmt>)
    requires Typed(env, a.symbols) && AnalyzeStmts(a, ss).Some? && Shaped(ss)
    ensures Sound(EvalStmts(interp, env, ss), AnalyzeStmts(a, ss).value)
    decreases ss
  {
    if ss != [] {
      StmtSound(interp, env, a, ss[0]);
      var first := EvalStmt(interp, env, ss[0]);
      if first.Continue? {
        StmtsSound(interp, first.env, AnalyzeStmt(a, ss[0]).value, ss[1..]);
      }
    }
  }

  lemma ProgramSound(interp: Interp, p: Program)
    requires Analyze(p).Some? && Shaped(p)
    ensures var r := RunProgram(interp, p);
      !r.Wrong? && (r.Returned? ==> r.value.IntV?) && (r.Continue? ==> Typed(r.env, Analyze(p).value))
  {
    StmtsSound(interp, map[], EMPTY, p);
  }

  /** The environment binds exactly the table's names, at the table's types. */
  ghost predicate Exact(env: Env, symbols: Symbols) {
    Typed(env, symbols) && env.Keys == symbols.Keys
  }

  ghost predicate SameType(v: Val, w: Val) {
    exists t :: HasType(v, t) && HasType(w, t)
  }

  /** Exactly which simple statements are accepted, in terms of running them: a declaration of a new name, an
      assignment that can be evaluated and keeps the type of its target, and a return of an integer. */
  lemma StmtExact(interp: Interp, env: Env, a: Analysis, s: Stmt)
    requires Exact(env, a.symbols) && !s.If? && !EvalStmt(interp, env, s).Trapped? && Shaped([s])
    requires a.returnType.None? || a.returnType == Some(I64)
    ensures s.TensorDecl? ==> (AnalyzeStmt(a, s).Some? <==> s.name !in env)
    ensures s.Assign? ==> (AnalyzeStmt(a, s).Some? <==>
      var r := EvalStmt(interp, env, s); r.Continue? && (s.target in env ==> SameType(env[s.target], r.env[s.target])))
    ensures s.Return? ==> (AnalyzeStmt(a, s).Some? <==>
      var r := EvalStmt(interp, env, s); r.Returned? && r.value.IntV?)
    ensures AnalyzeStmt(a, s).Some? && EvalStmt(interp, env, s).Continue? ==>
      Exact(EvalStmt(interp, env, s).env, AnalyzeStmt(a, s).value.symbols)
  {
    if !s.TensorDecl? {
      if TypeExpr(a.symbols, s.expr).Some? {
        ExprSound(interp, env, a.symbols, s.expr);
      }
      if EvalExpr(interp, env, s.expr).Ok? {
        ExprComplete(interp, env, a.symbols, s.expr);
      }
    }
  }

  /** A conditional with accepted branches is accepted exactly if its condition is a boolean and the branches do not
      introduce one name with two types. */
  lemma IfExact(interp: Interp, env: Env, a: Analysis, s: Stmt)
    requires Exact(env, a.symbols) && s.If? && EvalExpr(interp, env, s.cond).Ok?
    requires AnalyzeStmts(a, s.thn).Some?
      && AnalyzeStmts(AnalyzeStmts(a, s.thn).value.(symbols := a.symbols), s.els).Some?
    ensures var t := AnalyzeStmts(a, s.thn).value.symbols;
      var e := AnalyzeStmts(AnalyzeStmts(a, s.thn).value.(symbols := a.symbols), s.els).value.symbols;
      AnalyzeStmt(a, s).Some? <==>
        EvalExpr(interp, env, s.cond).value.BoolV? && forall n :: n in t && n in e && n !in env ==> t[n] == e[n]
  {
    ExprComplete(interp, env, a.symbols, s.cond);
    var t := AnalyzeStmts(a, s.thn).value.symbols;
    var e := AnalyzeStmts(AnalyzeStmts(a, s.thn).value.(symbols := a.symbols), s.els).value.symbols;
    assert forall n :: n in NewNames(a.symbols, t, e) <==> n in t && n in e && n !in env;
  }
}
