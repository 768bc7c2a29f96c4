/** Preservation without any hypothesis on where tensors are declared. The generator takes the type of a declaration
    from the analyzer's final table, so a module is a faithful translation of the program retyped by that table. */
module Retyping {
  import opened Prelude
  import opened Ast
  import opened Values
  import opened SourceSemantics
  import opened IR
  import Sem = IRSemantics
  import opened GeneratorSpec
  import opened AnalyzerSpec
  import opened TypeSoundness
  import opened Preservation
  import opened Correctness
  import opened GeneratorTypes
  import opened GenerationTotal

  /** The statement with every declared type replaced by the table's, where it has one. */
  function RetypeStmt(symbols: Symbols, s: Stmt): Stmt
    decreases s
  {
    match s
    case TensorDecl(name, ty) => TensorDecl(name, if name in symbols then symbols[name] else ty)
    case If(cond, thn, els) => If(cond, Retype(symbols, thn), Retype(symbols, els))
    case _ => s
  }

  function Retype(symbols: Symbols, ss: seq<Stmt>): seq<Stmt>
    decreases ss
  {
    if ss == [] then [] else [RetypeStmt(symbols, ss[0])] + Retype(symbols, ss[1..])
  }

  /** The first statement and the others, retyped. */
  lemma RetypeParts(symbols: Symbols, ss: seq<Stmt>)
    requires ss != []
    ensures var tt := Retype(symbols, ss);
      tt != [] && tt[0] == RetypeStmt(symbols, ss[0]) && tt[1..] == Retype(symbols, ss[1..])
  {
  }

  lemma {:induction false} StmtRetyped(ctx: Context, s: State, stmt: Stmt)
    requires Live(s)
    ensures GenStmt(ctx, s, RetypeStmt(ctx.symbols, stmt)) == GenStmt(ctx, s, stmt)
    decreases stmt
  {
    hide GenExpr, Join;
    if stmt.If? && GenExpr(s, stmt.cond).Some? {
      var (s1, c) := GenExpr(s, stmt.cond).value;
      if c.ty == I1 {
        StmtsRetyped(ctx, OpenBranches(s1, c.value), stmt.thn);
        var r := GenStmts(ctx, OpenBranches(s1, c.value), stmt.thn);
        if r.Some? {
          StmtsRetyped(ctx, r.value.(current := Some(|s1.blocks| + 1), values := s1.values), stmt.els);
        }
      }
    }
  }

  lemma {:induction false} StmtsRetyped(ctx: Context, s: State, ss: seq<Stmt>)
    requires Valid(s)
    ensures GenStmts(ctx, s, Retype(ctx.symbols, ss)) == GenStmts(ctx, s, ss)
    decreases ss
  {
    if ss != [] && s.current.Some? {
      RetypeParts(ctx.symbols, ss);
      StmtRetyped(ctx, s, ss[0]);
      if GenStmt(ctx, s, ss[0]).Some? {
        StmtsRetyped(ctx, GenStmt(ctx, s, ss[0]).value, ss[1..]);
      }
    }
  }

  lemma {:induction false} TopRetyped(ctx: Context, s: State, ss: seq<Stmt>)
    requires Valid(s)
    ensures GenTop(ctx, s, Retype(ctx.symbols, ss)) == GenTop(ctx, s, ss)
    decreases ss
  {
    if ss != [] && s.current.Some? {
      RetypeParts(ctx.symbols, ss);
      StmtRetyped(ctx, s, ss[0]);
      if GenStmt(ctx, s, ss[0]).Some? {
        TopRetyped(ctx, GenStmt(ctx, s, ss[0]).value, ss[1..]);
      }
    }
  }

  /** The declared types do not reach the module. */
  lemma BuildRetyped(ctx: Context, p: Program)
    ensures Build(ctx, Retype(ctx.symbols, p)) == Build(ctx, p)
  {
    TopRetyped(ctx, INITIAL, p);
  }

  lemma {:induction false} RetypedAgrees(symbols: Symbols, ss: seq<Stmt>)
    ensures DeclarationsAgree(symbols, Retype(symbols, ss))
    decreases ss
  {
    if ss != [] {
      RetypeParts(symbols, ss);
      RetypedAgrees(symbols, ss[1..]);
      if ss[0].If? {
        RetypedAgrees(symbols, ss[0].thn);
        RetypedAgrees(symbols, ss[0].els);
      }
    }
  }

  /** Every module that is built runs as the retyped program runs; and so it runs as the program itself exactly if the
      program and its retyping end in the same way. */
  lemma PreservationExact(interp: Interp, ctx: Context, p: Program)
    requires Build(ctx, p).Some?
    ensures var m := Build(ctx, p).value;
      && Forward(m.blocks) && m.entry < |m.blocks|
      && SameOutcome(RunProgram(interp, Retype(ctx.symbols, p)), Sem.RunModule(interp, m))
      && (SameOutcome(RunProgram(interp, p), Sem.RunModule(interp, m)) <==>
            RunProgram(interp, p) == RunProgram(interp, Retype(ctx.symbols, p)))
  {
    BuildRetyped(ctx, p);
    RetypedAgrees(ctx.symbols, p);
    SemanticPreservation(interp, ctx, Retype(ctx.symbols, p));
  }

  predicate NoCall(e: Expr) {
    match e
    case Call(_, _) => false
    case Binary(_, lhs, rhs) => NoCall(lhs) && NoCall(rhs)
    case _ => true
  }

  /** No call in a statement that can be reached. */
  predicate NoCallStmt(s: Stmt)
    decreases s
  {
    match s
    case TensorDecl(_, _) => true
    case Assign(_, e) => NoCall(e)
    case Return(e) => NoCall(e)
    case If(cond, thn, els) => NoCall(cond) && NoCallStmts(thn) && NoCallStmts(els)
  }

  predicate NoCallStmts(ss: seq<Stmt>)
    decreases ss
  {
    ss != [] ==> NoCallStmt(ss[0]) && (FinishesStmt(ss[0]) || NoCallStmts(ss[1..]))
  }

  /** Equal values, or two tensors of whatever types and contents. */
  predicate AlikeValues(v: Val, w: Val) {
    v == w || (v.TensorV? && w.TensorV?)
  }

  ghost predicate Alike(env: Env, env': Env) {
    env.Keys == env'.Keys && forall n :: n in env ==> AlikeValues(env[n], env'[n])
  }

  ghost predicate AlikeResults(r: Result, r': Result) {
    match r
    case Continue(env) => r'.Continue? && Alike(env, r'.env)
    case Returned(v) => r'.Returned? && AlikeValues(v, r'.value)
    case Trapped => r'.Trapped?
    case Wrong => r'.Wrong?
  }

  lemma {:induction false} ExprAlike(interp: Interp, env: Env, env': Env, e: Expr)
    requires Alike(env, env')
    ensures var r, r' := EvalExpr(interp, env, e), EvalExpr(interp, env', e);
      && (NoCall(e) ==> (r.Stuck? <==> r'.Stuck?))
      && (!r.Stuck? && !r'.Stuck? ==> (r.Trap? && r'.Trap?) || (r.Ok? && r'.Ok? && AlikeValues(r.value, r'.value)))
    decreases e
  {
    match e
    case Call(callee, args) =>
      if callee == "relu" && |args| == 1 {
        ExprAlike(interp, env, env', args[0]);
      } else if callee == "matmul" && |args| == 2 {
        ExprAlike(interp, env, env', args[0]);
        ExprAlike(interp, env, env', args[1]);
      }
    case Binary(_, lhs, rhs) =>
      ExprAlike(interp, env, env', lhs);
      ExprAlike(interp, env, env', rhs);
    case _ =>
  }

  lemma {:induction false} FinishedStops(interp: Interp, env: Env, s: Stmt)
    requires FinishesStmt(s)
    ensures !EvalStmt(interp, env, s).Continue?
    decreases s
  {
    if s.If? {
      FinishedListStops(interp, env, s.thn);
      FinishedListStops(interp, env, s.els);
    }
  }

  lemma {:induction false} FinishedListStops(interp: Interp, env: Env, ss: seq<Stmt>)
    requires Finishes(ss)
    ensures !EvalStmts(interp, env, ss).Continue?
    decreases ss
  {
    var first := EvalStmt(interp, env, ss[0]);
    if FinishesStmt(ss[0]) {
      FinishedStops(interp, env, ss[0]);
    } else if first.Continue? {
      FinishedListStops(interp, first.env, ss[1..]);
    }
  }

  /** A program and its retyping run alike until one of them goes wrong, which takes a call. */
  lemma {:induction false} StmtAlike(interp: Interp, symbols: Symbols, env: Env, env': Env, s: Stmt)
    requires Alike(env, env')
    ensures var r, r' := EvalStmt(interp, env, s), EvalStmt(interp, env', RetypeStmt(symbols, s));
      && (r.Wrong? || r'.Wrong? || AlikeResults(r, r'))
      && (NoCallStmt(s) ==> (r.Wrong? <==> r'.Wrong?))
    decreases s
  {
    hide EvalExpr, NoCall, EvalStmts;
    match s
    case TensorDecl(_, _) =>
    case Assign(_, e) => ExprAlike(interp, env, env', e);
    case Return(e) => ExprAlike(interp, env, env', e);
    case If(cond, thn, els) =>
      ExprAlike(interp, env, env', cond);
      StmtsAlike(interp, symbols, env, env', thn);
      StmtsAlike(interp, symbols, env, env', els);
  }

  lemma {:induction false} StmtsAlike(interp: Interp, symbols: Symbols, env: Env, env': Env, ss: seq<Stmt>)
    requires Alike(env, env')
    ensures var r, r' := EvalStmts(interp, env, ss), EvalStmts(interp, env', Retype(symbols, ss));
      && (r.Wrong? || r'.Wrong? || AlikeResults(r, r'))
      && (NoCallStmts(ss) ==> (r.Wrong? <==> r'.Wrong?))
    decreases ss
  {
    hide EvalStmt, RetypeStmt, NoCallStmt, Alike;
    if ss != [] {
      RetypeParts(symbols, ss);
      StmtAlike(interp, symbols, env, env', ss[0]);
      var r, r' := EvalStmt(interp, env, ss[0]), EvalStmt(interp, env', RetypeStmt(symbols, ss[0]));
      if FinishesStmt(ss[0]) {
        FinishedStops(interp, env, ss[0]);
        StillFinishes(symbols, ss[0]);
        FinishedStops(interp, env', RetypeStmt(symbols, ss[0]));
      } else if r.Continue? && r'.Continue? {
        StmtsAlike(interp, symbols, r.env, r'.env, ss[1..]);
      }
    }
  }

  lemma {:induction false} StillFinishes(symbols: Symbols, s: Stmt)
    ensures FinishesStmt(RetypeStmt(symbols, s)) <==> FinishesStmt(s)
    decreases s
  {
    if s.If? {
      ListStillFinishes(symbols, s.thn);
      ListStillFinishes(symbols, s.els);
    }
  }

  lemma {:induction false} ListStillFinishes(symbols: Symbols, ss: seq<Stmt>)
    ensures Finishes(Retype(symbols, ss)) <==> Finishes(ss)
    decreases ss
  {
    if ss != [] {
      RetypeParts(symbols, ss);
      StillFinishes(symbols, ss[0]);
      ListStillFinishes(symbols, ss[1..]);
    }
  }

  /** What a built module does for an accepted program, wherever its tensors are declared: it returns the program's
      integer, traps exactly when the program traps, or gets stuck, which takes a call that can be reached. */
  lemma AcceptedExact(interp: Interp, order: Order, p: Program)
    requires Analyze(p).Some? && Shaped(p) && Build(Context(Analyze(p).value, order), p).Some?
    ensures var m := Build(Context(Analyze(p).value, order), p).value;
      && Forward(m.blocks) && m.entry < |m.blocks|
      && (SameOutcome(RunProgram(interp, p), Sem.RunModule(interp, m)) <==> Sem.RunModule(interp, m) != Sem.Wrong)
      && (NoCallStmts(p) ==> Sem.RunModule(interp, m) != Sem.Wrong)
  {
    var ctx := Context(Analyze(p).value, order);
    PreservationExact(interp, ctx, p);
    ProgramSound(interp, p);
    assert Alike(map[], map[]);
    StmtsAlike(interp, ctx.symbols, map[], map[], p);
  }

  const SQUARE := TensorType("f32", [2, 2])
  const WIDE := TensorType("f32", [2, 3])
  const SQUARING := Assign("B", Call("matmul", [Ident("A"), Ident("A")]))

  /** A tensor declared in a branch, and another of its name afterwards, which gives the first its type. */
  const RETYPED_TENSOR: Program := [
    If(CONDITION, [TensorDecl("A", SQUARE), SQUARING], []),
    TensorDecl("A", WIDE),
    Return(IntLit(0))]

  /** What the analyzer makes of it. */
  lemma RetypedAnalysis()
    ensures Analyze(RETYPED_TENSOR) == Some(map["A" := WIDE]) && Shaped(RETYPED_TENSOR)
  {
    var first, rest := RETYPED_TENSOR[0], RETYPED_TENSOR[1..];
    assert TypeExpr(map[], CONDITION) == Some(I1);
    assert first.thn[1..] == [SQUARING] && first.thn[1..][1..] == [];
    var inner: Symbols := map["A" := SQUARE];
    assert TypeExpr(inner, SQUARING.expr) == Some(SQUARE);
    assert AnalyzeStmts(Analysis(inner, None), [SQUARING]) == Some(Analysis(inner["B" := SQUARE], None));
    assert AnalyzeStmts(EMPTY, first.thn) == Some(Analysis(inner["B" := SQUARE], None));
    assert NewNames(map[], inner["B" := SQUARE], map[]) == {};
    assert AnalyzeStmt(EMPTY, first) == Some(EMPTY);
    assert rest == [TensorDecl("A", WIDE), Return(IntLit(0))] && rest[1..] == [Return(IntLit(0))]
      && rest[1..][1..] == [];
    var outer := Analysis(map["A" := WIDE], None);
    assert AnalyzeStmts(outer, rest[1..]) == Some(outer.(returnType := Some(I64)));
    assert map[]["A" := WIDE] == map["A" := WIDE];
    assert AnalyzeStmts(EMPTY, rest) == Some(outer.(returnType := Some(I64)));
    assert Shaped(rest) && Shaped([SQUARING]);
  }

  /** It is built. */
  lemma RetypedFlows()
    ensures Flows(map["A" := WIDE], RETYPED_TENSOR)
  {
    var symbols: Symbols := map["A" := WIDE];
    var first, rest := RETYPED_TENSOR[0], RETYPED_TENSOR[1..];
    assert FlowExpr(map[], CONDITION) == Some(I1);
    assert first.thn[1..] == [SQUARING] && first.thn[1..][1..] == [];
    assert FlowExpr(symbols, SQUARING.expr) == Some(TensorType("f32", [2, 3]));
    var after: Symbols := map["A" := WIDE, "B" := WIDE];
    assert symbols["B" := WIDE] == after;
    assert FlowStmts(symbols, Flow(symbols, true), [SQUARING]) == Some(Flow(after, true));
    assert map[]["A" := WIDE] == symbols;
    assert FlowStmts(symbols, Flow(map[], true), first.thn) == Some(Flow(after, true));
    assert Common(after, map[]) == map[];
    assert FlowStmt(symbols, map[], first) == Some(Flow(map[], true));
    assert rest == [TensorDecl("A", WIDE), Return(IntLit(0))] && rest[1..] == [Return(IntLit(0))]
      && rest[1..][1..] == [];
    assert FlowTop(symbols, Flow(symbols, true), rest[1..]) == Some(Flow(symbols, false));
  }

  /** It returns, and its retyping multiplies tensors that do not fit. */
  lemma RetypedRuns(interp: Interp)
    ensures RunProgram(interp, RETYPED_TENSOR) == Returned(IntV(0))
    ensures RunProgram(interp, Retype(map["A" := WIDE], RETYPED_TENSOR)) == Wrong
  {
    var symbols: Symbols := map["A" := WIDE];
    var first, rest := RETYPED_TENSOR[0], RETYPED_TENSOR[1..];
    assert EvalExpr(interp, map[], CONDITION) == Ok(BoolV(true));
    assert first.thn[1..] == [SQUARING] && first.thn[1..][1..] == [];
    var a := TensorV(SQUARE, interp.storage("A", SQUARE));
    assert EvalExpr(interp, map["A" := a], SQUARING.expr).Ok?;
    var env := map["A" := a]["B" := EvalExpr(interp, map["A" := a], SQUARING.expr).value];
    assert EvalStmts(interp, map["A" := a], [SQUARING]) == Continue(env);
    assert map[]["A" := a] == map["A" := a];
    assert EvalStmts(interp, map[], first.thn) == Continue(env);
    assert EvalStmt(interp, map[], first) == Continue(env);
    assert rest == [TensorDecl("A", WIDE), Return(IntLit(0))] && rest[1..] == [Return(IntLit(0))]
      && rest[1..][1..] == [];
    var env1 := env["A" := TensorV(WIDE, interp.storage("A", WIDE))];
    assert EvalStmts(interp, env1, rest[1..]) == Returned(IntV(0));
    assert EvalStmts(interp, env, rest) == Returned(IntV(0));

    RetypeParts(symbols, RETYPED_TENSOR);
    RetypeParts(symbols, first.thn);
    var w := TensorV(WIDE, interp.storage("A", WIDE));
    assert EvalExpr(interp, map["A" := w], SQUARING.expr) == Stuck;
    assert Retype(symbols, [SQUARING])[0] == SQUARING;
    assert EvalStmts(interp, map["A" := w], Retype(symbols, [SQUARING])) == Wrong;
    assert map[]["A" := w] == map["A" := w];
    assert EvalStmts(interp, map[], Retype(symbols, first.thn)) == Wrong;
    assert EvalStmt(interp, map[], RetypeStmt(symbols, first)) == Wrong;
  }

  /** Such a module can get stuck where the program does not: the squaring now meets two by three tensors. */
  lemma RetypingMatters(interp: Interp, order: Order)
    requires ValidOrder(order)
    ensures Analyze(RETYPED_TENSOR).Some? && Shaped(RETYPED_TENSOR)
    ensures Build(Context(Analyze(RETYPED_TENSOR).value, order), RETYPED_TENSOR).Some?
    ensures RunProgram(interp, RETYPED_TENSOR) == Returned(IntV(0))
    ensures var m := Build(Context(Analyze(RETYPED_TENSOR).value, order), RETYPED_TENSOR).value;
      Forward(m.blocks) && m.entry < |m.blocks| && Sem.RunModule(interp, m) == Sem.Wrong
  {
    hide Analyze, Build, Flows, RunProgram, Retype, Shaped, Forward, Sem.RunModule;
    var ctx := Context(map["A" := WIDE], order);
    RetypedAnalysis();
    RetypedFlows();
    BuildsExactly(ctx, RETYPED_TENSOR);
    RetypedRuns(interp);
    PreservationExact(interp, ctx, RETYPED_TENSOR);
  }
}
