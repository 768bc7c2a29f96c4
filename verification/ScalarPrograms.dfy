/** The subset that the back end promises to compile: scalar computations beside tensor storage that is only declared.
    For it the compiler is totally correct. */
module ScalarPrograms {
  import opened Prelude
  import opened Ast
  import opened Values
  import opened IR
  import opened GeneratorSpec
  import opened AnalyzerSpec
  import opened TypeSoundness
  import opened Preservation
  import opened Correctness
  import opened GeneratorTypes
  import opened GeneratorVerifies
  import opened GenerationTotal
  import opened Retyping
  import opened SupportedSource
  import opened StorageSize
  import opened Target
  import opened LoweringSpec
  import opened LoweringExact
  import opened EndToEnd

  /** No tensor is assigned to a name in an assignment that can be reached. */
  predicate ScalarStmt(a: Analysis, s: Stmt)
    requires AnalyzeStmt(a, s).Some?
    decreases s
  {
    match s
    case Assign(_, e) => TypeExpr(a.symbols, e).value.shape == []
    case If(_, thn, els) =>
      ScalarStmts(a, thn) && ScalarStmts(AnalyzeStmts(a, thn).value.(symbols := a.symbols), els)
    case _ => true
  }

  predicate ScalarStmts(a: Analysis, ss: seq<Stmt>)
    requires AnalyzeStmts(a, ss).Some?
    decreases ss
  {
    ss != [] ==> ScalarStmt(a, ss[0]) && (FinishesStmt(ss[0]) || ScalarStmts(AnalyzeStmt(a, ss[0]).value, ss[1..]))
  }

  /** No tensor is declared where it can be reached. */
  predicate UndeclaringStmt(s: Stmt)
    decreases s
  {
    match s
    case TensorDecl(_, _) => false
    case If(_, thn, els) => Undeclaring(thn) && Undeclaring(els)
    case _ => true
  }

  predicate Undeclaring(ss: seq<Stmt>)
    decreases ss
  {
    ss != [] ==> UndeclaringStmt(ss[0]) && (FinishesStmt(ss[0]) || Undeclaring(ss[1..]))
  }

  /** Branches that meet again declare no tensors. */
  predicate SettledStmt(s: Stmt)
    decreases s
  {
    s.If? ==>
      && Settled(s.thn) && Settled(s.els)
      && (Finishes(s.thn) || Finishes(s.els) || (Undeclaring(s.thn) && Undeclaring(s.els)))
  }

  predicate Settled(ss: seq<Stmt>)
    decreases ss
  {
    ss != [] ==> SettledStmt(ss[0]) && (FinishesStmt(ss[0]) || Settled(ss[1..]))
  }

  /** Scalars in the table have target types. */
  predicate Plain(symbols: Symbols) {
    forall n | n in symbols :: symbols[n].shape == [] ==> HasTargetType(symbols[n])
  }

  lemma {:induction false} ExprPlain(symbols: Symbols, e: Expr)
    requires Plain(symbols) && TypeExpr(symbols, e).Some?
    ensures var ty := TypeExpr(symbols, e).value; ty.shape == [] ==> HasTargetType(ty)
    decreases e
  {
    match e
    case Call(callee, args) =>
      if callee == "relu" {
        ExprPlain(symbols, args[0]);
      }
    case _ =>
  }

  lemma {:induction false} StmtPlain(a: Analysis, s: Stmt)
    requires Plain(a.symbols) && AnalyzeStmt(a, s).Some? && Shaped([s])
    ensures Plain(AnalyzeStmt(a, s).value.symbols)
    decreases s
  {
    match s
    case TensorDecl(_, _) =>
    case Assign(_, e) => ExprPlain(a.symbols, e);
    case Return(_) =>
    case If(_, thn, _) =>
      StmtsPlain(a, thn);
      IfSymbols(a, s);
  }

  lemma {:induction false} StmtsPlain(a: Analysis, ss: seq<Stmt>)
    requires Plain(a.symbols) && AnalyzeStmts(a, ss).Some? && Shaped(ss)
    ensures Plain(AnalyzeStmts(a, ss).value.symbols)
    decreases ss
  {
    if ss != [] {
      StmtPlain(a, ss[0]);
      StmtsPlain(AnalyzeStmt(a, ss[0]).value, ss[1..]);
    }
  }

  lemma EmitSupported(s: State, op: Operation)
    requires Live(s) && SupportedBlocks(s.blocks) && Supported(op)
    ensures SupportedBlocks(Emit(s, op).blocks)
  {
    var b := s.current.value;
    assert SupportedOps(s.blocks[b].operations + [op]);
  }

  lemma {:induction false} ExprLowers(s: State, e: Expr)
    requires Live(s) && SupportedBlocks(s.blocks) && NoCall(e) && GenExpr(s, e).Some?
    ensures SupportedBlocks(GenExpr(s, e).value.0.blocks)
    decreases e
  {
    hide SupportedBlocks, Emit;
    match e
    case Ident(_) =>
    case IntLit(n) => EmitSupported(s, ConstantIntOp(s.nextValue, n, I64));
    case FloatLit(code) => EmitSupported(s, ConstantFloatOp(s.nextValue, code, F64));
    case Binary(op, lhs, rhs) =>
      ExprLowers(s, lhs);
      var (s1, a) := GenExpr(s, lhs).value;
      ExprLowers(s1, rhs);
      var (s2, b) := GenExpr(s1, rhs).value;
      if op.IsArithmetic() {
        EmitSupported(s2, BinaryOp(s2.nextValue, op, a.value, b.value, a.ty));
      } else {
        EmitSupported(s2, CompareOp(s2.nextValue, op, a.value, b.value, a.ty));
      }
  }

  /** Tensors are bound afterwards only as they were before. */
  ghost predicate Kept(before: Environment, after: Environment) {
    forall n :: n in after && after[n].ty.shape != [] ==> n in before && before[n] == after[n]
  }

  lemma {:induction false} MergeLowers(s: State, names: seq<string>, thenEnd: BlockId, elseEnd: BlockId,
                                       before: Environment, thenValues: Environment, elseValues: Environment)
    requires Live(s) && SupportedBlocks(s.blocks) && Plain(TypesOf(thenValues))
    requires Kept(before, thenValues) && Kept(before, elseValues) && Kept(before, s.values)
    requires MergeNames(s, names, thenEnd, elseEnd, thenValues, elseValues).Some?
    ensures var s' := MergeNames(s, names, thenEnd, elseEnd, thenValues, elseValues).value;
      SupportedBlocks(s'.blocks) && Kept(before, s'.values)
    decreases |names|
  {
    hide SupportedBlocks, Emit;
    if names != [] {
      var n, rest := names[0], names[1..];
      if n !in thenValues || n !in elseValues {
        MergeLowers(s, rest, thenEnd, elseEnd, before, thenValues, elseValues);
      } else {
        var a, b := thenValues[n], elseValues[n];
        if a.value == b.value {
          MergeLowers(s.(values := s.values[n := a]), rest, thenEnd, elseEnd, before, thenValues, elseValues);
        } else {
          var phi := PhiOp(s.nextValue, a.ty, [PhiIncoming(thenEnd, a.value), PhiIncoming(elseEnd, b.value)]);
          assert a.ty.shape == [] && n in TypesOf(thenValues);
          EmitSupported(s, phi);
          var s1 := Emit(s, phi).(values := s.values[n := ValueInfo(s.nextValue, a.ty)]);
          MergeLowers(s1, rest, thenEnd, elseEnd, before, thenValues, elseValues);
        }
      }
    }
  }

  /** Where both branches continue, their tensors are those from before them. */
  lemma JoinLowers(order: Order, s: State, before: Environment, thenEnd: Option<BlockId>, elseEnd: Option<BlockId>,
                   thenValues: Environment, elseValues: Environment)
    requires thenEnd.Some? ==> thenEnd.value < |s.blocks|
    requires elseEnd.Some? ==> elseEnd.value < |s.blocks|
    requires SupportedBlocks(s.blocks)
    requires thenEnd.Some? && elseEnd.Some? ==>
      Plain(TypesOf(thenValues)) && Kept(before, thenValues) && Kept(before, elseValues)
    requires Join(order, s, before, thenEnd, elseEnd, thenValues, elseValues).Some?
    ensures var s' := Join(order, s, before, thenEnd, elseEnd, thenValues, elseValues).value;
      && SupportedBlocks(s'.blocks)
      && (thenEnd.Some? && elseEnd.Some? ==> Kept(before, s'.values))
      && (thenEnd.None? && elseEnd.None? ==> s'.current.None?)
  {
    if thenEnd.Some? || elseEnd.Some? {
      var m := OpenMerge(s, thenEnd, elseEnd);
      assert SupportedBlocks(m.blocks);
      if thenEnd.Some? && elseEnd.Some? {
        var names := order(|s.blocks|, thenValues.Keys);
        MergeLowers(m.(values := map[]), names, thenEnd.value, elseEnd.value, before, thenValues, elseValues);
      }
    }
  }

  /** What is asked of a statement that can be reached. */
  ghost predicate LowerableStmt(symbols: Symbols, a: Analysis, s: Stmt) {
    && AnalyzeStmt(a, s).Some? && Shaped([s]) && BalancedStmt(s) && DeclarationsAgree(symbols, [s])
    && ScalarStmt(a, s) && SettledStmt(s) && FoundStmt(symbols, s) && NoCallStmt(s) && StorableStmt(symbols, s)
  }

  ghost predicate Lowerable(symbols: Symbols, a: Analysis, ss: seq<Stmt>) {
    && AnalyzeStmts(a, ss).Some? && Shaped(ss) && Balanced(ss) && DeclarationsAgree(symbols, ss)
    && ScalarStmts(a, ss) && Settled(ss) && Found(symbols, ss) && NoCallStmts(ss) && StorableStmts(symbols, ss)
  }

  /** What holds of the generator between such statements. */
  ghost predicate LowerableState(s: State, a: Analysis) {
    SupportedBlocks(s.blocks) && (s.current.Some? ==> TypesOf(s.values) == a.symbols && Plain(a.symbols))
  }

  lemma {:induction false} StmtLowers(ctx: Context, s: State, stmt: Stmt, a: Analysis)
    requires ValidOrder(ctx.order) && Live(s) && LowerableState(s, a) && LowerableStmt(ctx.symbols, a, stmt)
    requires GenStmt(ctx, s, stmt).Some?
    ensures var s' := GenStmt(ctx, s, stmt).value;
      && LowerableState(s', AnalyzeStmt(a, stmt).value)
      && (UndeclaringStmt(stmt) && s'.current.Some? ==> Kept(s.values, s'.values))
    decreases stmt
  {
    StmtInStep(ctx.symbols, a, stmt);
    StmtFlows(ctx, s, stmt);
    StmtPlain(a, stmt);
    match stmt
    case TensorDecl(name, _) => EmitSupported(s, TensorDeclOp(s.nextValue, name, ctx.symbols[name]));
    case Assign(_, e) =>
      ExprLowers(s, e);
      ExprFlows(s, e);
      ExprAgrees(a.symbols, e);
    case Return(e) => ExprLowers(s, e);
    case If(_, _, _) => IfLowers(ctx, s, stmt, a);
  }

  lemma {:induction false} IfLowers(ctx: Context, s: State, stmt: Stmt, a: Analysis)
    requires ValidOrder(ctx.order) && Live(s) && LowerableState(s, a) && stmt.If? && LowerableStmt(ctx.symbols, a, stmt)
    requires GenStmt(ctx, s, stmt).Some?
    ensures var s' := GenStmt(ctx, s, stmt).value;
      && SupportedBlocks(s'.blocks)
      && (UndeclaringStmt(stmt) && s'.current.Some? ==> Kept(s.values, s'.values))
    decreases stmt, 0
  {
    hide SupportedBlocks, Join, Plain, GenExpr, GenStmts, Kept;
    ExprLowers(s, stmt.cond);
    var (s1, c) := GenExpr(s, stmt.cond).value;
    var o := OpenBranches(s1, c.value);
    OpenLowers(s1, c.value);
    StmtsLower(ctx, o, stmt.thn, a);
    StmtsLive(ctx, o, stmt.thn);
    var s2 := GenStmts(ctx, o, stmt.thn).value;
    var e := s2.(current := Some(|s1.blocks| + 1), values := s1.values);
    StmtsLower(ctx, e, stmt.els, AnalyzeStmts(a, stmt.thn).value.(symbols := a.symbols));
    StmtsLive(ctx, e, stmt.els);
    var s3 := GenStmts(ctx, e, stmt.els).value;
    JoinLowers(ctx.order, s3, s1.values, s2.current, s3.current, s2.values, s3.values);
  }

  lemma OpenLowers(s: State, c: ValueId)
    requires Live(s) && SupportedBlocks(s.blocks)
    ensures SupportedBlocks(OpenBranches(s, c).blocks) && OpenBranches(s, c).values == s.values
  {
  }

  lemma {:induction false} StmtsLower(ctx: Context, s: State, ss: seq<Stmt>, a: Analysis)
    requires ValidOrder(ctx.order) && Live(s) && LowerableState(s, a) && Lowerable(ctx.symbols, a, ss)
    requires GenStmts(ctx, s, ss).Some?
    ensures var s' := GenStmts(ctx, s, ss).value;
      && LowerableState(s', AnalyzeStmts(a, ss).value)
      && (Undeclaring(ss) && s'.current.Some? ==> Kept(s.values, s'.values))
    decreases ss
  {
    if ss != [] {
      var s1 := GenStmt(ctx, s, ss[0]).value;
      StmtLowers(ctx, s, ss[0], a);
      StmtLive(ctx, s, ss[0]);
      if !FinishesStmt(ss[0]) {
        StmtsLower(ctx, s1, ss[1..], AnalyzeStmt(a, ss[0]).value);
      }
    }
  }

  /** What makes the back end's subset: tensors are only declared, and not where branches meet again. */
  ghost predicate StorageOnly(p: Program)
    requires Analyze(p).Some?
  {
    Balanced(p) && DeclarationsAgree(Analyze(p).value, p) && ScalarStmts(EMPTY, p) && Settled(p)
  }

  /** Exactly which of these programs compile, if the analyzer accepts them: those whose last statement is the first to
      finish every path, that reach no call, and whose reachable declarations are storable and still in the final
      table. */
  lemma StorageCompiles(order: Order, cleanup: CleanupOrder, p: Program)
    requires ValidOrder(order) && Analyze(p).Some? && Shaped(p) && StorageOnly(p)
    ensures Compile(order, cleanup, p).Some? <==>
      FinishesAtEnd(p) && NoCallStmts(p) && Found(Analyze(p).value, p) && StorableStmts(Analyze(p).value, p)
  {
    hide Found, StorableStmts, SupportedModule, Lower, NoCallStmts, Balanced, Settled, ScalarStmts;
    var ctx := Context(Analyze(p).value, order);
    GenerationExact(order, p);
    if Generate(ctx, p).Some? {
      var m := Generate(ctx, p).value;
      LoweringExactlySupported(order, cleanup, p);
      if SupportedModule(m) {
        BuiltSupported(ctx, p);
      }
      if NoCallStmts(p) && StorableStmts(ctx.symbols, p) {
        TopIsBranch(ctx, INITIAL, p);
        StartLowers();
        StmtsLower(ctx, INITIAL, p, EMPTY);
        BlocksSupported(m);
      }
    }
  }

  lemma StartLowers()
    ensures Live(INITIAL) && LowerableState(INITIAL, EMPTY)
  {
    assert TypesOf(INITIAL.values) == map[];
  }

  lemma BlocksSupported(m: Module)
    requires SupportedBlocks(m.blocks)
    ensures SupportedModule(m)
  {
  }

  /** Total correctness of the compiler on this subset. */
  lemma StorageCorrect(interp: Interp, available: Allocator, order: Order, cleanup: CleanupOrder, p: Program)
    requires ValidOrder(order) && ValidCleanup(cleanup) && Analyze(p).Some? && Shaped(p) && StorageOnly(p)
    requires FinishesAtEnd(p) && NoCallStmts(p) && Found(Analyze(p).value, p) && StorableStmts(Analyze(p).value, p)
    ensures Compile(order, cleanup, p).Some? && RunsAs(interp, available, p, Compile(order, cleanup, p).value)
  {
    hide *;
    StorageCompiles(order, cleanup, p);
    CompilerCorrect(interp, available, order, cleanup, p);
  }

  lemma {:induction false} TensorFreeUndeclaring(ss: seq<Stmt>)
    requires TensorFree(ss)
    ensures Undeclaring(ss) && Settled(ss)
    decreases ss
  {
    if ss != [] {
      TensorFreeUndeclaring(ss[1..]);
      if ss[0].If? {
        TensorFreeUndeclaring(ss[0].thn);
        TensorFreeUndeclaring(ss[0].els);
      }
    }
  }

  lemma {:induction false} TopLevelSettled(ss: seq<Stmt>)
    requires TopLevelTensors(ss)
    ensures Settled(ss)
    decreases ss
  {
    if ss != [] {
      TopLevelSettled(ss[1..]);
      if ss[0].If? {
        TensorFreeUndeclaring(ss[0].thn);
        TensorFreeUndeclaring(ss[0].els);
      }
    }
  }

  /** The types that a top-level program declares are storable. */
  ghost predicate StorableTensors(ss: seq<Stmt>) {
    forall i :: 0 <= i < |ss| && ss[i].TensorDecl? ==> Storable(ss[i].ty)
  }

  lemma {:induction false} TensorFreeStorable(symbols: Symbols, ss: seq<Stmt>)
    requires TensorFree(ss)
    ensures StorableStmts(symbols, ss)
    decreases ss
  {
    if ss != [] {
      TensorFreeStorable(symbols, ss[1..]);
      if ss[0].If? {
        TensorFreeStorable(symbols, ss[0].thn);
        TensorFreeStorable(symbols, ss[0].els);
      }
    }
  }

  lemma {:induction false} TopLevelStorable(symbols: Symbols, ss: seq<Stmt>)
    requires TopLevelTensors(ss) && DeclarationsAgree(symbols, ss) && Found(symbols, ss) && FinishesAtEnd(ss)
    ensures StorableStmts(symbols, ss) <==> StorableTensors(ss)
    decreases ss
  {
    if ss[0].If? {
      TensorFreeStorable(symbols, ss[0].thn);
      TensorFreeStorable(symbols, ss[0].els);
    }
    if |ss| > 1 {
      assert !FinishesStmt(ss[0]);
      TopLevelStorable(symbols, ss[1..]);
      assert StorableTensors(ss) <==> (ss[0].TensorDecl? ==> Storable(ss[0].ty)) && StorableTensors(ss[1..]) by {
        assert forall i :: 0 < i < |ss| ==> ss[i] == ss[1..][i - 1];
      }
    }
  }

  /** With tensors declared at top level and assignments of scalars only: an accepted program with balanced conditionals
      compiles if and only if its last statement is the first to finish every path, it reaches no call, and every
      declared type is storable. */
  lemma ScalarCompiles(order: Order, cleanup: CleanupOrder, p: Program)
    requires ValidOrder(order) && Analyze(p).Some? && Shaped(p) && TopLevelTensors(p) && Balanced(p)
      && ScalarStmts(EMPTY, p)
    ensures Compile(order, cleanup, p).Some? <==> FinishesAtEnd(p) && NoCallStmts(p) && StorableTensors(p)
  {
    hide Compile, StorableTensors, StorableStmts, NoCallStmts, Found;
    FinalTableAgrees(EMPTY, p);
    TopLevelFound(EMPTY, p);
    TopLevelSettled(p);
    StorageCompiles(order, cleanup, p);
    if FinishesAtEnd(p) {
      TopLevelStorable(Analyze(p).value, p);
    }
  }

  /** Total correctness with top-level tensors. */
  lemma ScalarCorrect(interp: Interp, available: Allocator, order: Order, cleanup: CleanupOrder, p: Program)
    requires ValidOrder(order) && ValidCleanup(cleanup)
    requires Analyze(p).Some? && Shaped(p) && TopLevelTensors(p) && Balanced(p) && ScalarStmts(EMPTY, p)
    requires FinishesAtEnd(p) && NoCallStmts(p) && StorableTensors(p)
    ensures Compile(order, cleanup, p).Some? && RunsAs(interp, available, p, Compile(order, cleanup, p).value)
  {
    hide *;
    ScalarCompiles(order, cleanup, p);
    CompilerCorrect(interp, available, order, cleanup, p);
  }
}
