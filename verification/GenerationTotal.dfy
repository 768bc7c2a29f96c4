/** When generation succeeds on accepted programs. */
module GenerationTotal {
  import opened Prelude
  import opened Ast
  import opened GeneratorSpec
  import opened GeneratorFrame
  import opened GeneratorTypes
  import opened GeneratorVerifies
  import opened AnalyzerSpec
  import opened TypeSoundness
  import opened Preservation
  import opened Correctness

  /** Building succeeds if and only if names and types flow through and every path returns at the end. */
  lemma BuildsExactly(ctx: Context, p: Program)
    requires ValidOrder(ctx.order)
    ensures Build(ctx, p).Some? <==> Flows(ctx.symbols, p)
  {
    TopFlows(ctx, INITIAL, p);
    assert TypesOf(INITIAL.values) == map[];
    if GenTop(ctx, INITIAL, p).Some? {
      TopIsBranch(ctx, INITIAL, p);
      GenStmtsGrows(ctx, INITIAL, p);
    }
  }

  /** For accepted programs the same condition decides all of generation: the verification that ends it never fails. */
  lemma GeneratesExactly(order: Order, p: Program)
    requires ValidOrder(order) && Analyze(p).Some? && Shaped(p)
    ensures Generate(Context(Analyze(p).value, order), p).Some? <==> Flows(Analyze(p).value, p)
  {
    var ctx := Context(Analyze(p).value, order);
    BuildsExactly(ctx, p);
    if Build(ctx, p).Some? {
      BuiltVerifies(order, p);
    }
  }

  /** Every path through the statement, or through the list, returns. */
  predicate FinishesStmt(s: Stmt)
    decreases s
  {
    match s
    case Return(_) => true
    case If(_, thn, els) => Finishes(thn) && Finishes(els)
    case _ => false
  }

  predicate Finishes(ss: seq<Stmt>)
    decreases ss
  {
    ss != [] && (FinishesStmt(ss[0]) || Finishes(ss[1..]))
  }

  /** Every conditional that can be reached has both branches finishing or neither. */
  predicate BalancedStmt(s: Stmt)
    decreases s
  {
    s.If? ==> (Finishes(s.thn) <==> Finishes(s.els)) && Balanced(s.thn) && Balanced(s.els)
  }

  predicate Balanced(ss: seq<Stmt>)
    decreases ss
  {
    ss != [] ==> BalancedStmt(ss[0]) && (FinishesStmt(ss[0]) || Balanced(ss[1..]))
  }

  /** The last statement is the first one after which every path has returned. */
  predicate FinishesAtEnd(p: Program) {
    p != [] && FinishesStmt(p[|p| - 1]) && forall i :: 0 <= i < |p| - 1 ==> !FinishesStmt(p[i])
  }

  /** The flow stays alive exactly as long as some path has not returned. */
  lemma {:induction false} FlowLive(symbols: Symbols, types: Types, s: Stmt)
    requires FlowStmt(symbols, types, s).Some?
    ensures FlowStmt(symbols, types, s).value.live <==> !FinishesStmt(s)
    decreases s
  {
    if s.If? {
      FlowsLive(symbols, Flow(types, true), s.thn);
      FlowsLive(symbols, Flow(types, true), s.els);
    }
  }

  lemma {:induction false} FlowsLive(symbols: Symbols, f: Flow, ss: seq<Stmt>)
    requires f.live && FlowStmts(symbols, f, ss).Some?
    ensures FlowStmts(symbols, f, ss).value.live <==> !Finishes(ss)
    decreases ss
  {
    if ss != [] {
      FlowLive(symbols, f.types, ss[0]);
      if !FinishesStmt(ss[0]) {
        FlowsLive(symbols, FlowStmt(symbols, f.types, ss[0]).value, ss[1..]);
      }
    }
  }

  /** Where analysis types an expression, generation types it the same way. */
  lemma {:induction false} ExprAgrees(symbols: Symbols, e: Expr)
    requires TypeExpr(symbols, e).Some?
    ensures FlowExpr(symbols, e) == TypeExpr(symbols, e)
    decreases e
  {
    match e
    case Call(callee, args) =>
      ExprAgrees(symbols, args[0]);
      if callee == "matmul" {
        ExprAgrees(symbols, args[1]);
      }
    case Binary(_, lhs, rhs) =>
      ExprAgrees(symbols, lhs);
      ExprAgrees(symbols, rhs);
    case _ =>
  }

  /** Every declaration that can be reached names a symbol of the table. */
  predicate FoundStmt(symbols: Symbols, s: Stmt)
    decreases s
  {
    match s
    case TensorDecl(name, _) => name in symbols
    case If(_, thn, els) => Found(symbols, thn) && Found(symbols, els)
    case _ => true
  }

  predicate Found(symbols: Symbols, ss: seq<Stmt>)
    decreases ss
  {
    ss != [] ==> FoundStmt(symbols, ss[0]) && (FinishesStmt(ss[0]) || Found(symbols, ss[1..]))
  }

  /** In balanced code, generator environment and symbol table agree in names and types wherever a path continues. */
  ghost predicate InStep(f: Flow, a: Analysis) {
    f.live ==> f.types == a.symbols
  }

  /** A step succeeds exactly if `found`, and then stays in step. */
  ghost predicate StepsIf(found: bool, f: Option<Flow>, a: Analysis) {
    (f.Some? <==> found) && (f.Some? ==> InStep(f.value, a))
  }

  lemma {:induction false} StmtInStep(symbols: Symbols, a: Analysis, s: Stmt)
    requires AnalyzeStmt(a, s).Some? && BalancedStmt(s) && DeclarationsAgree(symbols, [s])
    ensures StepsIf(FoundStmt(symbols, s), FlowStmt(symbols, a.symbols, s), AnalyzeStmt(a, s).value)
    decreases s
  {
    match s
    case TensorDecl(_, _) =>
    case Assign(target, e) =>
      ExprAgrees(a.symbols, e);
      if target in a.symbols {
        assert a.symbols[target := a.symbols[target]] == a.symbols;
      }
    case Return(e) => ExprAgrees(a.symbols, e);
    case If(cond, thn, els) =>
      ExprAgrees(a.symbols, cond);
      var t := AnalyzeStmts(a, thn).value;
      var e := AnalyzeStmts(t.(symbols := a.symbols), els).value;
      StmtsInStep(symbols, a, thn);
      StmtsInStep(symbols, t.(symbols := a.symbols), els);
      if Found(symbols, thn) && Found(symbols, els) {
        FlowsLive(symbols, Flow(a.symbols, true), thn);
        FlowsLive(symbols, Flow(a.symbols, true), els);
        MergeInStep(a, s);
      }
  }

  lemma MergeInStep(a: Analysis, s: Stmt)
    requires s.If? && AnalyzeStmt(a, s).Some?
    ensures var t := AnalyzeStmts(a, s.thn).value.symbols;
      var e := AnalyzeStmts(AnalyzeStmts(a, s.thn).value.(symbols := a.symbols), s.els).value.symbols;
      Compatible(t, e) && Common(t, e) == AnalyzeStmt(a, s).value.symbols
  {
    IfSymbols(a, s);
  }

  lemma {:induction false} StmtsInStep(symbols: Symbols, a: Analysis, ss: seq<Stmt>)
    requires AnalyzeStmts(a, ss).Some? && Balanced(ss) && DeclarationsAgree(symbols, ss)
    ensures StepsIf(Found(symbols, ss), FlowStmts(symbols, Flow(a.symbols, true), ss), AnalyzeStmts(a, ss).value)
    decreases ss
  {
    if ss != [] {
      StmtInStep(symbols, a, ss[0]);
      if FoundStmt(symbols, ss[0]) {
        FlowLive(symbols, a.symbols, ss[0]);
        if !FinishesStmt(ss[0]) {
          StmtsInStep(symbols, AnalyzeStmt(a, ss[0]).value, ss[1..]);
        }
      }
    }
  }

  lemma {:induction false} TopInStep(symbols: Symbols, a: Analysis, ss: seq<Stmt>)
    requires AnalyzeStmts(a, ss).Some? && Balanced(ss) && DeclarationsAgree(symbols, ss) && FinishesAtEnd(ss)
    ensures var f := FlowTop(symbols, Flow(a.symbols, true), ss);
      (f.Some? <==> Found(symbols, ss)) && (f.Some? ==> !f.value.live)
    decreases ss
  {
    var a1 := AnalyzeStmt(a, ss[0]).value;
    StmtInStep(symbols, a, ss[0]);
    if FoundStmt(symbols, ss[0]) {
      FlowLive(symbols, a.symbols, ss[0]);
    }
    if |ss| > 1 {
      assert !FinishesStmt(ss[0]);
      TopInStep(symbols, a1, ss[1..]);
    }
  }

  /** Only a program whose last statement is the first to finish every path is ever generated. */
  lemma {:induction false} FlowsFinish(symbols: Symbols, f: Flow, ss: seq<Stmt>)
    requires f.live && FlowTop(symbols, f, ss).Some? && !FlowTop(symbols, f, ss).value.live
    ensures FinishesAtEnd(ss)
    decreases ss
  {
    var f1 := FlowStmt(symbols, f.types, ss[0]).value;
    FlowLive(symbols, f.types, ss[0]);
    if |ss| > 1 {
      FlowsFinish(symbols, f1, ss[1..]);
      forall i | 0 <= i < |ss| - 1 ensures !FinishesStmt(ss[i]) {
        if 0 < i {
          assert ss[i] == ss[1..][i - 1];
        }
      }
    }
  }

  lemma GeneratedFinish(ctx: Context, p: Program)
    requires ValidOrder(ctx.order) && Build(ctx, p).Some?
    ensures FinishesAtEnd(p)
  {
    BuildsExactly(ctx, p);
    FlowsFinish(ctx.symbols, Flow(map[], true), p);
  }

  /** Totality in balanced code, wherever tensors are declared: with types that agree with the final table, an
      accepted program is generated if and only if its last statement is the first to finish every path and the
      table still has every declared name that can be reached. */
  lemma GenerationExact(order: Order, p: Program)
    requires ValidOrder(order) && Analyze(p).Some? && Balanced(p) && DeclarationsAgree(Analyze(p).value, p)
    ensures Generate(Context(Analyze(p).value, order), p).Some? <==> FinishesAtEnd(p) && Found(Analyze(p).value, p)
  {
    var ctx := Context(Analyze(p).value, order);
    BuildsExactly(ctx, p);
    if FinishesAtEnd(p) {
      TopInStep(ctx.symbols, EMPTY, p);
    }
    if Build(ctx, p).Some? {
      GeneratedFinish(ctx, p);
      ShapedIntegers(ctx.symbols, p);
      BuiltWellFormed(order, p);
    }
  }

  lemma {:induction false} TensorFreeFound(symbols: Symbols, ss: seq<Stmt>)
    requires TensorFree(ss)
    ensures Found(symbols, ss)
    decreases ss
  {
    if ss != [] {
      TensorFreeFound(symbols, ss[1..]);
      if ss[0].If? {
        TensorFreeFound(symbols, ss[0].thn);
        TensorFreeFound(symbols, ss[0].els);
      }
    }
  }

  lemma {:induction false} TopLevelFound(a: Analysis, ss: seq<Stmt>)
    requires AnalyzeStmts(a, ss).Some? && TopLevelTensors(ss)
    ensures Found(AnalyzeStmts(a, ss).value.symbols, ss)
    decreases ss
  {
    if ss != [] {
      var a1, symbols := AnalyzeStmt(a, ss[0]).value, AnalyzeStmts(a, ss).value.symbols;
      TopLevelFound(a1, ss[1..]);
      AnalyzeStmtsKeeps(a1, ss[1..]);
      if ss[0].If? {
        TensorFreeFound(symbols, ss[0].thn);
        TensorFreeFound(symbols, ss[0].els);
      }
    }
  }

  /** In particular, an accepted program whose tensors are declared at top level and whose reachable conditionals are
      balanced is generated if and only if its last statement is the first to finish every path. */
  lemma GenerationSucceeds(order: Order, p: Program)
    requires ValidOrder(order) && Analyze(p).Some? && TopLevelTensors(p) && Balanced(p)
    ensures Generate(Context(Analyze(p).value, order), p).Some? <==> FinishesAtEnd(p)
  {
    FinalTableAgrees(EMPTY, p);
    TopLevelFound(EMPTY, p);
    GenerationExact(order, p);
  }

  const CONDITION := Binary(Less, IntLit(1), IntLit(2))

  /** An inner conditional with one returning branch leaves the generator a name the analyzer dropped; the
      outer join then compares its type with an unrelated binding of the same name. */
  const UNBALANCED_JOIN: Program := [
    If(CONDITION,
       [If(CONDITION, [Assign("X", IntLit(1))], [Return(IntLit(0))])],
       [Assign("X", FloatLit(0))]),
    Return(IntLit(0))]

  /** The dropped name is declared again as a tensor, which the generator takes for a duplicate. */
  const UNBALANCED_TENSOR: Program := [
    If(CONDITION, [Assign("A", IntLit(1))], [Return(IntLit(0))]),
    TensorDecl("A", TensorType("f32", [2])),
    Return(IntLit(0))]

  /** Balance cannot be dropped: both programs satisfy every other hypothesis and are not generated. */
  lemma BalanceNeeded(order: Order)
    requires ValidOrder(order)
    ensures Analyze(UNBALANCED_JOIN).Some? && TopLevelTensors(UNBALANCED_JOIN) && FinishesAtEnd(UNBALANCED_JOIN)
    ensures Generate(Context(Analyze(UNBALANCED_JOIN).value, order), UNBALANCED_JOIN).None?
    ensures Analyze(UNBALANCED_TENSOR).Some? && TopLevelTensors(UNBALANCED_TENSOR) && FinishesAtEnd(UNBALANCED_TENSOR)
    ensures Generate(Context(Analyze(UNBALANCED_TENSOR).value, order), UNBALANCED_TENSOR).None?
  {
    JoinExample();
    TensorExample();
    BuildsExactly(Context(Analyze(UNBALANCED_JOIN).value, order), UNBALANCED_JOIN);
    BuildsExactly(Context(Analyze(UNBALANCED_TENSOR).value, order), UNBALANCED_TENSOR);
  }

  lemma JoinExample()
    ensures Analyze(UNBALANCED_JOIN).Some? && TopLevelTensors(UNBALANCED_JOIN) && FinishesAtEnd(UNBALANCED_JOIN)
    ensures !Flows(Analyze(UNBALANCED_JOIN).value, UNBALANCED_JOIN)
  {
    var outer := UNBALANCED_JOIN[0];
    var inner := outer.thn[0];
    assert TensorFree(inner.thn) && TensorFree(inner.els) && TensorFree(outer.thn) && TensorFree(outer.els);
    assert TypeExpr(map[], CONDITION) == Some(I1) == FlowExpr(map[], CONDITION);
    assert AnalyzeStmts(EMPTY, inner.thn) == Some(Analysis(map["X" := I64], None)) by {
      assert inner.thn[1..] == [];
    }
    assert AnalyzeStmts(EMPTY, inner.els) == Some(Analysis(map[], Some(I64))) by {
      assert inner.els[1..] == [];
    }
    assert NewNames(map[], map["X" := I64], map[]) == {};
    assert AnalyzeStmt(EMPTY, inner) == Some(Analysis(map[], Some(I64)));
    assert AnalyzeStmts(EMPTY, outer.thn) == Some(Analysis(map[], Some(I64))) by {
      assert outer.thn[1..] == [];
    }
    var a := Analysis(map[], Some(I64));
    assert AnalyzeStmts(a, outer.els) == Some(a.(symbols := map["X" := F64])) by {
      assert outer.els[1..] == [];
    }
    assert NewNames(map[], map[], map["X" := F64]) == {};
    assert AnalyzeStmt(EMPTY, outer) == Some(a);
    assert UNBALANCED_JOIN[1..] == [Return(IntLit(0))] && [Return(IntLit(0))][1..] == [];
    assert AnalyzeStmts(a, [Return(IntLit(0))]) == Some(a);

    var s: Symbols := map[];
    assert FlowStmts(s, Flow(s, true), inner.thn) == Some(Flow(map["X" := I64], true)) by {
      assert inner.thn[1..] == [];
    }
    assert FlowStmts(s, Flow(s, true), inner.els) == Some(Flow(s, false));
    assert FlowStmt(s, s, inner) == Some(Flow(map["X" := I64], true));
    assert FlowStmts(s, Flow(s, true), outer.thn) == Some(Flow(map["X" := I64], true)) by {
      assert outer.thn[1..] == [];
    }
    assert FlowStmts(s, Flow(s, true), outer.els) == Some(Flow(map["X" := F64], true)) by {
      assert outer.els[1..] == [];
    }
    assert !Compatible(map["X" := I64], map["X" := F64]);
  }

  lemma TensorExample()
    ensures Analyze(UNBALANCED_TENSOR).Some? && TopLevelTensors(UNBALANCED_TENSOR) && FinishesAtEnd(UNBALANCED_TENSOR)
    ensures !Flows(Analyze(UNBALANCED_TENSOR).value, UNBALANCED_TENSOR)
  {
    var first, ty := UNBALANCED_TENSOR[0], TensorType("f32", [2]);
    assert TensorFree(first.thn) && TensorFree(first.els);
    assert TypeExpr(map[], CONDITION) == Some(I1) == FlowExpr(map[], CONDITION);
    assert AnalyzeStmts(EMPTY, first.thn) == Some(Analysis(map["A" := I64], None)) by {
      assert first.thn[1..] == [];
    }
    assert AnalyzeStmts(EMPTY, first.els) == Some(Analysis(map[], Some(I64))) by {
      assert first.els[1..] == [];
    }
    assert NewNames(map[], map["A" := I64], map[]) == {};
    var a := Analysis(map[], Some(I64));
    assert AnalyzeStmt(EMPTY, first) == Some(a);
    var rest := UNBALANCED_TENSOR[1..];
    assert rest == [TensorDecl("A", ty), Return(IntLit(0))] && rest[1..] == [Return(IntLit(0))] && rest[1..][1..] == [];
    var b := Analysis(map["A" := ty], Some(I64));
    assert AnalyzeStmts(b, rest[1..]) == Some(b);
    assert AnalyzeStmts(a, rest) == Some(b);

    var s := Analyze(UNBALANCED_TENSOR).value;
    assert FlowStmts(s, Flow(map[], true), first.thn) == Some(Flow(map["A" := I64], true)) by {
      assert first.thn[1..] == [];
    }
    assert FlowStmts(s, Flow(map[], true), first.els) == Some(Flow(map[], false));
    assert FlowStmt(s, map[], first) == Some(Flow(map["A" := I64], true));
    assert FlowTop(s, Flow(map["A" := I64], true), rest).None?;
  }

  /** A tensor declared in a branch is missing from the final symbol table, where the generator looks for its type. */
  const NESTED_TENSOR: Program := [If(CONDITION, [TensorDecl("A", TensorType("f32", [2]))], []), Return(IntLit(0))]

  /** Nor can the tensors' place be dropped. */
  lemma TopLevelNeeded(order: Order)
    requires ValidOrder(order)
    ensures Analyze(NESTED_TENSOR).Some? && Balanced(NESTED_TENSOR) && FinishesAtEnd(NESTED_TENSOR)
    ensures Generate(Context(Analyze(NESTED_TENSOR).value, order), NESTED_TENSOR).None?
  {
    NestedExample();
    BuildsExactly(Context(Analyze(NESTED_TENSOR).value, order), NESTED_TENSOR);
  }

  lemma NestedExample()
    ensures Analyze(NESTED_TENSOR).Some? && Balanced(NESTED_TENSOR) && FinishesAtEnd(NESTED_TENSOR)
    ensures !Flows(Analyze(NESTED_TENSOR).value, NESTED_TENSOR)
  {
    var first, rest, ty := NESTED_TENSOR[0], NESTED_TENSOR[1..], TensorType("f32", [2]);
    assert rest == [Return(IntLit(0))] && rest[1..] == [];
    assert TypeExpr(map[], CONDITION) == Some(I1) == FlowExpr(map[], CONDITION);
    assert AnalyzeStmts(EMPTY, first.thn) == Some(Analysis(map["A" := ty], None)) by {
      assert first.thn[1..] == [];
    }
    assert NewNames(map[], map["A" := ty], map[]) == {};
    assert AnalyzeStmt(EMPTY, first) == Some(EMPTY);
    assert AnalyzeStmts(EMPTY, rest) == Some(Analysis(map[], Some(I64)));
    assert !Finishes(first.thn) && !Finishes(first.els) && Balanced(first.thn) && Balanced(first.els) by {
      assert first.thn[1..] == [];
    }
    assert Balanced(rest);
    assert FlowStmts(map[], Flow(map[], true), first.thn).None?;
  }
}
