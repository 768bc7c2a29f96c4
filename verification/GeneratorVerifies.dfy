/** What the generator builds for an accepted program always passes the verifier. */
module GeneratorVerifies {
  import opened Prelude
  import opened Ast
  import opened IR
  import opened GeneratorSpec
  import opened GeneratorFrame
  import opened Certificate
  import opened GeneratorCertified
  import opened GeneratedModule
  import opened WellFormed
  import opened AnalyzerSpec
  import opened TypeSoundness
  import opened GeneratorTypes
  import opened Preservation
  import opened Correctness

  /** `IRGenerator.generate`: build the module and let the verifier accept or reject it. */
  ghost function Generate(ctx: Context, p: Program): Option<Module> {
    match Build(ctx, p)
    case None => None
    case Some(m) => if WellFormedModule(m) then Some(m) else None
  }

  ghost predicate TypedIn(blocks: seq<BasicBlock>, v: ValueId, ty: TensorType) {
    exists p :: InRange(blocks, p) && OpAt(blocks, p).result == v && TypeOf(OpAt(blocks, p)) == ty
  }

  ghost predicate ReturnsTyped(blocks: seq<BasicBlock>) {
    forall b :: 0 <= b < |blocks| && Returns(blocks[b]) ==> TypedIn(blocks, blocks[b].terminator.value.value, I64)
  }

  /** The generator's environment has every integer symbol that the analyzer has, as an integer. Tensors may
      differ: the generator takes the type of a declaration from the analyzer's final table. */
  ghost predicate Knows(values: Environment, symbols: Symbols) {
    forall n :: n in symbols && symbols[n] == I64 ==> n in values && values[n].ty == I64
  }

  /** Nothing declared as a scalar integer, which no source text can do, gets another type from the final table. */
  ghost predicate IntegersStay(symbols: Symbols, ss: seq<Stmt>)
    decreases ss
  {
    ss != [] ==>
      && IntegersStay(symbols, ss[1..])
      && match ss[0]
         case TensorDecl(name, ty) => ty == I64 && name in symbols ==> symbols[name] == I64
         case If(_, thn, els) => IntegersStay(symbols, thn) && IntegersStay(symbols, els)
         case _ => true
  }

  lemma {:induction false} ShapedIntegers(symbols: Symbols, ss: seq<Stmt>)
    requires Shaped(ss) || DeclarationsAgree(symbols, ss)
    ensures IntegersStay(symbols, ss)
    decreases ss
  {
    if ss != [] {
      ShapedIntegers(symbols, ss[1..]);
      if ss[0].If? {
        ShapedIntegers(symbols, ss[0].thn);
        ShapedIntegers(symbols, ss[0].els);
      }
    }
  }

  lemma {:induction false} ExprKnown(s: State, symbols: Symbols, e: Expr)
    requires Live(s) && Knows(s.values, symbols) && TypeExpr(symbols, e) == Some(I64) && GenExpr(s, e).Some?
    ensures GenExpr(s, e).value.1.ty == I64
    decreases e
  {
    match e
    case Call(_, args) => ExprKnown(s, symbols, args[0]);
    case Binary(_, lhs, _) => ExprKnown(s, symbols, lhs);
    case _ =>
  }

  lemma TypedInGrows(blocks: seq<BasicBlock>, blocks': seq<BasicBlock>, v: ValueId, ty: TensorType)
    requires |blocks| <= |blocks'| && forall b :: 0 <= b < |blocks| ==> blocks[b].operations <= blocks'[b].operations
    requires TypedIn(blocks, v, ty)
    ensures TypedIn(blocks', v, ty)
  {
    var p :| InRange(blocks, p) && OpAt(blocks, p).result == v && TypeOf(OpAt(blocks, p)) == ty;
    assert blocks[p.block].operations <= blocks'[p.block].operations;
    assert InRange(blocks', p) && OpAt(blocks', p) == OpAt(blocks, p);
  }

  /** Generating an expression finishes no block. */
  lemma {:induction false} ExprReturns(s: State, e: Expr)
    requires Live(s) && GenExpr(s, e).Some?
    ensures var s' := GenExpr(s, e).value.0;
      forall b :: 0 <= b < |s.blocks| ==>
        s'.blocks[b].terminator == s.blocks[b].terminator && s.blocks[b].operations <= s'.blocks[b].operations
    decreases e
  {
    match e
    case Call(callee, args) =>
      ExprReturns(s, args[0]);
      if callee == "matmul" && |args| == 2 {
        ExprReturns(GenExpr(s, args[0]).value.0, args[1]);
      }
    case Binary(_, lhs, rhs) =>
      ExprReturns(s, lhs);
      ExprReturns(GenExpr(s, lhs).value.0, rhs);
    case _ =>
  }

  lemma SameTerminatorsTyped(blocks: seq<BasicBlock>, blocks': seq<BasicBlock>)
    requires ReturnsTyped(blocks) && |blocks| <= |blocks'|
    requires forall b :: 0 <= b < |blocks| ==> blocks[b].operations <= blocks'[b].operations
    requires forall b :: 0 <= b < |blocks'| && Returns(blocks'[b]) ==>
      b < |blocks| && blocks'[b].terminator == blocks[b].terminator
    ensures ReturnsTyped(blocks')
  {
    forall b | 0 <= b < |blocks'| && Returns(blocks'[b])
      ensures TypedIn(blocks', blocks'[b].terminator.value.value, I64)
    {
      TypedInGrows(blocks, blocks', blocks[b].terminator.value.value, I64);
    }
  }

  lemma {:induction false} MergeReturns(s: State, names: seq<string>, thenEnd: BlockId, elseEnd: BlockId,
                                        thenValues: Environment, elseValues: Environment)
    requires Live(s) && MergeNames(s, names, thenEnd, elseEnd, thenValues, elseValues).Some?
    ensures var s' := MergeNames(s, names, thenEnd, elseEnd, thenValues, elseValues).value;
      forall b :: 0 <= b < |s.blocks| ==>
        s'.blocks[b].terminator == s.blocks[b].terminator && s.blocks[b].operations <= s'.blocks[b].operations
    decreases |names|
  {
    if names != [] {
      var n, rest := names[0], names[1..];
      if n !in thenValues || n !in elseValues {
        MergeReturns(s, rest, thenEnd, elseEnd, thenValues, elseValues);
      } else {
        var a, b := thenValues[n], elseValues[n];
        if a.value == b.value {
          MergeReturns(s.(values := s.values[n := a]), rest, thenEnd, elseEnd, thenValues, elseValues);
        } else {
          var phi := PhiOp(s.nextValue, a.ty, [PhiIncoming(thenEnd, a.value), PhiIncoming(elseEnd, b.value)]);
          MergeReturns(Emit(s, phi).(values := s.values[n := ValueInfo(s.nextValue, a.ty)]), rest, thenEnd, elseEnd,
                       thenValues, elseValues);
        }
      }
    }
  }

  lemma JoinReturns(order: Order, s: State, before: Environment, thenEnd: Option<BlockId>, elseEnd: Option<BlockId>,
                    thenValues: Environment, elseValues: Environment)
    requires ReturnsTyped(s.blocks)
    requires thenEnd.Some? || elseEnd.Some? ==> CanMerge(s, thenEnd, elseEnd)
    requires Join(order, s, before, thenEnd, elseEnd, thenValues, elseValues).Some?
    ensures ReturnsTyped(Join(order, s, before, thenEnd, elseEnd, thenValues, elseValues).value.blocks)
  {
    if thenEnd.Some? || elseEnd.Some? {
      var m := OpenMerge(s, thenEnd, elseEnd);
      SameTerminatorsTyped(s.blocks, m.blocks);
      if thenEnd.Some? && elseEnd.Some? {
        var m0 := m.(values := map[]);
        MergeReturns(m0, order(|s.blocks|, thenValues.Keys), thenEnd.value, elseEnd.value, thenValues, elseValues);
        SameTerminatorsTyped(m0.blocks, Join(order, s, before, thenEnd, elseEnd, thenValues, elseValues).value.blocks);
      }
    }
  }

  /** At a join the generator knows at least the names the analyzer keeps. */
  lemma JoinKnows(order: Order, s: State, before: Environment, thenEnd: Option<BlockId>, elseEnd: Option<BlockId>,
                  thenValues: Environment, elseValues: Environment, symbols: Symbols)
    requires ValidOrder(order)
    requires thenEnd.Some? ==> thenEnd.value < |s.blocks| && Knows(thenValues, symbols)
    requires elseEnd.Some? ==> elseEnd.value < |s.blocks| && Knows(elseValues, symbols)
    requires Join(order, s, before, thenEnd, elseEnd, thenValues, elseValues).Some?
    ensures var s' := Join(order, s, before, thenEnd, elseEnd, thenValues, elseValues).value;
      s'.current.Some? ==> Knows(s'.values, symbols)
  {
    if thenEnd.Some? && elseEnd.Some? {
      var names := order(|s.blocks|, thenValues.Keys);
      assert IsEnumeration(names, thenValues.Keys);
      MergeFlows(OpenMerge(s, thenEnd, elseEnd).(values := map[]), names, thenEnd.value, elseEnd.value, thenValues,
                 elseValues);
    }
  }

  lemma ReturnStmtReturns(ctx: Context, s: State, e: Expr, a: Analysis, c: Cert)
    requires Consistent(s) && Live(s) && Sealed(s, c) && GenExpr(s, e).Some?
    requires TypeExpr(a.symbols, e) == Some(I64) && Knows(s.values, a.symbols) && ReturnsTyped(s.blocks)
    ensures ReturnsTyped(GenStmt(ctx, s, Return(e)).value.blocks)
  {
    hide Consistent, Grows, Sealed, Certified;
    ExprKnown(s, a.symbols, e);
    ExprReturns(s, e);
    var (s1, info) := GenExpr(s, e).value;
    SameTerminatorsTyped(s.blocks, s1.blocks);
    var c1 := GenExprCertified(s, e, c);
    CertifiedTyped(s1, c1, info.value, I64);
    ReturnTyped(s1, info.value);
  }

  lemma CertifiedTyped(s: State, c: Cert, v: ValueId, ty: TensorType)
    requires Sealed(s, c) && HasDef(s.blocks, c, v, ty)
    ensures TypedIn(s.blocks, v, ty)
  {
    assert InRange(s.blocks, c.at[v]) && OpAt(s.blocks, c.at[v]).result == v;
  }

  lemma {:induction false} StmtReturns(ctx: Context, s: State, stmt: Stmt, a: Analysis, c: Cert)
    requires ValidOrder(ctx.order) && Consistent(s) && Live(s) && Sealed(s, c) && GenStmt(ctx, s, stmt).Some?
    requires IntegersStay(ctx.symbols, [stmt])
    requires AnalyzeStmt(a, stmt).Some? && Knows(s.values, a.symbols) && ReturnsTyped(s.blocks)
    ensures var s' := GenStmt(ctx, s, stmt).value;
      ReturnsTyped(s'.blocks) && (s'.current.Some? ==> Knows(s'.values, AnalyzeStmt(a, stmt).value.symbols))
    decreases stmt
  {
    hide Sealed, Grows, TypedIn;
    match stmt
    case TensorDecl(name, _) =>
      SameTerminatorsTyped(s.blocks, GenStmt(ctx, s, stmt).value.blocks);
    case Assign(_, e) =>
      if TypeExpr(a.symbols, e) == Some(I64) {
        ExprKnown(s, a.symbols, e);
      }
      ExprReturns(s, e);
      SameTerminatorsTyped(s.blocks, GenStmt(ctx, s, stmt).value.blocks);
    case Return(e) => ReturnStmtReturns(ctx, s, e, a, c);
    case If(_, _, _) => IfReturns(ctx, s, stmt, a, c);
  }

  lemma ReturnTyped(s: State, v: ValueId)
    requires Live(s) && ReturnsTyped(s.blocks) && TypedIn(s.blocks, v, I64)
    ensures ReturnsTyped(Terminate(s.blocks, s.current.value, ReturnOp(v)))
  {
    var blocks' := Terminate(s.blocks, s.current.value, ReturnOp(v));
    forall b | 0 <= b < |blocks'| && Returns(blocks'[b])
      ensures TypedIn(blocks', blocks'[b].terminator.value.value, I64)
    {
      TypedInGrows(s.blocks, blocks', blocks'[b].terminator.value.value, I64);
    }
  }

  lemma {:induction false} IfReturns(ctx: Context, s: State, stmt: Stmt, a: Analysis, c: Cert)
    requires stmt.If? && ValidOrder(ctx.order) && Consistent(s) && Live(s) && Sealed(s, c)
      && GenStmt(ctx, s, stmt).Some?
    requires IntegersStay(ctx.symbols, [stmt])
    requires AnalyzeStmt(a, stmt).Some? && Knows(s.values, a.symbols) && ReturnsTyped(s.blocks)
    ensures var s' := GenStmt(ctx, s, stmt).value;
      ReturnsTyped(s'.blocks) && (s'.current.Some? ==> Knows(s'.values, AnalyzeStmt(a, stmt).value.symbols))
    decreases stmt, 0
  {
    hide Grows, Consistent, OpenBranches, Join, Sealed, CertGrows, Certified, Bound, MergeSymbols;
    var (s1, v) := GenExpr(s, stmt.cond).value;
    GenExprGrows(s, stmt.cond);
    ExprReturns(s, stmt.cond);
    SameTerminatorsTyped(s.blocks, s1.blocks);
    var c1 := GenExprCertified(s, stmt.cond, c);
    OpenBranchesConsistent(s1, v.value);
    OpenCertified(s1, c1, v.value);
    OpenReturns(s1, v.value);
    var o, co := OpenBranches(s1, v.value), BranchesCert(s1, c1);
    var t := AnalyzeStmts(a, stmt.thn).value;
    StmtsReturn(ctx, o, stmt.thn, a, co);
    GenStmtsGrows(ctx, o, stmt.thn);
    var s2 := GenStmts(ctx, o, stmt.thn).value;
    var c2 := GenStmtsCertified(ctx, o, stmt.thn, co);
    ElseStartConsistent(s1, s2, v.value);
    BranchesBound(s1, s2, v.value, c1, c2);
    var e := ElseStart(s1, s2);
    StmtsReturn(ctx, e, stmt.els, t.(symbols := a.symbols), c2);
    GenStmtsGrows(ctx, e, stmt.els);
    var s3 := GenStmts(ctx, e, stmt.els).value;
    BranchesMerge(s1, s2, s3, v.value);
    JoinReturns(ctx.order, s3, s1.values, s2.current, s3.current, s2.values, s3.values);
    IfSymbols(a, stmt);
    JoinKnows(ctx.order, s3, s1.values, s2.current, s3.current, s2.values, s3.values,
              AnalyzeStmt(a, stmt).value.symbols);
  }

  lemma OpenReturns(s: State, v: ValueId)
    requires Consistent(s) && Live(s) && ReturnsTyped(s.blocks)
    ensures ReturnsTyped(OpenBranches(s, v).blocks) && OpenBranches(s, v).values == s.values
  {
    SameTerminatorsTyped(s.blocks, OpenBranches(s, v).blocks);
  }

  lemma {:induction false} StmtsReturn(ctx: Context, s: State, ss: seq<Stmt>, a: Analysis, c: Cert)
    requires ValidOrder(ctx.order) && Consistent(s) && Sealed(s, c) && GenStmts(ctx, s, ss).Some?
    requires IntegersStay(ctx.symbols, ss)
    requires AnalyzeStmts(a, ss).Some? && (s.current.Some? ==> Knows(s.values, a.symbols)) && ReturnsTyped(s.blocks)
    ensures var s' := GenStmts(ctx, s, ss).value;
      ReturnsTyped(s'.blocks) && (s'.current.Some? ==> Knows(s'.values, AnalyzeStmts(a, ss).value.symbols))
    decreases ss
  {
    if ss != [] && s.current.Some? {
      StmtReturns(ctx, s, ss[0], a, c);
      GenStmtGrows(ctx, s, ss[0]);
      var c1 := GenStmtCertified(ctx, s, ss[0], c);
      StmtsReturn(ctx, GenStmt(ctx, s, ss[0]).value, ss[1..], AnalyzeStmt(a, ss[0]).value, c1);
    }
  }

  /** A phi's operand is defined in an earlier block than the phi. */
  lemma PhiOperandsElsewhere(blocks: seq<BasicBlock>, c: Cert, b: BlockId, op: Operation, k: nat)
    requires Certified(blocks, c) && b < |blocks| && op.PhiOp? && PhiOk(blocks, c, b, op) && k < |op.incoming|
    ensures c.at[op.incoming[k].value].block < b
  {
    var v, p := op.incoming[k].value, op.incoming[k].predecessor;
    if v in c.avail[p] {
      assert DefinedBefore(c, v, p);
    }
  }

  lemma PhiWellFormed(m: Module, c: Cert, b: BlockId, i: nat, op: Operation)
    requires Certified(m.blocks, c) && b < |m.blocks| && op.PhiOp? && PhiOk(m.blocks, c, b, op)
    ensures OperationOk(m, m.blocks[b].id, i, op)
  {
    forall k | 0 <= k < |op.incoming| ensures Operand(m, op.incoming[k].value, op.ty, b, i) {
      PhiOperandsElsewhere(m.blocks, c, b, op, k);
      var p := c.at[op.incoming[k].value];
      assert OpAt(m.blocks, p).result == op.incoming[k].value;
      assert DefinesTyped(m, p, op.incoming[k].value, op.ty);
    }
    forall q | q in Predecessors(m, b) ensures q in IncomingBlocks(op.incoming) {
      assert HasEdge(m.blocks[q], b);
    }
    forall q | q in IncomingBlocks(op.incoming) ensures q in Predecessors(m, b) {
      assert HasEdge(m.blocks[q], b) && m.blocks[q].id == q;
    }
  }

  lemma UseWellFormed(m: Module, c: Cert, b: BlockId, i: nat, v: ValueId, ty: TensorType)
    requires Certified(m.blocks, c) && b < |m.blocks| && Before(c, b, i, v) && HasDef(m.blocks, c, v, ty)
    ensures Operand(m, v, ty, m.blocks[b].id, i)
  {
    var p := c.at[v];
    if v in c.avail[b] {
      assert DefinedBefore(c, v, b);
    }
    assert InRange(m.blocks, p) && OpAt(m.blocks, p).result == v;
    assert DefinesTyped(m, p, v, ty);
  }

  lemma OperationWellFormed(m: Module, c: Cert, b: BlockId, i: nat, op: Operation)
    requires Certified(m.blocks, c) && b < |m.blocks| && OpOk(m.blocks, c, b, i, op)
    ensures OperationOk(m, m.blocks[b].id, i, op)
  {
    match op
    case BinaryOp(_, _, lhs, rhs, ty) =>
      UseWellFormed(m, c, b, i, lhs, ty);
      UseWellFormed(m, c, b, i, rhs, ty);
    case CompareOp(_, _, lhs, rhs, ty) =>
      UseWellFormed(m, c, b, i, lhs, ty);
      UseWellFormed(m, c, b, i, rhs, ty);
    case PhiOp(_, _, _) => PhiWellFormed(m, c, b, i, op);
    case MatMulOp(_, lhs, rhs, _) =>
      assert OpAt(m.blocks, c.at[lhs]).result == lhs && OpAt(m.blocks, c.at[rhs]).result == rhs;
    case ReluOp(_, input, _) =>
      assert OpAt(m.blocks, c.at[input]).result == input;
    case _ =>
  }

  lemma CertifiedWellFormed(m: Module, c: Cert)
    requires Certified(m.blocks, c) && AllTerminated(m) && m.entry == 0 && ReturnsTyped(m.blocks)
    ensures WellFormedModule(m)
  {
    CertifiedForward(m.blocks, c);
    assert m.blocks[0].id == m.entry;
    assert TargetsExist(m) by {
      forall b, t | 0 <= b < |m.blocks| && t in Targets(m.blocks[b].terminator.value) ensures HasBlock(m, t) {
        assert m.blocks[t].id == t;
      }
    }
    assert OperationsOk(m) by {
      forall b, i | 0 <= b < |m.blocks| && 0 <= i < |m.blocks[b].operations|
        ensures OperationOk(m, m.blocks[b].id, i, m.blocks[b].operations[i])
      {
        OperationWellFormed(m, c, b, i, m.blocks[b].operations[i]);
      }
    }
    assert UniqueResults(m);
    ReturnsWellFormed(m, c);
  }

  lemma ReturnsWellFormed(m: Module, c: Cert)
    requires Certified(m.blocks, c) && AllTerminated(m) && ReturnsTyped(m.blocks) && Forward(m.blocks)
    ensures ConditionsOk(m) && ReturnsOk(m)
  {
    forall b | 0 <= b < |m.blocks| && m.blocks[b].terminator.value.CondBranchOp?
      ensures DefinedAs(m, m.blocks[b].terminator.value.condition, I1)
    {
      var v := m.blocks[b].terminator.value.condition;
      assert TermOk(m.blocks, c, b, m.blocks[b].terminator.value);
      assert OpAt(m.blocks, c.at[v]).result == v;
      assert DefinesTyped(m, c.at[v], v, I1);
    }
    forall b | 0 <= b < |m.blocks| && Returns(m.blocks[b])
      ensures DefinedAs(m, m.blocks[b].terminator.value.value, I64)
    {
      var v := m.blocks[b].terminator.value.value;
      assert TypedIn(m.blocks, v, I64);
      var p :| InRange(m.blocks, p) && OpAt(m.blocks, p).result == v && TypeOf(OpAt(m.blocks, p)) == I64;
      assert DefinesTyped(m, p, v, I64);
    }
    assert ReturnsAs(m, I64);
    LastReturns(m.blocks);
    assert Returns(m.blocks[|m.blocks| - 1]);
  }

  /** Every value a module built for an accepted program returns is a scalar i64. */
  lemma BuiltReturns(order: Order, p: Program)
    requires ValidOrder(order) && Analyze(p).Some? && IntegersStay(Analyze(p).value, p)
    requires Build(Context(Analyze(p).value, order), p).Some?
    ensures ReturnsTyped(Build(Context(Analyze(p).value, order), p).value.blocks)
  {
    var ctx := Context(Analyze(p).value, order);
    TopIsBranch(ctx, INITIAL, p);
    var c0 := Cert([{}], [], [0]);
    assert Sealed(INITIAL, c0);
    StmtsReturn(ctx, INITIAL, p, EMPTY, c0);
  }

  lemma BuiltWellFormed(order: Order, p: Program)
    requires ValidOrder(order) && Analyze(p).Some? && IntegersStay(Analyze(p).value, p)
    requires Build(Context(Analyze(p).value, order), p).Some?
    ensures WellFormedModule(Build(Context(Analyze(p).value, order), p).value)
  {
    var c := BuildCertified(Context(Analyze(p).value, order), p);
    BuiltReturns(order, p);
    CertifiedWellFormed(Build(Context(Analyze(p).value, order), p).value, c);
  }

  /** For an accepted program, wherever it declares tensors, whatever is built passes the verifier. */
  lemma BuiltVerifies(order: Order, p: Program)
    requires ValidOrder(order) && Analyze(p).Some? && Shaped(p)
    requires Build(Context(Analyze(p).value, order), p).Some?
    ensures WellFormedModule(Build(Context(Analyze(p).value, order), p).value)
  {
    ShapedIntegers(Analyze(p).value, p);
    BuiltWellFormed(order, p);
  }
}
