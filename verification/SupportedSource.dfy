/** What it says about a program that the module built for it has only operations that lowering supports. */
module SupportedSource {
  import opened Prelude
  import opened Ast
  import opened IR
  import opened GeneratorSpec
  import opened GeneratorFrame
  import opened GeneratedModule
  import opened Preservation
  import opened Correctness
  import opened GenerationTotal
  import opened Retyping
  import opened StorageSize
  import opened LoweringExact

  ghost predicate SupportedBlocks(blocks: seq<BasicBlock>) {
    forall b :: 0 <= b < |blocks| ==> SupportedOps(blocks[b].operations)
  }

  /** Every declaration that can be reached gets a storable type from the table. */
  ghost predicate StorableStmt(symbols: map<string, TensorType>, s: Stmt)
    decreases s
  {
    match s
    case TensorDecl(name, _) => name in symbols ==> Storable(symbols[name])
    case If(_, thn, els) => StorableStmts(symbols, thn) && StorableStmts(symbols, els)
    case _ => true
  }

  ghost predicate StorableStmts(symbols: map<string, TensorType>, ss: seq<Stmt>)
    decreases ss
  {
    ss != [] ==> StorableStmt(symbols, ss[0]) && (FinishesStmt(ss[0]) || StorableStmts(symbols, ss[1..]))
  }

  lemma LastSupported(s: State, op: Operation, blocks: seq<BasicBlock>)
    requires Live(s) && Embeds(Emit(s, op), blocks) && SupportedBlocks(blocks)
    ensures Supported(op)
  {
    var b := s.current.value;
    assert Continues(Emit(s, op).blocks[b], blocks[b]);
    assert blocks[b].operations[|s.blocks[b].operations|] == op;
  }

  lemma {:induction false} ExprSupported(s: State, e: Expr, blocks: seq<BasicBlock>)
    requires Consistent(s) && Live(s) && GenExpr(s, e).Some?
    requires Embeds(GenExpr(s, e).value.0, blocks) && SupportedBlocks(blocks)
    ensures NoCall(e)
    decreases e
  {
    hide Embeds, Consistent, Grows, SupportedBlocks;
    match e
    case Call(callee, args) =>
      var (s1, a) := GenExpr(s, args[0]).value;
      if callee == "relu" && |args| == 1 {
        LastSupported(s1, ReluOp(s1.nextValue, a.value, a.ty), blocks);
      } else {
        var (s2, b) := GenExpr(s1, args[1]).value;
        var ty := TensorType(a.ty.elementType, [a.ty.shape[0], b.ty.shape[1]]);
        LastSupported(s2, MatMulOp(s2.nextValue, a.value, b.value, ty), blocks);
      }
    case Binary(op, lhs, rhs) =>
      var (s1, a) := GenExpr(s, lhs).value;
      var (s2, b) := GenExpr(s1, rhs).value;
      var code := if op.IsArithmetic() then BinaryOp(s2.nextValue, op, a.value, b.value, a.ty)
                  else CompareOp(s2.nextValue, op, a.value, b.value, a.ty);
      GenExprGrows(s, lhs);
      GenExprGrows(s1, rhs);
      EmitGrows(s2, code);
      GrowsEmbeds(s2, Emit(s2, code), blocks);
      GrowsEmbeds(s1, s2, blocks);
      ExprSupported(s, lhs, blocks);
      ExprSupported(s1, rhs, blocks);
    case _ =>
  }

  lemma {:induction false} StmtSupported(ctx: Context, s: State, stmt: Stmt, blocks: seq<BasicBlock>)
    requires Consistent(s) && Live(s) && GenStmt(ctx, s, stmt).Some?
    requires Embeds(GenStmt(ctx, s, stmt).value, blocks) && SupportedBlocks(blocks)
    ensures NoCallStmt(stmt) && StorableStmt(ctx.symbols, stmt)
    decreases stmt
  {
    hide Consistent, Grows, SupportedBlocks, Join, OpenBranches, Storable;
    match stmt
    case TensorDecl(name, _) =>
      var op := TensorDeclOp(s.nextValue, name, ctx.symbols[name]);
      SameBlocksEmbed(Emit(s, op), GenStmt(ctx, s, stmt).value, blocks);
      LastSupported(s, op, blocks);
    case Assign(_, e) =>
      SameBlocksEmbed(GenExpr(s, e).value.0, GenStmt(ctx, s, stmt).value, blocks);
      ExprSupported(s, e, blocks);
    case Return(e) =>
      ReturnEmbeds(ctx, s, e, blocks);
      ExprSupported(s, e, blocks);
    case If(cond, thn, els) =>
      IfEmbeds(blocks, ctx, s, stmt);
      var (s1, c) := GenExpr(s, cond).value;
      ExprSupported(s, cond, blocks);
      StmtsSupported(ctx, OpenBranches(s1, c.value), thn, blocks);
      var s2 := GenStmts(ctx, OpenBranches(s1, c.value), thn).value;
      StmtsSupported(ctx, ElseStart(s1, s2), els, blocks);
  }

  lemma ReturnEmbeds(ctx: Context, s: State, e: Expr, blocks: seq<BasicBlock>)
    requires Consistent(s) && Live(s) && GenExpr(s, e).Some? && Embeds(GenStmt(ctx, s, Return(e)).value, blocks)
    ensures Embeds(GenExpr(s, e).value.0, blocks)
  {
    var s1 := GenExpr(s, e).value.0;
    GenExprGrows(s, e);
    assert Grows(s1, GenStmt(ctx, s, Return(e)).value);
    GrowsEmbeds(s1, GenStmt(ctx, s, Return(e)).value, blocks);
  }

  lemma {:induction false} StmtsSupported(ctx: Context, s: State, ss: seq<Stmt>, blocks: seq<BasicBlock>)
    requires Consistent(s) && Live(s) && GenStmts(ctx, s, ss).Some?
    requires Embeds(GenStmts(ctx, s, ss).value, blocks) && SupportedBlocks(blocks)
    ensures NoCallStmts(ss) && StorableStmts(ctx.symbols, ss)
    decreases ss
  {
    hide Grows, SupportedBlocks, NoCallStmt, StorableStmt, Embeds;
    if ss != [] {
      var s1 := GenStmt(ctx, s, ss[0]).value;
      GenStmtGrows(ctx, s, ss[0]);
      GenStmtsGrows(ctx, s1, ss[1..]);
      GrowsEmbeds(s1, GenStmts(ctx, s, ss).value, blocks);
      StmtSupported(ctx, s, ss[0], blocks);
      StmtLive(ctx, s, ss[0]);
      if !FinishesStmt(ss[0]) {
        StmtsSupported(ctx, s1, ss[1..], blocks);
      }
    }
  }

  /** A path stays open exactly after a statement that does not finish every path. */
  lemma {:induction false} StmtLive(ctx: Context, s: State, stmt: Stmt)
    requires Live(s) && GenStmt(ctx, s, stmt).Some?
    ensures GenStmt(ctx, s, stmt).value.current.Some? <==> !FinishesStmt(stmt)
    decreases stmt
  {
    hide GenExpr, MergeNames;
    if stmt.If? {
      var (s1, c) := GenExpr(s, stmt.cond).value;
      var o := OpenBranches(s1, c.value);
      StmtsLive(ctx, o, stmt.thn);
      var s2 := GenStmts(ctx, o, stmt.thn).value;
      StmtsLive(ctx, s2.(current := Some(|s1.blocks| + 1), values := s1.values), stmt.els);
    }
  }

  lemma {:induction false} StmtsLive(ctx: Context, s: State, ss: seq<Stmt>)
    requires Live(s) && GenStmts(ctx, s, ss).Some?
    ensures GenStmts(ctx, s, ss).value.current.Some? <==> !Finishes(ss)
    decreases ss
  {
    if ss != [] {
      StmtLive(ctx, s, ss[0]);
      if !FinishesStmt(ss[0]) {
        StmtsLive(ctx, GenStmt(ctx, s, ss[0]).value, ss[1..]);
      }
    }
  }

  /** A module without unsupported operations comes from a program that reaches no call and whose reachable
      declarations are storable. */
  lemma BuiltSupported(ctx: Context, p: Program)
    requires Build(ctx, p).Some? && SupportedModule(Build(ctx, p).value)
    ensures NoCallStmts(p) && StorableStmts(ctx.symbols, p)
  {
    var m := Build(ctx, p).value;
    TopIsBranch(ctx, INITIAL, p);
    assert Embeds(Finished(ctx, p), m.blocks);
    StmtsSupported(ctx, INITIAL, p, m.blocks);
  }
}
