/** How the generator names its blocks: by what jumps to them. */
module BlockLabels {
  import opened Prelude
  import opened Ast
  import opened IR
  import opened GeneratorSpec
  import opened Correctness

  /** A conditional goes to its two branches, and every other jump to the end of one. */
  predicate Labels(blocks: seq<BasicBlock>, t: Terminator) {
    match t
    case BranchOp(b) => b < |blocks| && blocks[b].name == "if.end"
    case CondBranchOp(_, b, e) =>
      b < |blocks| && blocks[b].name == "if.then" && e < |blocks| && blocks[e].name == "if.else"
    case ReturnOp(_) => true
  }

  ghost predicate Labelled(blocks: seq<BasicBlock>) {
    && 0 < |blocks| && blocks[0].name == "entry"
    && forall b :: 0 <= b < |blocks| && blocks[b].terminator.Some? ==> Labels(blocks, blocks[b].terminator.value)
  }

  /** Blocks that keep their names, and new terminators that fit, keep everything labelled. */
  lemma StillLabelled(blocks: seq<BasicBlock>, blocks': seq<BasicBlock>)
    requires Labelled(blocks) && |blocks| <= |blocks'|
    requires forall b :: 0 <= b < |blocks| ==> blocks'[b].name == blocks[b].name
    requires forall b :: 0 <= b < |blocks'| && blocks'[b].terminator.Some? ==>
      (b < |blocks| && blocks'[b].terminator == blocks[b].terminator) || Labels(blocks', blocks'[b].terminator.value)
    ensures Labelled(blocks')
  {
  }

  lemma EmitLabelled(s: State, op: Operation)
    requires Live(s) && Labelled(s.blocks)
    ensures Labelled(Emit(s, op).blocks)
  {
    StillLabelled(s.blocks, Emit(s, op).blocks);
  }

  lemma {:induction false} ExprLabelled(s: State, e: Expr)
    requires Live(s) && Labelled(s.blocks) && GenExpr(s, e).Some?
    ensures Labelled(GenExpr(s, e).value.0.blocks)
    decreases e
  {
    hide Labelled, Emit;
    match e
    case Ident(_) =>
    case IntLit(n) => EmitLabelled(s, ConstantIntOp(s.nextValue, n, I64));
    case FloatLit(code) => EmitLabelled(s, ConstantFloatOp(s.nextValue, code, F64));
    case Call(callee, args) =>
      ExprLabelled(s, args[0]);
      var (s1, a) := GenExpr(s, args[0]).value;
      if callee == "relu" && |args| == 1 {
        EmitLabelled(s1, ReluOp(s1.nextValue, a.value, a.ty));
      } else {
        ExprLabelled(s1, args[1]);
        var (s2, b) := GenExpr(s1, args[1]).value;
        var ty := TensorType(a.ty.elementType, [a.ty.shape[0], b.ty.shape[1]]);
        EmitLabelled(s2, MatMulOp(s2.nextValue, a.value, b.value, ty));
      }
    case Binary(op, lhs, rhs) =>
      ExprLabelled(s, lhs);
      var (s1, a) := GenExpr(s, lhs).value;
      ExprLabelled(s1, rhs);
      var (s2, b) := GenExpr(s1, rhs).value;
      if op.IsArithmetic() {
        EmitLabelled(s2, BinaryOp(s2.nextValue, op, a.value, b.value, a.ty));
      } else {
        EmitLabelled(s2, CompareOp(s2.nextValue, op, a.value, b.value, a.ty));
      }
  }

  lemma {:induction false} MergeLabelled(s: State, names: seq<string>, thenEnd: BlockId, elseEnd: BlockId,
                                         thenValues: Environment, elseValues: Environment)
    requires Live(s) && Labelled(s.blocks) && MergeNames(s, names, thenEnd, elseEnd, thenValues, elseValues).Some?
    ensures Labelled(MergeNames(s, names, thenEnd, elseEnd, thenValues, elseValues).value.blocks)
    decreases |names|
  {
    hide Labelled, Emit;
    if names != [] {
      var n, rest := names[0], names[1..];
      if n !in thenValues || n !in elseValues {
        MergeLabelled(s, rest, thenEnd, elseEnd, thenValues, elseValues);
      } else {
        var a, b := thenValues[n], elseValues[n];
        if a.value == b.value {
          MergeLabelled(s.(values := s.values[n := a]), rest, thenEnd, elseEnd, thenValues, elseValues);
        } else {
          var phi := PhiOp(s.nextValue, a.ty, [PhiIncoming(thenEnd, a.value), PhiIncoming(elseEnd, b.value)]);
          EmitLabelled(s, phi);
          var s1 := Emit(s, phi).(values := s.values[n := ValueInfo(s.nextValue, a.ty)]);
          MergeLabelled(s1, rest, thenEnd, elseEnd, thenValues, elseValues);
        }
      }
    }
  }

  lemma OpenMergeLabelled(s: State, thenEnd: Option<BlockId>, elseEnd: Option<BlockId>)
    requires Labelled(s.blocks)
    requires thenEnd.Some? ==> thenEnd.value < |s.blocks|
    requires elseEnd.Some? ==> elseEnd.value < |s.blocks|
    ensures Labelled(OpenMerge(s, thenEnd, elseEnd).blocks)
  {
    var blocks := OpenMerge(s, thenEnd, elseEnd).blocks;
    assert blocks[|s.blocks|].name == "if.end" && blocks[|s.blocks|].terminator.None?;
    StillLabelled(s.blocks, blocks);
  }

  lemma JoinLabelled(order: Order, s: State, before: Environment, thenEnd: Option<BlockId>, elseEnd: Option<BlockId>,
                     thenValues: Environment, elseValues: Environment)
    requires Labelled(s.blocks)
    requires thenEnd.Some? ==> thenEnd.value < |s.blocks|
    requires elseEnd.Some? ==> elseEnd.value < |s.blocks|
    requires Join(order, s, before, thenEnd, elseEnd, thenValues, elseValues).Some?
    ensures Labelled(Join(order, s, before, thenEnd, elseEnd, thenValues, elseValues).value.blocks)
  {
    hide Labelled, OpenMerge;
    if thenEnd.Some? || elseEnd.Some? {
      OpenMergeLabelled(s, thenEnd, elseEnd);
      if thenEnd.Some? && elseEnd.Some? {
        var m := OpenMerge(s, thenEnd, elseEnd).(values := map[]);
        MergeLabelled(m, order(|s.blocks|, thenValues.Keys), thenEnd.value, elseEnd.value, thenValues, elseValues);
      }
    }
  }

  lemma OpenLabelled(s: State, c: ValueId)
    requires Live(s) && Labelled(s.blocks)
    ensures Labelled(OpenBranches(s, c).blocks)
  {
    var blocks := OpenBranches(s, c).blocks;
    assert blocks[|s.blocks|].name == "if.then" && blocks[|s.blocks| + 1].name == "if.else";
    StillLabelled(s.blocks, blocks);
  }

  lemma {:induction false} StmtLabelled(ctx: Context, s: State, stmt: Stmt)
    requires Live(s) && Labelled(s.blocks) && GenStmt(ctx, s, stmt).Some?
    ensures Labelled(GenStmt(ctx, s, stmt).value.blocks)
    decreases stmt
  {
    hide Labelled, Join, GenExpr, GenStmts, Emit;
    match stmt
    case TensorDecl(name, _) => EmitLabelled(s, TensorDeclOp(s.nextValue, name, ctx.symbols[name]));
    case Assign(_, e) => ExprLabelled(s, e);
    case Return(e) =>
      ExprLabelled(s, e);
      var (s1, a) := GenExpr(s, e).value;
      ReturnLabelled(s1, a.value);
    case If(cond, thn, els) =>
      ExprLabelled(s, cond);
      var (s1, c) := GenExpr(s, cond).value;
      OpenLabelled(s1, c.value);
      StmtsLabelled(ctx, OpenBranches(s1, c.value), thn);
      var s2 := GenStmts(ctx, OpenBranches(s1, c.value), thn).value;
      var e := s2.(current := Some(|s1.blocks| + 1), values := s1.values);
      StmtsLabelled(ctx, e, els);
      var s3 := GenStmts(ctx, e, els).value;
      JoinLabelled(ctx.order, s3, s1.values, s2.current, s3.current, s2.values, s3.values);
  }

  lemma ReturnLabelled(s: State, v: ValueId)
    requires Live(s) && Labelled(s.blocks)
    ensures Labelled(Terminate(s.blocks, s.current.value, ReturnOp(v)))
  {
    StillLabelled(s.blocks, Terminate(s.blocks, s.current.value, ReturnOp(v)));
  }

  lemma {:induction false} StmtsLabelled(ctx: Context, s: State, ss: seq<Stmt>)
    requires Valid(s) && Labelled(s.blocks) && GenStmts(ctx, s, ss).Some?
    ensures Labelled(GenStmts(ctx, s, ss).value.blocks)
    decreases ss
  {
    hide Labelled;
    if ss != [] && s.current.Some? {
      StmtLabelled(ctx, s, ss[0]);
      StmtsLabelled(ctx, GenStmt(ctx, s, ss[0]).value, ss[1..]);
    }
  }

  /** In a built module the first block is the entry, conditionals lead to blocks for their branches, and other jumps to
      blocks for the ends of conditionals. */
  lemma BuildLabelled(ctx: Context, p: Program)
    requires Build(ctx, p).Some?
    ensures Labelled(Build(ctx, p).value.blocks)
  {
    TopIsBranch(ctx, INITIAL, p);
    StmtsLabelled(ctx, INITIAL, p);
  }
}
