/** Running a generated module gives exactly what running the source program gives. */
module Preservation {
  import opened Prelude
  import opened Ast
  import opened Values
  import Src = SourceSemantics
  import opened IR
  import opened IRSemantics
  import opened GeneratorSpec
  import opened GeneratorFrame

  /** The finished blocks continue every block of the generator's state. */
  ghost predicate Embeds(s: State, blocks: seq<BasicBlock>) {
    && |s.blocks| <= |blocks|
    && forall b :: 0 <= b < |s.blocks| ==> Continues(s.blocks[b], blocks[b])
  }

  lemma GrowsEmbeds(s: State, s': State, blocks: seq<BasicBlock>)
    requires Grows(s, s') && Embeds(s', blocks)
    ensures Embeds(s, blocks)
  {
    EmbedsTransitive(s, s', blocks);
  }

  lemma EmbedsTransitive(s: State, s': State, blocks: seq<BasicBlock>)
    requires Embeds(s, s'.blocks) && Embeds(s', blocks)
    ensures Embeds(s, blocks)
  {
    forall b | 0 <= b < |s.blocks| ensures Continues(s.blocks[b], blocks[b]) {
      assert Continues(s.blocks[b], s'.blocks[b]) && Continues(s'.blocks[b], blocks[b]);
    }
  }

  /** Every name the generator knows is bound in the source run, and its register holds the same value. */
  ghost predicate Match(regs: Regs, values: Environment, env: Src.Env) {
    forall n :: n in values ==> n in env && values[n].value in regs && regs[values[n].value] == env[n]
  }

  ghost predicate Fresh(regs: Regs, next: ValueId) {
    forall v :: v in regs ==> v < next
  }

  ghost predicate Extends(regs: Regs, regs': Regs) {
    forall v :: v in regs ==> v in regs' && regs'[v] == regs[v]
  }

  lemma MatchExtends(regs: Regs, regs': Regs, values: Environment, env: Src.Env)
    requires Match(regs, values, env) && Extends(regs, regs')
    ensures Match(regs', values, env)
  {
  }

  /** Execution can stand where the generator stands. */
  ghost predicate Standing(s: State, blocks: seq<BasicBlock>) {
    && Live(s) && s.current.value < |blocks|
    && |s.blocks[s.current.value].operations| <= |blocks[s.current.value].operations|
  }

  lemma EmbedsStanding(s: State, blocks: seq<BasicBlock>)
    requires Live(s) && Embeds(s, blocks)
    ensures Standing(s, blocks)
  {
    assert Continues(s.blocks[s.current.value], blocks[s.current.value]);
  }

  /** Where execution of the finished blocks stands when the generator is in state `s`. */
  function At(interp: Interp, blocks: seq<BasicBlock>, s: State, prev: Option<BlockId>, regs: Regs): Final
    requires Forward(blocks) && Standing(s, blocks)
  {
    Exec(interp, blocks, s.current.value, |s.blocks[s.current.value].operations|, prev, regs)
  }

  /** One emitted operation is one step of execution. */
  lemma EmitRuns(interp: Interp, blocks: seq<BasicBlock>, s: State, op: Operation, prev: Option<BlockId>, regs: Regs)
    requires Forward(blocks) && Live(s) && Embeds(Emit(s, op), blocks) && Embeds(s, blocks)
    requires op.result == s.nextValue
    ensures match EvalOp(interp, op, prev, regs)
      case Ok(v) => At(interp, blocks, s, prev, regs) == At(interp, blocks, Emit(s, op), prev, regs[s.nextValue := v])
      case Trap => At(interp, blocks, s, prev, regs) == Trapped
      case Stuck => At(interp, blocks, s, prev, regs) == Wrong
  {
    var c := s.current.value;
    assert Continues(Emit(s, op).blocks[c], blocks[c]);
    assert blocks[c].operations[|s.blocks[c].operations|] == op;
  }

  /** An expression's code leaves its value in the result register, or fails as the expression does. */
  lemma {:induction false} ExprRuns(interp: Interp, blocks: seq<BasicBlock>, s: State, e: Expr, env: Src.Env,
                                    prev: Option<BlockId>, regs: Regs) returns (regs': Regs)
    requires Consistent(s) && Live(s) && GenExpr(s, e).Some? && Forward(blocks)
    requires Embeds(s, blocks) && Embeds(GenExpr(s, e).value.0, blocks)
    requires Match(regs, s.values, env) && Fresh(regs, s.nextValue)
    ensures var (s', a) := GenExpr(s, e).value;
      match Src.EvalExpr(interp, env, e)
      case Ok(v) =>
        && At(interp, blocks, s, prev, regs) == At(interp, blocks, s', prev, regs')
        && Extends(regs, regs') && Fresh(regs', s'.nextValue) && a.value in regs' && regs'[a.value] == v
      case Trap => At(interp, blocks, s, prev, regs) == Trapped
      case Stuck => At(interp, blocks, s, prev, regs) == Wrong
    decreases e
  {
    hide At, Forward, Grows, Consistent;
    var (s', r) := GenExpr(s, e).value;
    regs' := regs;
    match e
    case Ident(_) =>
    case IntLit(n) =>
      EmitRuns(interp, blocks, s, ConstantIntOp(s.nextValue, n, I64), prev, regs);
      regs' := regs[s.nextValue := IntV(n)];
    case FloatLit(c) =>
      EmitRuns(interp, blocks, s, ConstantFloatOp(s.nextValue, c, F64), prev, regs);
      regs' := regs[s.nextValue := FloatV(c)];
    case Call(callee, args) =>
      if callee == "relu" && |args| == 1 {
        regs' := ReluRuns(interp, blocks, s, callee, args, env, prev, regs);
      } else {
        var (s1, a) := GenExpr(s, args[0]).value;
        var (s2, b) := GenExpr(s1, args[1]).value;
        var op := MatMulOp(s2.nextValue, a.value, b.value,
                           TensorType(a.ty.elementType, [a.ty.shape[0], b.ty.shape[1]]));
        regs' := OperandsRun(interp, blocks, s, e, args[0], args[1], op, env, prev, regs);
      }
    case Binary(op, lhs, rhs) =>
      var (s1, a) := GenExpr(s, lhs).value;
      var (s2, b) := GenExpr(s1, rhs).value;
      var code := if op.IsArithmetic() then BinaryOp(s2.nextValue, op, a.value, b.value, a.ty)
                  else CompareOp(s2.nextValue, op, a.value, b.value, a.ty);
      regs' := OperandsRun(interp, blocks, s, e, lhs, rhs, code, env, prev, regs);
  }

  lemma {:induction false} ReluRuns(interp: Interp, blocks: seq<BasicBlock>, s: State, callee: string, args: seq<Expr>,
                                    env: Src.Env, prev: Option<BlockId>, regs: Regs) returns (regs': Regs)
    requires callee == "relu" && |args| == 1
    requires Consistent(s) && Live(s) && GenExpr(s, Call(callee, args)).Some? && Forward(blocks)
    requires Embeds(s, blocks) && Embeds(GenExpr(s, Call(callee, args)).value.0, blocks)
    requires Match(regs, s.values, env) && Fresh(regs, s.nextValue)
    ensures var (s', a) := GenExpr(s, Call(callee, args)).value;
      match Src.EvalExpr(interp, env, Call(callee, args))
      case Ok(v) =>
        && At(interp, blocks, s, prev, regs) == At(interp, blocks, s', prev, regs')
        && Extends(regs, regs') && Fresh(regs', s'.nextValue) && a.value in regs' && regs'[a.value] == v
      case Trap => At(interp, blocks, s, prev, regs) == Trapped
      case Stuck => At(interp, blocks, s, prev, regs) == Wrong
    decreases args, 0
  {
    hide At, Forward, Grows, Consistent;
    var (s', r) := GenExpr(s, Call(callee, args)).value;
    regs' := regs;
    var (s1, a) := GenExpr(s, args[0]).value;
    var op := ReluOp(s1.nextValue, a.value, a.ty);
    GenExprGrows(s, args[0]);
    EmitGrows(s1, op);
    GrowsEmbeds(s1, s', blocks);
    var regs1 := ExprRuns(interp, blocks, s, args[0], env, prev, regs);
    if Src.EvalExpr(interp, env, args[0]).Ok? {
      EmitRuns(interp, blocks, s1, op, prev, regs1);
      regs' := regs1[s1.nextValue := ApplyRelu(interp, regs1[a.value])];
    }
  }

  /** The value of an operation with two operand registers holding `a` and `b`. */
  function Combine(interp: Interp, op: Operation, a: Val, b: Val): Outcome<Val>
    requires op.BinaryOp? || op.CompareOp? || op.MatMulOp?
  {
    match op
    case BinaryOp(_, kind, _, _, _) => ApplyBinary(interp, kind, a, b)
    case CompareOp(_, kind, _, _, _) => ApplyBinary(interp, kind, a, b)
    case MatMulOp(_, _, _, _) => ApplyMatMul(interp, a, b)
  }

  lemma {:induction false} OperandsRun(interp: Interp, blocks: seq<BasicBlock>, s: State, e: Expr, lhs: Expr, rhs: Expr,
                                       op: Operation, env: Src.Env, prev: Option<BlockId>, regs: Regs)
    returns (regs': Regs)
    requires lhs < e && rhs < e
    requires Consistent(s) && Live(s) && GenExpr(s, lhs).Some? && GenExpr(GenExpr(s, lhs).value.0, rhs).Some?
      && Forward(blocks)
    requires op.BinaryOp? || op.CompareOp? || op.MatMulOp?
    requires var (s1, a) := GenExpr(s, lhs).value; var (s2, b) := GenExpr(s1, rhs).value;
      op.lhs == a.value && op.rhs == b.value && op.result == s2.nextValue && Embeds(Emit(s2, op), blocks)
    requires Embeds(s, blocks) && Match(regs, s.values, env) && Fresh(regs, s.nextValue)
    ensures var s' := Emit(GenExpr(GenExpr(s, lhs).value.0, rhs).value.0, op);
      match (match Src.EvalExpr(interp, env, lhs)
             case Ok(x) =>
               (match Src.EvalExpr(interp, env, rhs)
                case Ok(y) => Combine(interp, op, x, y)
                case other => other)
             case other => other)
      case Ok(v) =>
        && Embeds(s', blocks)
        && At(interp, blocks, s, prev, regs) == At(interp, blocks, s', prev, regs')
        && Extends(regs, regs') && Fresh(regs', s'.nextValue) && op.result in regs' && regs'[op.result] == v
      case Trap => At(interp, blocks, s, prev, regs) == Trapped
      case Stuck => At(interp, blocks, s, prev, regs) == Wrong
    decreases e, 0
  {
    hide At, Forward, Grows, Consistent, Embeds;
    var (s1, a) := GenExpr(s, lhs).value;
    var (s2, b) := GenExpr(s1, rhs).value;
    GenExprGrows(s, lhs);
    GenExprGrows(s1, rhs);
    EmitGrows(s2, op);
    GrowsEmbeds(s2, Emit(s2, op), blocks);
    GrowsEmbeds(s1, s2, blocks);
    regs' := regs;
    var regs1 := ExprRuns(interp, blocks, s, lhs, env, prev, regs);
    if Src.EvalExpr(interp, env, lhs).Ok? {
      MatchExtends(regs, regs1, s.values, env);
      var regs2 := ExprRuns(interp, blocks, s1, rhs, env, prev, regs1);
      if Src.EvalExpr(interp, env, rhs).Ok? {
        EmitRuns(interp, blocks, s2, op, prev, regs2);
        var v := Combine(interp, op, regs2[a.value], regs2[b.value]);
        if v.Ok? {
          regs' := regs2[op.result := v.value];
        }
      }
    }
  }

  /** The phi loop's operations select, for every merged name, the value of the branch that ran. */
  lemma {:induction false} MergeRuns(interp: Interp, blocks: seq<BasicBlock>, s: State, names: seq<string>,
                                     thenEnd: BlockId,
                                     elseEnd: BlockId, thenValues: Environment, elseValues: Environment,
                                     fromThen: bool, env: Src.Env, regs: Regs) returns (regs': Regs)
    requires Consistent(s) && Live(s) && Forward(blocks) && thenEnd != elseEnd
    requires forall n :: n in thenValues ==> thenValues[n].value < s.nextValue
    requires MergeNames(s, names, thenEnd, elseEnd, thenValues, elseValues).Some?
    requires Embeds(MergeNames(s, names, thenEnd, elseEnd, thenValues, elseValues).value, blocks) && Embeds(s, blocks)
    requires Match(regs, s.values, env) && Match(regs, if fromThen then thenValues else elseValues, env)
    requires Fresh(regs, s.nextValue)
    ensures var s' := MergeNames(s, names, thenEnd, elseEnd, thenValues, elseValues).value;
      var prev := Some(if fromThen then thenEnd else elseEnd);
      && At(interp, blocks, s, prev, regs) == At(interp, blocks, s', prev, regs')
      && Match(regs', s'.values, env) && Fresh(regs', s'.nextValue)
    decreases |names|
  {
    hide Exec, Forward, Grows;
    regs' := regs;
    if names != [] {
      var n, rest := names[0], names[1..];
      if n !in thenValues || n !in elseValues {
        regs' := MergeRuns(interp, blocks, s, rest, thenEnd, elseEnd, thenValues, elseValues, fromThen, env, regs);
      } else {
        var a, b := thenValues[n], elseValues[n];
        if a.value == b.value {
          var s1 := s.(values := s.values[n := a]);
          regs' := MergeRuns(interp, blocks, s1, rest, thenEnd, elseEnd, thenValues, elseValues, fromThen, env, regs);
        } else {
          var phi := PhiOp(s.nextValue, a.ty, [PhiIncoming(thenEnd, a.value), PhiIncoming(elseEnd, b.value)]);
          var s1 := Emit(s, phi).(values := s.values[n := ValueInfo(s.nextValue, a.ty)]);
          EmitGrows(s, phi);
          MergeNamesGrows(s1, rest, thenEnd, elseEnd, thenValues, elseValues);
          GrowsEmbeds(s1, MergeNames(s1, rest, thenEnd, elseEnd, thenValues, elseValues).value, blocks);
          var prev := Some(if fromThen then thenEnd else elseEnd);
          assert PhiValue(phi.incoming, prev, regs) == Ok(env[n]) by {
            assert phi.incoming[1..] == [PhiIncoming(elseEnd, b.value)];
          }
          EmitRuns(interp, blocks, s, phi, prev, regs);
          var regs1 := regs[s.nextValue := env[n]];
          regs' := MergeRuns(interp, blocks, s1, rest, thenEnd, elseEnd, thenValues, elseValues, fromThen, env, regs1);
        }
      }
    }
  }

  ghost predicate OpenEnd(s: State, end: Option<BlockId>) {
    end.Some? ==> end.value < |s.blocks| && s.blocks[end.value].terminator.None?
  }

  /** The ends of two branches: different open blocks, and values that exist. */
  ghost predicate Ends(s: State, thenEnd: Option<BlockId>, elseEnd: Option<BlockId>, thenValues: Environment) {
    && OpenEnd(s, thenEnd) && OpenEnd(s, elseEnd)
    && (thenEnd.Some? ==> thenEnd != elseEnd)
    && forall n :: n in thenValues ==> thenValues[n].value < s.nextValue
  }

  /** From the end of the branch that ran, control reaches the join with that branch's bindings. */
  lemma JoinRuns(interp: Interp, blocks: seq<BasicBlock>, order: Order, s: State, before: Environment,
                 thenEnd: Option<BlockId>,
                 elseEnd: Option<BlockId>, thenValues: Environment, elseValues: Environment, fromThen: bool,
                 env: Src.Env, prev: Option<BlockId>, regs: Regs) returns (prev': Option<BlockId>, regs': Regs)
    requires Forward(blocks) && Consistent(s.(current := None)) && Ends(s, thenEnd, elseEnd, thenValues)
    requires Join(order, s, before, thenEnd, elseEnd, thenValues, elseValues).Some?
    requires Embeds(Join(order, s, before, thenEnd, elseEnd, thenValues, elseValues).value, blocks)
    requires (if fromThen then thenEnd else elseEnd).Some?
    requires Standing(s.(current := if fromThen then thenEnd else elseEnd), blocks)
    requires Match(regs, if fromThen then thenValues else elseValues, env) && Fresh(regs, s.nextValue)
    ensures var s' := Join(order, s, before, thenEnd, elseEnd, thenValues, elseValues).value;
      && Standing(s', blocks)
      && At(interp, blocks, s.(current := if fromThen then thenEnd else elseEnd), prev, regs) ==
        At(interp, blocks, s', prev', regs')
      && Match(regs', s'.values, env) && Fresh(regs', s'.nextValue)
  {
    var m := OpenMerge(s, thenEnd, elseEnd);
    var end := (if fromThen then thenEnd else elseEnd).value;
    prev', regs' := Some(end), regs;
    var m0 := m.(values := map[]);
    var both := thenEnd.Some? && elseEnd.Some?;
    var names := order(|s.blocks|, thenValues.Keys);
    if both {
      MergeNamesGrows(m0, names, thenEnd.value, elseEnd.value, thenValues, elseValues);
      GrowsEmbeds(m0, Join(order, s, before, thenEnd, elseEnd, thenValues, elseValues).value, blocks);
    }
    assert Embeds(m0, blocks);
    EmbedsStanding(m0, blocks);
    EmbedsStanding(Join(order, s, before, thenEnd, elseEnd, thenValues, elseValues).value, blocks);
    assert m.blocks[end] == s.blocks[end].(terminator := Some(BranchOp(|s.blocks|)));
    assert Continues(m.blocks[end], blocks[end]);
    assert At(interp, blocks, s.(current := Some(end)), prev, regs) == At(interp, blocks, m, Some(end), regs);
    if both {
      regs' := MergeRuns(interp, blocks, m0, names, thenEnd.value, elseEnd.value, thenValues, elseValues, fromThen,
                         env, regs);
    }
  }

  /** Every tensor declaration names a symbol of the declared type in the analyzer's final table. */
  ghost predicate DeclarationsAgree(symbols: map<string, TensorType>, ss: seq<Stmt>)
    decreases ss
  {
    ss != [] ==>
      && DeclarationsAgree(symbols, ss[1..])
      && match ss[0]
         case TensorDecl(name, ty) => name in symbols ==> symbols[name] == ty
         case If(_, thn, els) => DeclarationsAgree(symbols, thn) && DeclarationsAgree(symbols, els)
         case _ => true
  }

  /** From generator state `s`, execution proceeds to `s'` as the source run proceeds to `result`. */
  ghost predicate Simulates(interp: Interp, blocks: seq<BasicBlock>, s: State, prev: Option<BlockId>, regs: Regs,
                            result: Src.Result, s': State, prev': Option<BlockId>, regs': Regs)
    requires Forward(blocks) && Live(s) && Embeds(s, blocks) && Valid(s') && Embeds(s', blocks)
  {
    EmbedsStanding(s, blocks);
    match result
    case Continue(env') =>
      && Live(s')
      && (EmbedsStanding(s', blocks); At(interp, blocks, s, prev, regs) == At(interp, blocks, s', prev', regs'))
      && Match(regs', s'.values, env') && Fresh(regs', s'.nextValue)
    case Returned(v) => At(interp, blocks, s, prev, regs) == Returned(v)
    case Trapped => At(interp, blocks, s, prev, regs) == Trapped
    case Wrong => At(interp, blocks, s, prev, regs) == Wrong
  }

  lemma {:induction false} StmtRuns(interp: Interp, blocks: seq<BasicBlock>, ctx: Context, s: State, stmt: Stmt,
                                    env: Src.Env, prev: Option<BlockId>, regs: Regs)
    returns (prev': Option<BlockId>, regs': Regs)
    requires Consistent(s) && Live(s) && GenStmt(ctx, s, stmt).Some? && Forward(blocks)
    requires DeclarationsAgree(ctx.symbols, [stmt])
    requires Embeds(s, blocks) && Embeds(GenStmt(ctx, s, stmt).value, blocks)
    requires Match(regs, s.values, env) && Fresh(regs, s.nextValue)
    ensures Simulates(interp, blocks, s, prev, regs, Src.EvalStmt(interp, env, stmt), GenStmt(ctx, s, stmt).value,
                      prev', regs')
    decreases stmt
  {
    hide GenExpr, GenStmts, Join;
    prev', regs' := prev, regs;
    match stmt
    case TensorDecl(name, ty) =>
      var op := TensorDeclOp(s.nextValue, name, ctx.symbols[name]);
      EmitRuns(interp, blocks, s, op, prev, regs);
      regs' := regs[s.nextValue := TensorV(ty, interp.storage(name, ty))];
    case Assign(target, e) =>
      regs' := ExprRuns(interp, blocks, s, e, env, prev, regs);
      GenExprGrows(s, e);
    case Return(e) => ReturnRuns(interp, blocks, ctx, s, e, env, prev, regs);
    case If(_, _, _) =>
      prev', regs' := IfRuns(interp, blocks, ctx, s, stmt, env, prev, regs);
  }

  lemma ReturnRuns(interp: Interp, blocks: seq<BasicBlock>, ctx: Context, s: State, e: Expr, env: Src.Env,
                   prev: Option<BlockId>, regs: Regs)
    requires Consistent(s) && Live(s) && GenStmt(ctx, s, Return(e)).Some? && Forward(blocks)
    requires Embeds(s, blocks) && Embeds(GenStmt(ctx, s, Return(e)).value, blocks)
    requires Match(regs, s.values, env) && Fresh(regs, s.nextValue)
    ensures Simulates(interp, blocks, s, prev, regs, Src.EvalStmt(interp, env, Return(e)),
                      GenStmt(ctx, s, Return(e)).value, prev, regs)
  {
    hide GenExpr, GenStmts, Join;
    var (s1, a) := GenExpr(s, e).value;
    GenExprGrows(s, e);
    var s' := GenStmt(ctx, s, Return(e)).value;
    assert Grows(s1, s');
    GrowsEmbeds(s1, s', blocks);
    assert Continues(s'.blocks[s.current.value], blocks[s.current.value]);
    var _ := ExprRuns(interp, blocks, s, e, env, prev, regs);
  }

  /** The conditional branch takes execution to the start of the branch the source run takes. */
  lemma BranchTaken(interp: Interp, blocks: seq<BasicBlock>, s1: State, s2: State, c: ValueId, prev: Option<BlockId>,
                    regs: Regs)
    requires Forward(blocks) && Consistent(s1) && Live(s1) && Grows(OpenBranches(s1, c), s2)
    requires Embeds(OpenBranches(s1, c), blocks)
    requires Standing(s1, blocks) && Standing(OpenBranches(s1, c), blocks) && Standing(ElseStart(s1, s2), blocks)
    requires c in regs
    ensures At(interp, blocks, s1, prev, regs) ==
      if regs[c].BoolV? then
        At(interp, blocks, if regs[c].b then OpenBranches(s1, c) else ElseStart(s1, s2), s1.current, regs)
      else Wrong
  {
    var b, o := s1.current.value, OpenBranches(s1, c);
    assert Continues(o.blocks[b], blocks[b]);
    assert s2.blocks[|s1.blocks| + 1] == o.blocks[|s1.blocks| + 1];
  }

  lemma SameBlocksEmbed(s: State, s': State, blocks: seq<BasicBlock>)
    requires s.blocks == s'.blocks && Embeds(s', blocks)
    ensures Embeds(s, blocks)
  {
  }

  lemma OpenBranchesEmbed(s: State, c: ValueId, blocks: seq<BasicBlock>)
    requires Consistent(s) && Live(s) && Embeds(OpenBranches(s, c), blocks)
    ensures Embeds(s, blocks)
  {
    assert Embeds(s, OpenBranches(s, c).blocks);
    EmbedsTransitive(s, OpenBranches(s, c), blocks);
  }

  lemma OpenMergeEmbeds(s: State, thenEnd: Option<BlockId>, elseEnd: Option<BlockId>)
    requires OpenEnd(s, thenEnd) && OpenEnd(s, elseEnd)
    ensures Embeds(s, OpenMerge(s, thenEnd, elseEnd).blocks)
    ensures OpenMerge(s, thenEnd, elseEnd).blocks[|s.blocks|] == OpenBlock(|s.blocks|, "if.end")
  {
  }

  lemma BranchEnds(s1: State, s2: State, s3: State, c: ValueId)
    requires Consistent(s1) && Live(s1)
    requires Consistent(s2) && Grows(OpenBranches(s1, c), s2)
    requires Consistent(s3) && Grows(ElseStart(s1, s2), s3)
    ensures Ends(s3, s2.current, s3.current, s2.values)
    ensures s2.current.Some? ==> s3.blocks[s2.current.value] == s2.blocks[s2.current.value]
  {
    BranchesGrow(s1, s2, s3, c);
  }

  /** Joining only finishes the open ends of the branches and adds a block. */
  lemma JoinEmbeds(order: Order, s1: State, s2: State, s3: State, c: ValueId)
    requires Consistent(s1) && Live(s1)
    requires Consistent(s2) && Grows(OpenBranches(s1, c), s2)
    requires Consistent(s3) && Grows(ElseStart(s1, s2), s3)
    requires Ends(s3, s2.current, s3.current, s2.values)
    requires Join(order, s3, s1.values, s2.current, s3.current, s2.values, s3.values).Some?
    ensures Embeds(s3, Join(order, s3, s1.values, s2.current, s3.current, s2.values, s3.values).value.blocks)
  {
    if s2.current.Some? || s3.current.Some? {
      OpenMergeEmbeds(s3, s2.current, s3.current);
      if s2.current.Some? && s3.current.Some? {
        var m0 := OpenMerge(s3, s2.current, s3.current).(values := map[]);
        MergeNamesGrows(m0, order(|s3.blocks|, s2.values.Keys), s2.current.value, s3.current.value, s2.values,
                        s3.values);
        EmbedsTransitive(s3, m0, Join(order, s3, s1.values, s2.current, s3.current, s2.values, s3.values).value.blocks);
      }
    }
  }

  /** The stages of a conditional: condition done, then-branch done, else-branch done. */
  ghost predicate Staged(blocks: seq<BasicBlock>, s1: State, c: ValueId, s2: State, s3: State) {
    && Consistent(s1) && Live(s1) && Consistent(OpenBranches(s1, c)) && Consistent(s2)
    && Consistent(ElseStart(s1, s2)) && Live(ElseStart(s1, s2)) && Consistent(s3)
    && Embeds(OpenBranches(s1, c), blocks) && Embeds(s2, blocks) && Embeds(ElseStart(s1, s2), blocks)
      && Embeds(s3, blocks)
    && Grows(OpenBranches(s1, c), s2) && Grows(ElseStart(s1, s2), s3) && Ends(s3, s2.current, s3.current, s2.values)
    && (s2.current.Some? ==> s3.blocks[s2.current.value] == s2.blocks[s2.current.value])
    && Standing(s1, blocks) && Standing(OpenBranches(s1, c), blocks) && Standing(ElseStart(s1, s2), blocks)
  }

  /** The stages of a conditional are all continued by the finished blocks. */
  lemma IfEmbeds(blocks: seq<BasicBlock>, ctx: Context, s: State, stmt: Stmt)
    requires stmt.If? && Consistent(s) && Live(s) && GenStmt(ctx, s, stmt).Some?
    requires Embeds(GenStmt(ctx, s, stmt).value, blocks)
    ensures var (s1, c) := GenExpr(s, stmt.cond).value;
      var s2 := GenStmts(ctx, OpenBranches(s1, c.value), stmt.thn).value;
      Embeds(s1, blocks) && Staged(blocks, s1, c.value, s2, GenStmts(ctx, ElseStart(s1, s2), stmt.els).value)
  {
    hide Embeds, Grows, Consistent, OpenBranches, Join, Ends, Standing;
    GenExprGrows(s, stmt.cond);
    var (s1, c) := GenExpr(s, stmt.cond).value;
    var o := OpenBranches(s1, c.value);
    OpenBranchesConsistent(s1, c.value);
    GenStmtsGrows(ctx, o, stmt.thn);
    var s2 := GenStmts(ctx, o, stmt.thn).value;
    ElseStartConsistent(s1, s2, c.value);
    var e := ElseStart(s1, s2);
    GenStmtsGrows(ctx, e, stmt.els);
    var s3 := GenStmts(ctx, e, stmt.els).value;
    BranchEnds(s1, s2, s3, c.value);
    JoinEmbeds(ctx.order, s1, s2, s3, c.value);
    EmbedsTransitive(s3, GenStmt(ctx, s, stmt).value, blocks);
    GrowsEmbeds(e, s3, blocks);
    SameBlocksEmbed(s2, e, blocks);
    GrowsEmbeds(o, s2, blocks);
    OpenBranchesEmbed(s1, c.value, blocks);
    EmbedsStanding(s1, blocks);
    EmbedsStanding(o, blocks);
    EmbedsStanding(e, blocks);
  }

  /** One branch of a conditional, from its start to the join. */
  lemma {:induction false} BranchRuns(interp: Interp, blocks: seq<BasicBlock>, ctx: Context, stmt: Stmt, s1: State,
                                      c: ValueId,
                                      taken: bool, env: Src.Env, regs: Regs)
    returns (prev': Option<BlockId>, regs': Regs)
    requires stmt.If? && Forward(blocks) && Live(s1) && DeclarationsAgree(ctx.symbols, [stmt])
    requires GenStmts(ctx, OpenBranches(s1, c), stmt.thn).Some?
    requires var s2 := GenStmts(ctx, OpenBranches(s1, c), stmt.thn).value;
      && Valid(ElseStart(s1, s2)) && GenStmts(ctx, ElseStart(s1, s2), stmt.els).Some?
      && var s3 := GenStmts(ctx, ElseStart(s1, s2), stmt.els).value;
      && Staged(blocks, s1, c, s2, s3)
      && var r := Join(ctx.order, s3, s1.values, s2.current, s3.current, s2.values, s3.values);
      r.Some? && Embeds(r.value, blocks)
    requires Match(regs, s1.values, env) && Fresh(regs, s1.nextValue)
    ensures var s2 := GenStmts(ctx, OpenBranches(s1, c), stmt.thn).value;
      var s3 := GenStmts(ctx, ElseStart(s1, s2), stmt.els).value;
      Simulates(interp, blocks, if taken then OpenBranches(s1, c) else ElseStart(s1, s2), s1.current, regs,
                Src.EvalStmts(interp, env, if taken then stmt.thn else stmt.els),
                Join(ctx.order, s3, s1.values, s2.current, s3.current, s2.values, s3.values).value, prev', regs')
    decreases stmt, 0
  {
    var o := OpenBranches(s1, c);
    var s2 := GenStmts(ctx, o, stmt.thn).value;
    var e := ElseStart(s1, s2);
    var s3 := GenStmts(ctx, e, stmt.els).value;
    if taken {
      prev', regs' := StmtsRun(interp, blocks, ctx, o, stmt.thn, env, s1.current, regs);
    } else {
      prev', regs' := StmtsRun(interp, blocks, ctx, e, stmt.els, env, s1.current, regs);
    }
    var result := Src.EvalStmts(interp, env, if taken then stmt.thn else stmt.els);
    if result.Continue? {
      EmbedsStanding(if taken then s2 else s3, blocks);
      prev', regs' := JoinRuns(interp, blocks, ctx.order, s3, s1.values, s2.current, s3.current, s2.values, s3.values,
                               taken, result.env, prev', regs');
    }
  }

  lemma {:induction false} IfRuns(interp: Interp, blocks: seq<BasicBlock>, ctx: Context, s: State, stmt: Stmt,
                                  env: Src.Env, prev: Option<BlockId>, regs: Regs)
    returns (prev': Option<BlockId>, regs': Regs)
    requires stmt.If? && Consistent(s) && Live(s) && GenStmt(ctx, s, stmt).Some? && Forward(blocks)
    requires DeclarationsAgree(ctx.symbols, [stmt])
    requires Embeds(s, blocks) && Embeds(GenStmt(ctx, s, stmt).value, blocks)
    requires Match(regs, s.values, env) && Fresh(regs, s.nextValue)
    ensures Simulates(interp, blocks, s, prev, regs, Src.EvalStmt(interp, env, stmt), GenStmt(ctx, s, stmt).value,
                      prev', regs')
    decreases stmt, 1
  {
    hide Embeds, Grows, Consistent, Match, Fresh, Extends, Forward, Standing, Exec, Join, OpenBranches;
    var (s1, c) := GenExpr(s, stmt.cond).value;
    var s2 := GenStmts(ctx, OpenBranches(s1, c.value), stmt.thn).value;
    IfEmbeds(blocks, ctx, s, stmt);
    prev' := prev;
    regs' := ExprRuns(interp, blocks, s, stmt.cond, env, prev, regs);
    var v := Src.EvalExpr(interp, env, stmt.cond);
    if v.Ok? {
      BranchTaken(interp, blocks, s1, s2, c.value, prev, regs');
      if v.value.BoolV? {
        MatchExtends(regs, regs', s.values, env);
        prev', regs' := BranchRuns(interp, blocks, ctx, stmt, s1, c.value, v.value.b, env, regs');
      }
    }
  }

  lemma {:induction false} StmtsRun(interp: Interp, blocks: seq<BasicBlock>, ctx: Context, s: State, ss: seq<Stmt>,
                                    env: Src.Env, prev: Option<BlockId>, regs: Regs)
    returns (prev': Option<BlockId>, regs': Regs)
    requires Consistent(s) && Live(s) && GenStmts(ctx, s, ss).Some? && Forward(blocks)
    requires DeclarationsAgree(ctx.symbols, ss)
    requires Embeds(s, blocks) && Embeds(GenStmts(ctx, s, ss).value, blocks)
    requires Match(regs, s.values, env) && Fresh(regs, s.nextValue)
    ensures Simulates(interp, blocks, s, prev, regs, Src.EvalStmts(interp, env, ss), GenStmts(ctx, s, ss).value, prev',
                      regs')
    decreases ss
  {
    prev', regs' := prev, regs;
    if ss != [] {
      var s1 := GenStmt(ctx, s, ss[0]).value;
      GenStmtGrows(ctx, s, ss[0]);
      GenStmtsGrows(ctx, s1, ss[1..]);
      GrowsEmbeds(s1, GenStmts(ctx, s, ss).value, blocks);
      prev', regs' := StmtRuns(interp, blocks, ctx, s, ss[0], env, prev, regs);
      var first := Src.EvalStmt(interp, env, ss[0]);
      if first.Continue? {
        prev', regs' := StmtsRun(interp, blocks, ctx, s1, ss[1..], first.env, prev', regs');
      }
    }
  }
}
