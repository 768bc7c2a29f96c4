/** What generating code leaves alone: only the current block and blocks created on the way change. */
module GeneratorFrame {
  import opened Prelude
  import opened Ast
  import opened IR
  import opened GeneratorSpec

  /** The current block, when there is one, is still open, and every environment value exists. */
  ghost predicate Consistent(s: State) {
    && Valid(s)
    && (s.current.Some? ==> s.blocks[s.current.value].terminator.None?)
    && forall n :: n in s.values ==> s.values[n].value < s.nextValue
  }

  /** `late` continues `early`: it may have more operations, and a terminator where `early` had none. */
  ghost predicate Continues(early: BasicBlock, late: BasicBlock) {
    && early.id == late.id && early.name == late.name
    && early.operations <= late.operations
    && (early.terminator.Some? ==> early == late)
  }

  ghost predicate Grows(s: State, s': State) {
    && |s.blocks| <= |s'.blocks| && s.nextValue <= s'.nextValue
    && (forall b :: 0 <= b < |s.blocks| && Some(b) != s.current ==> s'.blocks[b] == s.blocks[b])
    && (forall b :: 0 <= b < |s.blocks| ==> Continues(s.blocks[b], s'.blocks[b]))
    && (s'.current.Some? ==> s'.current == s.current || |s.blocks| <= s'.current.value)
    && (forall b :: 0 <= b < |s'.blocks| && (|s.blocks| <= b || Some(b) == s.current) && Some(b) != s'.current
          ==> s'.blocks[b].terminator.Some?)
  }

  lemma GrowsTransitive(s0: State, s1: State, s2: State)
    requires Grows(s0, s1) && Grows(s1, s2)
    ensures Grows(s0, s2)
  {
    forall b | 0 <= b < |s0.blocks| ensures Continues(s0.blocks[b], s2.blocks[b]) {
      assert Continues(s0.blocks[b], s1.blocks[b]) && Continues(s1.blocks[b], s2.blocks[b]);
    }
  }

  lemma EmitGrows(s: State, op: Operation)
    requires Consistent(s) && Live(s)
    ensures Consistent(Emit(s, op)) && Grows(s, Emit(s, op))
  {
  }

  lemma {:induction false} GenExprGrows(s: State, e: Expr)
    requires Consistent(s) && Live(s) && GenExpr(s, e).Some?
    ensures var (s', a) := GenExpr(s, e).value; Consistent(s') && Grows(s, s') && a.value < s'.nextValue
    decreases e
  {
    match e
    case Ident(_) =>
    case IntLit(n) => EmitGrows(s, ConstantIntOp(s.nextValue, n, I64));
    case FloatLit(c) => EmitGrows(s, ConstantFloatOp(s.nextValue, c, F64));
    case Call(callee, args) =>
      var (s', _) := GenExpr(s, e).value;
      GenExprGrows(s, args[0]);
      var (s1, a) := GenExpr(s, args[0]).value;
      if callee == "relu" && |args| == 1 {
        EmitGrows(s1, ReluOp(s1.nextValue, a.value, a.ty));
        GrowsTransitive(s, s1, s');
      } else {
        GenExprGrows(s1, args[1]);
        var (s2, b) := GenExpr(s1, args[1]).value;
        var ty := TensorType(a.ty.elementType, [a.ty.shape[0], b.ty.shape[1]]);
        EmitGrows(s2, MatMulOp(s2.nextValue, a.value, b.value, ty));
        GrowsTransitive(s, s1, s2);
        GrowsTransitive(s, s2, s');
      }
    case Binary(op, lhs, rhs) =>
      var (s', _) := GenExpr(s, e).value;
      GenExprGrows(s, lhs);
      var (s1, a) := GenExpr(s, lhs).value;
      GenExprGrows(s1, rhs);
      var (s2, b) := GenExpr(s1, rhs).value;
      if op.IsArithmetic() {
        EmitGrows(s2, BinaryOp(s2.nextValue, op, a.value, b.value, a.ty));
      } else {
        EmitGrows(s2, CompareOp(s2.nextValue, op, a.value, b.value, a.ty));
      }
      GrowsTransitive(s, s1, s2);
      GrowsTransitive(s, s2, s');
  }

  lemma {:induction false} MergeNamesGrows(s: State, names: seq<string>, thenEnd: BlockId, elseEnd: BlockId,
                                           thenValues: Environment, elseValues: Environment)
    requires Consistent(s) && Live(s)
    requires forall n :: n in thenValues ==> thenValues[n].value < s.nextValue
    requires MergeNames(s, names, thenEnd, elseEnd, thenValues, elseValues).Some?
    ensures var s' := MergeNames(s, names, thenEnd, elseEnd, thenValues, elseValues).value;
      Consistent(s') && Grows(s, s')
    decreases |names|
  {
    if names != [] {
      var n, rest := names[0], names[1..];
      if n !in thenValues || n !in elseValues {
        MergeNamesGrows(s, rest, thenEnd, elseEnd, thenValues, elseValues);
      } else {
        var a, b := thenValues[n], elseValues[n];
        if a.value == b.value {
          MergeNamesGrows(s.(values := s.values[n := a]), rest, thenEnd, elseEnd, thenValues, elseValues);
        } else {
          var phi := PhiOp(s.nextValue, a.ty, [PhiIncoming(thenEnd, a.value), PhiIncoming(elseEnd, b.value)]);
          EmitGrows(s, phi);
          var s1 := Emit(s, phi).(values := s.values[n := ValueInfo(s.nextValue, a.ty)]);
          MergeNamesGrows(s1, rest, thenEnd, elseEnd, thenValues, elseValues);
          GrowsTransitive(s, s1, MergeNames(s1, rest, thenEnd, elseEnd, thenValues, elseValues).value);
        }
      }
    }
  }

  /** The state in which the else branch starts: the then branch is done, its end may still be open. */
  function ElseStart(s1: State, s2: State): State {
    s2.(current := Some(|s1.blocks| + 1), values := s1.values)
  }

  /** A conditional's branches leave every older block but the condition block alone, and the two ends differ. */
  lemma BranchesGrow(s1: State, s2: State, s3: State, c: ValueId)
    requires Consistent(s1) && Live(s1)
    requires Consistent(s2) && Grows(OpenBranches(s1, c), s2)
    requires Consistent(s3) && Grows(ElseStart(s1, s2), s3)
    ensures s2.current.Some? ==> s2.current != s3.current && |s1.blocks| <= s2.current.value < |s3.blocks|
    ensures s3.current.Some? ==> |s1.blocks| < s3.current.value
    ensures |s1.blocks| + 2 <= |s2.blocks| <= |s3.blocks|
    ensures forall b :: 0 <= b < |s1.blocks| && b != s1.current.value ==> s3.blocks[b] == s1.blocks[b]
    ensures s3.blocks[s1.current.value] == OpenBranches(s1, c).blocks[s1.current.value]
    ensures s3.blocks[s1.current.value].terminator.Some?
      && Continues(s1.blocks[s1.current.value], s3.blocks[s1.current.value])
    ensures forall b :: |s1.blocks| <= b < |s3.blocks| && Some(b) != s2.current && Some(b) != s3.current
              ==> s3.blocks[b].terminator.Some?
    ensures s2.current.Some? ==> s3.blocks[s2.current.value] == s2.blocks[s2.current.value]
    ensures s1.nextValue <= s2.nextValue <= s3.nextValue
  {
    var o := OpenBranches(s1, c);
    assert |o.blocks| == |s1.blocks| + 2;
    forall b | 0 <= b < |s1.blocks| ensures s3.blocks[b] == o.blocks[b] {
      assert s2.blocks[b] == o.blocks[b];
    }
    forall b | |s1.blocks| <= b < |s3.blocks| && Some(b) != s2.current && Some(b) != s3.current
      ensures s3.blocks[b].terminator.Some?
    {
      if b < |s2.blocks| && b != |s1.blocks| + 1 {
        assert s3.blocks[b] == s2.blocks[b];
      }
    }
  }

  lemma OpenBranchesConsistent(s: State, c: ValueId)
    requires Consistent(s) && Live(s)
    ensures Consistent(OpenBranches(s, c)) && Live(OpenBranches(s, c))
  {
  }

  lemma OpenMergeGrows(s1: State, s2: State, s3: State, c: ValueId)
    requires Consistent(s1) && Live(s1)
    requires Consistent(s2) && Grows(OpenBranches(s1, c), s2)
    requires Consistent(s3) && Grows(ElseStart(s1, s2), s3)
    requires s2.current.Some? || s3.current.Some?
    requires s2.current.Some? ==> s2.current.value < |s3.blocks|
    ensures Grows(s1, OpenMerge(s3, s2.current, s3.current))
    ensures OpenMerge(s3, s2.current, s3.current).blocks[|s3.blocks|] == OpenBlock(|s3.blocks|, "if.end")
  {
    hide OpenBranches, ElseStart;
    BranchesGrow(s1, s2, s3, c);
    var m := OpenMerge(s3, s2.current, s3.current);
    forall b | 0 <= b < |s1.blocks| ensures m.blocks[b] == s3.blocks[b] && Continues(s1.blocks[b], m.blocks[b]) {
    }
    forall b | |s1.blocks| <= b < |m.blocks| && Some(b) != m.current ensures m.blocks[b].terminator.Some? {
    }
  }

  lemma NeitherGrows(s1: State, s2: State, s3: State, c: ValueId)
    requires Consistent(s1) && Live(s1)
    requires Consistent(s2) && Grows(OpenBranches(s1, c), s2)
    requires Consistent(s3) && Grows(ElseStart(s1, s2), s3)
    requires s2.current.None? && s3.current.None?
    ensures Grows(s1, s3.(current := None, values := s1.values))
    ensures Consistent(s3.(current := None, values := s1.values))
  {
    hide OpenBranches, ElseStart;
    BranchesGrow(s1, s2, s3, c);
    assert forall b :: 0 <= b < |s1.blocks| ==> Continues(s1.blocks[b], s3.blocks[b]);
  }

  /** Binding other names changes no block. */
  lemma RebindGrows(s: State, m: State, values: Environment)
    requires Grows(s, m)
    ensures Grows(s, m.(values := values))
  {
  }

  lemma JoinGrows(order: Order, s1: State, s2: State, s3: State, c: ValueId)
    requires Consistent(s1) && Live(s1)
    requires Consistent(s2) && Grows(OpenBranches(s1, c), s2)
    requires Consistent(s3) && Grows(ElseStart(s1, s2), s3)
    requires Join(order, s3, s1.values, s2.current, s3.current, s2.values, s3.values).Some?
    ensures Consistent(Join(order, s3, s1.values, s2.current, s3.current, s2.values, s3.values).value)
    ensures Grows(s1, Join(order, s3, s1.values, s2.current, s3.current, s2.values, s3.values).value)
  {
    hide MergeNames, Grows, OpenBranches, ElseStart;
    BranchesGrow(s1, s2, s3, c);
    if s2.current.None? && s3.current.None? {
      NeitherGrows(s1, s2, s3, c);
    } else {
      OpenMergeGrows(s1, s2, s3, c);
      var m := OpenMerge(s3, s2.current, s3.current);
      if s2.current.None? {
        RebindGrows(s1, m, s3.values);
      } else if s3.current.None? {
        RebindGrows(s1, m, s2.values);
      } else {
        var m0 := m.(values := map[]);
        RebindGrows(s1, m, map[]);
        MergeNamesGrows(m0, order(|s3.blocks|, s2.values.Keys), s2.current.value, s3.current.value, s2.values,
                        s3.values);
        GrowsTransitive(s1, m0, Join(order, s3, s1.values, s2.current, s3.current, s2.values, s3.values).value);
      }
    }
  }

  lemma {:induction false} GenStmtGrows(ctx: Context, s: State, stmt: Stmt)
    requires Consistent(s) && Live(s) && GenStmt(ctx, s, stmt).Some?
    ensures var s' := GenStmt(ctx, s, stmt).value; Consistent(s') && Grows(s, s')
    decreases stmt
  {
    match stmt
    case TensorDecl(name, _) =>
      EmitGrows(s, TensorDeclOp(s.nextValue, name, ctx.symbols[name]));
    case Assign(_, e) => GenExprGrows(s, e);
    case Return(e) =>
      GenExprGrows(s, e);
    case If(_, _, _) => GenIfGrows(ctx, s, stmt);
  }

  lemma {:induction false} GenIfGrows(ctx: Context, s: State, stmt: Stmt)
    requires stmt.If? && Consistent(s) && Live(s) && GenStmt(ctx, s, stmt).Some?
    ensures Consistent(GenStmt(ctx, s, stmt).value) && Grows(s, GenStmt(ctx, s, stmt).value)
    decreases stmt, 0
  {
    hide Grows, Consistent, OpenBranches, Join;
    GenExprGrows(s, stmt.cond);
    var (s1, c) := GenExpr(s, stmt.cond).value;
    OpenBranchesConsistent(s1, c.value);
    GenStmtsGrows(ctx, OpenBranches(s1, c.value), stmt.thn);
    var s2 := GenStmts(ctx, OpenBranches(s1, c.value), stmt.thn).value;
    ElseStartConsistent(s1, s2, c.value);
    GenStmtsGrows(ctx, ElseStart(s1, s2), stmt.els);
    var s3 := GenStmts(ctx, ElseStart(s1, s2), stmt.els).value;
    JoinGrows(ctx.order, s1, s2, s3, c.value);
    GrowsTransitive(s, s1, GenStmt(ctx, s, stmt).value);
  }

  lemma ElseStartConsistent(s1: State, s2: State, c: ValueId)
    requires Consistent(s1) && Live(s1) && Consistent(s2) && Grows(OpenBranches(s1, c), s2)
    ensures Consistent(ElseStart(s1, s2)) && Live(ElseStart(s1, s2))
  {
    var o := OpenBranches(s1, c);
    assert s2.blocks[|s1.blocks| + 1] == o.blocks[|s1.blocks| + 1] == OpenBlock(|s1.blocks| + 1, "if.else");
  }

  lemma {:induction false} GenStmtsGrows(ctx: Context, s: State, ss: seq<Stmt>)
    requires Consistent(s) && GenStmts(ctx, s, ss).Some?
    ensures var s' := GenStmts(ctx, s, ss).value; Consistent(s') && Grows(s, s')
    decreases ss
  {
    if ss != [] && s.current.Some? {
      GenStmtGrows(ctx, s, ss[0]);
      var s1 := GenStmt(ctx, s, ss[0]).value;
      GenStmtsGrows(ctx, s1, ss[1..]);
      GrowsTransitive(s, s1, GenStmts(ctx, s, ss).value);
    }
  }
}
