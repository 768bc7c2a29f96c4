/** Generation keeps a certificate: whatever program it is given, every state it passes through is certified. */
module GeneratorCertified {
  import opened Prelude
  import opened Ast
  import opened IR
  import opened GeneratorSpec
  import opened GeneratorFrame
  import opened Certificate

  lemma EmitSealed(s: State, c: Cert, op: Operation)
    requires Consistent(s) && Live(s) && Sealed(s, c) && op.result == s.nextValue && !op.PhiOp?
    requires var b := s.current.value; OpOk(s.blocks, c, b, |s.blocks[b].operations|, op)
    ensures Sealed(Emit(s, op), EmitCert(s, c)) && CertGrows(c, EmitCert(s, c))
    ensures AtEnd(EmitCert(s, c), s.current.value, op.result)
    ensures HasDef(Emit(s, op).blocks, EmitCert(s, c), op.result, TypeOf(op))
  {
    EmitCertified(s, c, op);
    BoundGrows(s.blocks, Emit(s, op).blocks, c, EmitCert(s, c), s.current.value, s.values);
  }

  /** At the end of an open block, everything defined in it comes before the next operation. */
  lemma EndIsBefore(s: State, c: Cert, v: ValueId)
    requires Live(s) && Sealed(s, c) && AtEnd(c, s.current.value, v)
    ensures Before(c, s.current.value, |s.blocks[s.current.value].operations|, v)
  {
    assert InRange(s.blocks, c.at[v]);
  }

  lemma CertGrowsReflexive(c: Cert)
    ensures CertGrows(c, c)
  {
  }

  lemma AtEndGrows(c: Cert, c': Cert, b: BlockId, v: ValueId)
    requires CertGrows(c, c') && AtEnd(c, b, v)
    ensures AtEnd(c', b, v)
  {
  }

  lemma GrowsOperations(s: State, s': State)
    requires Grows(s, s')
    ensures |s.blocks| <= |s'.blocks| && forall b :: 0 <= b < |s.blocks| ==>
      s.blocks[b].operations <= s'.blocks[b].operations
  {
    assert forall b :: 0 <= b < |s.blocks| ==> Continues(s.blocks[b], s'.blocks[b]);
  }

  lemma {:induction false} GenExprCertified(s: State, e: Expr, c: Cert) returns (c': Cert)
    requires Consistent(s) && Live(s) && Sealed(s, c) && GenExpr(s, e).Some?
    ensures var (s', a) := GenExpr(s, e).value;
      && Sealed(s', c') && CertGrows(c, c')
      && AtEnd(c', s.current.value, a.value) && HasDef(s'.blocks, c', a.value, a.ty)
    decreases e
  {
    hide Grows, Certified, CertGrows;
    c' := c;
    CertGrowsReflexive(c);
    match e
    case Ident(_) =>
    case IntLit(n) =>
      EmitSealed(s, c, ConstantIntOp(s.nextValue, n, I64));
      c' := EmitCert(s, c);
    case FloatLit(code) =>
      EmitSealed(s, c, ConstantFloatOp(s.nextValue, code, F64));
      c' := EmitCert(s, c);
    case Call(callee, args) =>
      if callee == "relu" && |args| == 1 {
        var (s1, a) := GenExpr(s, args[0]).value;
        GenExprGrows(s, args[0]);
        var c1 := GenExprCertified(s, args[0], c);
        EndIsBefore(s1, c1, a.value);
        EmitSealed(s1, c1, ReluOp(s1.nextValue, a.value, a.ty));
        c' := EmitCert(s1, c1);
        CertGrowsTransitive(c, c1, c');
      } else {
        var (s1, a) := GenExpr(s, args[0]).value;
        var (s2, b) := GenExpr(s1, args[1]).value;
        var c2 := OperandsCertified(s, e, args[0], args[1], c);
        EmitSealed(s2, c2, MatMulOp(s2.nextValue, a.value, b.value,
                                    TensorType(a.ty.elementType, [a.ty.shape[0], b.ty.shape[1]])));
        c' := EmitCert(s2, c2);
        CertGrowsTransitive(c, c2, c');
      }
    case Binary(op, lhs, rhs) =>
      var (s1, a) := GenExpr(s, lhs).value;
      var (s2, b) := GenExpr(s1, rhs).value;
      var c2 := OperandsCertified(s, e, lhs, rhs, c);
      var code := if op.IsArithmetic() then BinaryOp(s2.nextValue, op, a.value, b.value, a.ty)
                  else CompareOp(s2.nextValue, op, a.value, b.value, a.ty);
      EmitSealed(s2, c2, code);
      c' := EmitCert(s2, c2);
      CertGrowsTransitive(c, c2, c');
  }

  lemma {:induction false} OperandsCertified(s: State, e: Expr, lhs: Expr, rhs: Expr, c: Cert) returns (c2: Cert)
    requires lhs < e && rhs < e
    requires Consistent(s) && Live(s) && Sealed(s, c) && GenExpr(s, lhs).Some?
      && GenExpr(GenExpr(s, lhs).value.0, rhs).Some?
    ensures var (s1, a) := GenExpr(s, lhs).value;
      var (s2, b) := GenExpr(s1, rhs).value;
      var i := |s2.blocks[s2.current.value].operations|;
      && Consistent(s2) && Sealed(s2, c2) && CertGrows(c, c2)
      && Before(c2, s2.current.value, i, a.value) && HasDef(s2.blocks, c2, a.value, a.ty)
      && Before(c2, s2.current.value, i, b.value) && HasDef(s2.blocks, c2, b.value, b.ty)
    decreases e, 0
  {
    hide Grows, Consistent, Sealed, CertGrows, AtEnd, Before, HasDef;
    var (s1, a) := GenExpr(s, lhs).value;
    var (s2, b) := GenExpr(s1, rhs).value;
    GenExprGrows(s, lhs);
    GenExprGrows(s1, rhs);
    var c1 := GenExprCertified(s, lhs, c);
    c2 := GenExprCertified(s1, rhs, c1);
    CertGrowsTransitive(c, c1, c2);
    GrowsOperations(s1, s2);
    HasDefGrows(s1.blocks, s2.blocks, c1, c2, a.value, a.ty);
    AtEndGrows(c1, c2, s.current.value, a.value);
    EndIsBefore(s2, c2, a.value);
    EndIsBefore(s2, c2, b.value);
  }

  lemma EdgesInRange(blocks: seq<BasicBlock>, c: Cert)
    requires TermsOk(blocks, c)
    ensures forall p, t: BlockId :: 0 <= p < |blocks| && HasEdge(blocks[p], t) ==> p < t < |blocks|
  {
    forall p, t: BlockId | 0 <= p < |blocks| && HasEdge(blocks[p], t) ensures p < t < |blocks| {
      assert EdgeOk(blocks, c, p, t);
    }
  }

  ghost predicate CanMerge(s: State, thenEnd: Option<BlockId>, elseEnd: Option<BlockId>) {
    && (thenEnd.Some? || elseEnd.Some?)
    && (thenEnd.Some? ==> thenEnd.value < |s.blocks| && s.blocks[thenEnd.value].terminator.None? && thenEnd != elseEnd)
    && (elseEnd.Some? ==> elseEnd.value < |s.blocks| && s.blocks[elseEnd.value].terminator.None?)
  }

  lemma OpenMergeEdges(s: State, c: Cert, thenEnd: Option<BlockId>, elseEnd: Option<BlockId>)
    requires Certified(s.blocks, c) && CanMerge(s, thenEnd, elseEnd)
    ensures forall p :: 0 <= p <= |s.blocks| ==>
      (HasEdge(OpenMerge(s, thenEnd, elseEnd).blocks[p], |s.blocks|) <==> Some(p) == thenEnd || Some(p) == elseEnd)
    ensures forall p, t: BlockId :: 0 <= p <= |s.blocks| && HasEdge(OpenMerge(s, thenEnd, elseEnd).blocks[p], t) ==>
      |s.blocks| <= t || (p < |s.blocks| && HasEdge(s.blocks[p], t))
  {
    EdgesInRange(s.blocks, c);
  }

  lemma OpenMergeCertified(s: State, c: Cert, thenEnd: Option<BlockId>, elseEnd: Option<BlockId>)
    requires Certified(s.blocks, c) && CanMerge(s, thenEnd, elseEnd)
    ensures Certified(OpenMerge(s, thenEnd, elseEnd).blocks, MergeCert(s, c, thenEnd, elseEnd))
    ensures CertGrows(c, MergeCert(s, c, thenEnd, elseEnd)) && MergeCert(s, c, thenEnd, elseEnd).at == c.at
  {
    var m, blocks', c' := |s.blocks|, OpenMerge(s, thenEnd, elseEnd).blocks, MergeCert(s, c, thenEnd, elseEnd);
    if thenEnd.Some? {
      LeavingBefore(s.blocks, c, thenEnd.value, m);
      assert EdgeOk(blocks', c', thenEnd.value, m);
    }
    if elseEnd.Some? {
      LeavingBefore(s.blocks, c, elseEnd.value, m);
      assert EdgeOk(blocks', c', elseEnd.value, m);
    }
    OpenMergeEdges(s, c, thenEnd, elseEnd);
    assert Targets(BranchOp(m)) == {m};
    hide Targets, HasEdge, AtEnd, DefinedBefore, EdgeOk;
    ExtendCertified(s.blocks, blocks', c, c');
  }

  /** Facts about a join that the phi loop relies on and keeps. */
  ghost predicate Merging(s: State, c: Cert, thenEnd: BlockId, elseEnd: BlockId, thenValues: Environment,
                          elseValues: Environment) {
    && Consistent(s) && Live(s) && Sealed(s, c)
    && var m := s.current.value;
    && thenEnd < m && elseEnd < m && thenEnd != elseEnd
    && Bound(s.blocks, c, thenEnd, thenValues) && Bound(s.blocks, c, elseEnd, elseValues)
    && (forall v :: AtEnd(c, thenEnd, v) && AtEnd(c, elseEnd, v) ==> AtEnd(c, m, v))
    && (forall p :: 0 <= p < |s.blocks| ==> (HasEdge(s.blocks[p], m) <==> p == thenEnd || p == elseEnd))
    && (forall i :: 0 <= i < |s.blocks[m].operations| ==> s.blocks[m].operations[i].PhiOp?)
  }

  lemma EmitBound(s: State, c: Cert, op: Operation, b: BlockId, values: Environment)
    requires Live(s) && Bound(s.blocks, c, b, values)
    ensures Bound(Emit(s, op).blocks, EmitCert(s, c), b, values)
  {
    BoundGrows(s.blocks, Emit(s, op).blocks, c, EmitCert(s, c), b, values);
  }

  lemma EmitBinds(s: State, c: Cert, op: Operation, n: string)
    requires Live(s) && |c.at| == s.nextValue == op.result && Certified(s.blocks, c)
    requires Bound(s.blocks, c, s.current.value, s.values)
    ensures Bound(Emit(s, op).blocks, EmitCert(s, c), s.current.value,
                  s.values[n := ValueInfo(s.nextValue, TypeOf(op))])
  {
    EmitBound(s, c, op, s.current.value, s.values);
  }

  lemma EmitCommon(s: State, c: Cert, op: Operation, thenEnd: BlockId, elseEnd: BlockId)
    requires Live(s) && thenEnd < s.current.value && elseEnd < s.current.value
    requires forall v :: AtEnd(c, thenEnd, v) && AtEnd(c, elseEnd, v) ==> AtEnd(c, s.current.value, v)
    requires Certified(s.blocks, c)
    ensures forall v :: AtEnd(EmitCert(s, c), thenEnd, v) && AtEnd(EmitCert(s, c), elseEnd, v) ==>
      AtEnd(EmitCert(s, c), s.current.value, v)
  {
    var c1 := EmitCert(s, c);
    forall v: ValueId | AtEnd(c1, thenEnd, v) && AtEnd(c1, elseEnd, v) ensures AtEnd(c1, s.current.value, v) {
      if v < |c.at| {
        assert AtEnd(c, thenEnd, v) && AtEnd(c, elseEnd, v);
      }
    }
  }

  lemma PhiEmits(s: State, c: Cert, thenEnd: BlockId, elseEnd: BlockId, thenValues: Environment,
                 elseValues: Environment,
                 a: ValueInfo, b: ValueInfo)
    requires Merging(s, c, thenEnd, elseEnd, thenValues, elseValues) && a.ty == b.ty
    requires AtEnd(c, thenEnd, a.value) && HasDef(s.blocks, c, a.value, a.ty)
    requires AtEnd(c, elseEnd, b.value) && HasDef(s.blocks, c, b.value, b.ty)
    ensures var phi := PhiOp(s.nextValue, a.ty, [PhiIncoming(thenEnd, a.value), PhiIncoming(elseEnd, b.value)]);
      Certified(Emit(s, phi).blocks, EmitCert(s, c)) && CertGrows(c, EmitCert(s, c))
  {
    var phi := PhiOp(s.nextValue, a.ty, [PhiIncoming(thenEnd, a.value), PhiIncoming(elseEnd, b.value)]);
    assert PhiOk(s.blocks, c, s.current.value, phi) by {
      assert phi.incoming[0].predecessor == thenEnd && phi.incoming[1].predecessor == elseEnd;
    }
    EmitCertified(s, c, phi);
  }

  lemma BoundAt(blocks: seq<BasicBlock>, c: Cert, b: BlockId, values: Environment, n: string)
    requires Bound(blocks, c, b, values) && n in values
    ensures AtEnd(c, b, values[n].value) && HasDef(blocks, c, values[n].value, values[n].ty)
  {
  }

  lemma PhiCertified(s: State, c: Cert, thenEnd: BlockId, elseEnd: BlockId, thenValues: Environment,
                     elseValues: Environment, n: string)
    requires Merging(s, c, thenEnd, elseEnd, thenValues, elseValues)
    requires n in thenValues && n in elseValues && thenValues[n].ty == elseValues[n].ty
    ensures var a, b := thenValues[n], elseValues[n];
      var phi := PhiOp(s.nextValue, a.ty, [PhiIncoming(thenEnd, a.value), PhiIncoming(elseEnd, b.value)]);
      var s1 := Emit(s, phi).(values := s.values[n := ValueInfo(s.nextValue, a.ty)]);
      Merging(s1, EmitCert(s, c), thenEnd, elseEnd, thenValues, elseValues) && CertGrows(c, EmitCert(s, c))
  {
    hide Certified, Bound;
    var a, b := thenValues[n], elseValues[n];
    var phi := PhiOp(s.nextValue, a.ty, [PhiIncoming(thenEnd, a.value), PhiIncoming(elseEnd, b.value)]);
    var s1, c1 := Emit(s, phi).(values := s.values[n := ValueInfo(s.nextValue, a.ty)]), EmitCert(s, c);
    assert AtEnd(c, thenEnd, a.value)
      && HasDef(s.blocks, c, a.value, a.ty) by { BoundAt(s.blocks, c, thenEnd, thenValues, n); }
    assert AtEnd(c, elseEnd, b.value)
      && HasDef(s.blocks, c, b.value, b.ty) by { BoundAt(s.blocks, c, elseEnd, elseValues, n); }
    PhiEmits(s, c, thenEnd, elseEnd, thenValues, elseValues, a, b);
    EmitBound(s, c, phi, thenEnd, thenValues);
    EmitBound(s, c, phi, elseEnd, elseValues);
    EmitBinds(s, c, phi, n);
    EmitCommon(s, c, phi, thenEnd, elseEnd);
  }

  lemma SharedCertified(s: State, c: Cert, thenEnd: BlockId, elseEnd: BlockId, thenValues: Environment,
                        elseValues: Environment, n: string)
    requires Merging(s, c, thenEnd, elseEnd, thenValues, elseValues)
    requires n in thenValues && n in elseValues && thenValues[n].value == elseValues[n].value
    ensures Merging(s.(values := s.values[n := thenValues[n]]), c, thenEnd, elseEnd, thenValues, elseValues)
  {
    hide Certified, HasDef;
    assert AtEnd(c, s.current.value, thenValues[n].value);
  }

  lemma {:induction false} MergeNamesCertified(s: State, names: seq<string>, thenEnd: BlockId, elseEnd: BlockId,
                                               thenValues: Environment, elseValues: Environment, c: Cert)
    returns (c': Cert)
    requires Live(s) && Merging(s, c, thenEnd, elseEnd, thenValues, elseValues)
    requires MergeNames(s, names, thenEnd, elseEnd, thenValues, elseValues).Some?
    ensures Sealed(MergeNames(s, names, thenEnd, elseEnd, thenValues, elseValues).value, c') && CertGrows(c, c')
    decreases |names|
  {
    c' := c;
    CertGrowsReflexive(c);
    if names == [] {
    } else {
      hide CertGrows, Merging;
      var n, rest := names[0], names[1..];
      if n !in thenValues || n !in elseValues {
        c' := MergeNamesCertified(s, rest, thenEnd, elseEnd, thenValues, elseValues, c);
      } else {
        var a, b := thenValues[n], elseValues[n];
        if a.value == b.value {
          SharedCertified(s, c, thenEnd, elseEnd, thenValues, elseValues, n);
          c' := MergeNamesCertified(s.(values := s.values[n := a]), rest, thenEnd, elseEnd, thenValues, elseValues, c);
        } else {
          PhiCertified(s, c, thenEnd, elseEnd, thenValues, elseValues, n);
          var phi := PhiOp(s.nextValue, a.ty, [PhiIncoming(thenEnd, a.value), PhiIncoming(elseEnd, b.value)]);
          var s1 := Emit(s, phi).(values := s.values[n := ValueInfo(s.nextValue, a.ty)]);
          c' := MergeNamesCertified(s1, rest, thenEnd, elseEnd, thenValues, elseValues, EmitCert(s, c));
          CertGrowsTransitive(c, EmitCert(s, c), c');
        }
      }
    }
  }

  lemma LeavingBound(blocks: seq<BasicBlock>, c: Cert, b: BlockId, m: BlockId, values: Environment)
    requires Bound(blocks, c, b, values)
    requires forall v :: AtEnd(c, b, v) ==> AtEnd(c, m, v)
    ensures Bound(blocks, c, m, values)
  {
  }

  lemma MergeLeaves(s: State, c: Cert, thenEnd: Option<BlockId>, elseEnd: Option<BlockId>)
    requires Certified(s.blocks, c) && CanMerge(s, thenEnd, elseEnd)
    ensures var c' := MergeCert(s, c, thenEnd, elseEnd);
      && (thenEnd.None? ==> forall v :: AtEnd(c', elseEnd.value, v) ==> AtEnd(c', |s.blocks|, v))
      && (elseEnd.None? ==> forall v :: AtEnd(c', thenEnd.value, v) ==> AtEnd(c', |s.blocks|, v))
      && (thenEnd.Some? && elseEnd.Some? ==>
            forall v :: AtEnd(c', thenEnd.value, v) && AtEnd(c', elseEnd.value, v) ==> AtEnd(c', |s.blocks|, v))
  {
    var c' := MergeCert(s, c, thenEnd, elseEnd);
    if thenEnd.Some? {
      forall v | AtEnd(c', thenEnd.value, v) ensures v in Leaving(c, thenEnd.value) {
      }
    }
    if elseEnd.Some? {
      forall v | AtEnd(c', elseEnd.value, v) ensures v in Leaving(c, elseEnd.value) {
      }
    }
  }

  lemma JoinCertified(order: Order, s: State, c: Cert, before: Environment, thenEnd: Option<BlockId>,
                      elseEnd: Option<BlockId>,
                      thenValues: Environment, elseValues: Environment) returns (c': Cert)
    requires Certified(s.blocks, c) && |c.at| == s.nextValue && Consistent(s.(current := None))
    requires thenEnd.Some? || elseEnd.Some? ==> CanMerge(s, thenEnd, elseEnd)
    requires thenEnd.Some? ==> Bound(s.blocks, c, thenEnd.value, thenValues)
    requires elseEnd.Some? ==> Bound(s.blocks, c, elseEnd.value, elseValues)
    requires Join(order, s, before, thenEnd, elseEnd, thenValues, elseValues).Some?
    ensures Sealed(Join(order, s, before, thenEnd, elseEnd, thenValues, elseValues).value, c') && CertGrows(c, c')
  {
    hide Certified, Bound, AtEnd, HasEdge, MergeCert, MergeNames;
    c' := c;
    if thenEnd.Some? || elseEnd.Some? {
      var m, o := |s.blocks|, OpenMerge(s, thenEnd, elseEnd);
      var c1 := MergeCert(s, c, thenEnd, elseEnd);
      OpenMergeCertified(s, c, thenEnd, elseEnd);
      MergeBound(s, c, thenEnd, elseEnd, thenEnd, thenValues);
      MergeBound(s, c, thenEnd, elseEnd, elseEnd, elseValues);
      MergeLeaves(s, c, thenEnd, elseEnd);
      c' := c1;
      if thenEnd.None? {
        LeavingBound(o.blocks, c', elseEnd.value, m, elseValues);
      } else if elseEnd.None? {
        LeavingBound(o.blocks, c', thenEnd.value, m, thenValues);
      } else {
        var m0 := o.(values := map[]);
        OpenMergeEdges(s, c, thenEnd, elseEnd);
        EmptyBound(o.blocks, c1, m);
        assert Merging(m0, c1, thenEnd.value, elseEnd.value, thenValues, elseValues);
        c' := MergeNamesCertified(m0, order(m, thenValues.Keys), thenEnd.value, elseEnd.value, thenValues, elseValues,
                                  c1);
        CertGrowsTransitive(c, c1, c');
      }
    }
  }

  lemma EmptyBound(blocks: seq<BasicBlock>, c: Cert, b: BlockId)
    ensures Bound(blocks, c, b, map[])
  {
  }

  lemma MergeBound(s: State, c: Cert, thenEnd: Option<BlockId>, elseEnd: Option<BlockId>, end: Option<BlockId>,
                   values: Environment)
    requires CanMerge(s, thenEnd, elseEnd) && (end.Some? ==> Bound(s.blocks, c, end.value, values))
    ensures end.Some? ==>
      Bound(OpenMerge(s, thenEnd, elseEnd).blocks, MergeCert(s, c, thenEnd, elseEnd), end.value, values)
  {
    if end.Some? {
      BoundGrows(s.blocks, OpenMerge(s, thenEnd, elseEnd).blocks, c, MergeCert(s, c, thenEnd, elseEnd), end.value,
                 values);
    }
  }

  lemma {:induction false} GenStmtCertified(ctx: Context, s: State, stmt: Stmt, c: Cert) returns (c': Cert)
    requires Consistent(s) && Live(s) && Sealed(s, c) && GenStmt(ctx, s, stmt).Some?
    ensures Sealed(GenStmt(ctx, s, stmt).value, c') && CertGrows(c, c')
    decreases stmt
  {
    match stmt
    case TensorDecl(name, _) =>
      EmitSealed(s, c, TensorDeclOp(s.nextValue, name, ctx.symbols[name]));
      c' := EmitCert(s, c);
    case Assign(_, e) =>
      c' := GenExprCertified(s, e, c);
    case Return(e) =>
      c' := GenExprCertified(s, e, c);
      GenExprGrows(s, e);
      var (s1, a) := GenExpr(s, e).value;
      ReturnCertified(s1, c', a.value);
    case If(_, _, _) =>
      c' := GenIfCertified(ctx, s, stmt, c);
  }

  lemma BranchesBound(s1: State, s2: State, c: ValueId, c1: Cert, c2: Cert)
    requires Consistent(s1) && Live(s1) && Grows(OpenBranches(s1, c), s2) && CertGrows(BranchesCert(s1, c1), c2)
    requires Sealed(s2, c2) && Bound(OpenBranches(s1, c).blocks, BranchesCert(s1, c1), |s1.blocks| + 1, s1.values)
    ensures Sealed(ElseStart(s1, s2), c2)
  {
    hide Certified, Bound, OpenBranches, BranchesCert;
    var o := OpenBranches(s1, c);
    assert forall b :: 0 <= b < |o.blocks| ==> Continues(o.blocks[b], s2.blocks[b]);
    BoundGrows(o.blocks, s2.blocks, BranchesCert(s1, c1), c2, |s1.blocks| + 1, s1.values);
  }

  lemma ThenBound(s1: State, s2: State, s3: State, c2: Cert, c3: Cert)
    requires Sealed(s2, c2) && Grows(ElseStart(s1, s2), s3) && CertGrows(c2, c3)
    ensures s2.current.Some? ==> Bound(s3.blocks, c3, s2.current.value, s2.values)
  {
    if s2.current.Some? {
      assert forall b :: 0 <= b < |s2.blocks| ==> Continues(ElseStart(s1, s2).blocks[b], s3.blocks[b]);
      BoundGrows(s2.blocks, s3.blocks, c2, c3, s2.current.value, s2.values);
    }
  }

  lemma BranchesMerge(s1: State, s2: State, s3: State, c: ValueId)
    requires Consistent(s1) && Live(s1)
    requires Consistent(s2) && Grows(OpenBranches(s1, c), s2)
    requires Consistent(s3) && Grows(ElseStart(s1, s2), s3)
    ensures s2.current.Some? || s3.current.Some? ==> CanMerge(s3, s2.current, s3.current)
    ensures Consistent(s3.(current := None))
  {
    BranchesGrow(s1, s2, s3, c);
  }

  lemma {:induction false} GenIfCertified(ctx: Context, s: State, stmt: Stmt, c: Cert) returns (c': Cert)
    requires stmt.If? && Consistent(s) && Live(s) && Sealed(s, c) && GenStmt(ctx, s, stmt).Some?
    ensures Sealed(GenStmt(ctx, s, stmt).value, c') && CertGrows(c, c')
    decreases stmt, 0
  {
    hide Grows, Consistent, OpenBranches, Join, Sealed, CertGrows, Certified, Bound;
    var (s1, v) := GenExpr(s, stmt.cond).value;
    GenExprGrows(s, stmt.cond);
    var c1 := GenExprCertified(s, stmt.cond, c);
    OpenBranchesConsistent(s1, v.value);
    OpenCertified(s1, c1, v.value);
    var o, co := OpenBranches(s1, v.value), BranchesCert(s1, c1);
    GenStmtsGrows(ctx, o, stmt.thn);
    var s2 := GenStmts(ctx, o, stmt.thn).value;
    var c2 := GenStmtsCertified(ctx, o, stmt.thn, co);
    ElseStartConsistent(s1, s2, v.value);
    BranchesBound(s1, s2, v.value, c1, c2);
    var e := ElseStart(s1, s2);
    GenStmtsGrows(ctx, e, stmt.els);
    var s3 := GenStmts(ctx, e, stmt.els).value;
    var c3 := GenStmtsCertified(ctx, e, stmt.els, c2);
    ThenBound(s1, s2, s3, c2, c3);
    BranchesMerge(s1, s2, s3, v.value);
    SealedParts(s3, c3);
    c' := JoinCertified(ctx.order, s3, c3, s1.values, s2.current, s3.current, s2.values, s3.values);
    CertGrowsTransitive(c, c1, co);
    CertGrowsTransitive(c, co, c2);
    CertGrowsTransitive(c, c2, c3);
    CertGrowsTransitive(c, c3, c');
  }

  lemma SealedParts(s: State, c: Cert)
    requires Sealed(s, c)
    ensures Certified(s.blocks, c) && |c.at| == s.nextValue
    ensures s.current.Some? ==> Bound(s.blocks, c, s.current.value, s.values)
  {
  }

  lemma OpenCertified(s: State, c: Cert, v: ValueId)
    requires Sealed(s, c) && Consistent(s) && Live(s) && AtEnd(c, s.current.value, v) && HasDef(s.blocks, c, v, I1)
    ensures Sealed(OpenBranches(s, v), BranchesCert(s, c)) && CertGrows(c, BranchesCert(s, c))
    ensures Bound(OpenBranches(s, v).blocks, BranchesCert(s, c), |s.blocks| + 1, s.values)
  {
    OpenBranchesCertified(s, c, v);
  }

  lemma {:induction false} GenStmtsCertified(ctx: Context, s: State, ss: seq<Stmt>, c: Cert) returns (c': Cert)
    requires Consistent(s) && Sealed(s, c) && GenStmts(ctx, s, ss).Some?
    ensures Sealed(GenStmts(ctx, s, ss).value, c') && CertGrows(c, c')
    decreases ss
  {
    c' := c;
    if ss != [] && s.current.Some? {
      var s1 := GenStmt(ctx, s, ss[0]).value;
      GenStmtGrows(ctx, s, ss[0]);
      var c1 := GenStmtCertified(ctx, s, ss[0], c);
      c' := GenStmtsCertified(ctx, s1, ss[1..], c1);
      CertGrowsTransitive(c, c1, c');
    }
  }
}
