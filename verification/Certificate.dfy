/** Static structure of generated code. A certificate records where every value is defined and which
    values are available at the start of every block; generation builds one as it goes. */
module Certificate {
  import opened Prelude
  import opened Ast
  import opened IR
  import opened GeneratorSpec

  datatype Position = Position(block: nat, index: nat)

  /** `avail[b]`: values defined on every path to `b`; `at[v]`: where `v` is defined; `parent[b]`: a predecessor of
      `b`. */
  datatype Cert = Cert(avail: seq<set<ValueId>>, at: seq<Position>, parent: seq<BlockId>)

  predicate InRange(blocks: seq<BasicBlock>, p: Position) {
    p.block < |blocks| && p.index < |blocks[p.block].operations|
  }

  function OpAt(blocks: seq<BasicBlock>, p: Position): Operation
    requires InRange(blocks, p)
  {
    blocks[p.block].operations[p.index]
  }

  /** Positions and values determine each other: every value below |at| has exactly one definition. */
  ghost predicate Located(blocks: seq<BasicBlock>, c: Cert) {
    && (forall v :: 0 <= v < |c.at| ==> InRange(blocks, c.at[v]) && OpAt(blocks, c.at[v]).result == v)
    && (forall b, i :: 0 <= b < |blocks| && 0 <= i < |blocks[b].operations| ==>
          blocks[b].operations[i].result < |c.at| && c.at[blocks[b].operations[i].result] == Position(b, i))
  }

  ghost predicate HasDef(blocks: seq<BasicBlock>, c: Cert, v: ValueId, ty: TensorType) {
    v < |c.at| && InRange(blocks, c.at[v]) && TypeOf(OpAt(blocks, c.at[v])) == ty
  }

  /** `v` has been computed when control stands before operation `i` of block `b`. */
  ghost predicate Before(c: Cert, b: BlockId, i: nat, v: ValueId) {
    b < |c.avail| && v < |c.at| && (v in c.avail[b] || (c.at[v].block == b && c.at[v].index < i))
  }

  /** `v` has been computed when control leaves block `b`. */
  ghost predicate AtEnd(c: Cert, b: BlockId, v: ValueId) {
    b < |c.avail| && v < |c.at| && (v in c.avail[b] || c.at[v].block == b)
  }

  ghost predicate PhiOk(blocks: seq<BasicBlock>, c: Cert, b: BlockId, op: Operation)
    requires op.PhiOp?
  {
    && (forall k :: 0 <= k < |op.incoming| ==>
          && op.incoming[k].predecessor < b && op.incoming[k].predecessor < |blocks|
          && HasEdge(blocks[op.incoming[k].predecessor], b)
          && AtEnd(c, op.incoming[k].predecessor, op.incoming[k].value)
          && HasDef(blocks, c, op.incoming[k].value, op.ty))
    && (forall k, l :: 0 <= k < l < |op.incoming| ==> op.incoming[k].predecessor != op.incoming[l].predecessor)
    && (forall p :: 0 <= p < |blocks| && HasEdge(blocks[p], b) ==>
          exists k :: 0 <= k < |op.incoming| && op.incoming[k].predecessor == p)
  }

  ghost predicate OpOk(blocks: seq<BasicBlock>, c: Cert, b: BlockId, i: nat, op: Operation) {
    match op
    case ConstantIntOp(_, _, ty) => ty == I64
    case ConstantFloatOp(_, _, ty) => ty == F64
    case BinaryOp(_, _, lhs, rhs, ty) =>
      Before(c, b, i, lhs) && HasDef(blocks, c, lhs, ty) && Before(c, b, i, rhs) && HasDef(blocks, c, rhs, ty)
    case CompareOp(_, _, lhs, rhs, ty) =>
      Before(c, b, i, lhs) && HasDef(blocks, c, lhs, ty) && Before(c, b, i, rhs) && HasDef(blocks, c, rhs, ty)
    case PhiOp(_, _, _) => PhiOk(blocks, c, b, op)
    case MatMulOp(_, lhs, rhs, _) => Before(c, b, i, lhs) && Before(c, b, i, rhs)
    case ReluOp(_, input, ty) => Before(c, b, i, input)
    case _ => true
  }

  ghost predicate OpsOk(blocks: seq<BasicBlock>, c: Cert) {
    forall b, i :: 0 <= b < |blocks| && 0 <= i < |blocks[b].operations| ==>
      OpOk(blocks, c, b, i, blocks[b].operations[i])
  }

  ghost predicate PhisFirst(blocks: seq<BasicBlock>) {
    forall b, i, j :: 0 <= b < |blocks| && 0 <= i < j < |blocks[b].operations| && blocks[b].operations[j].PhiOp? ==>
      blocks[b].operations[i].PhiOp?
  }

  ghost predicate EdgeOk(blocks: seq<BasicBlock>, c: Cert, b: BlockId, t: BlockId) {
    b < t < |blocks| && t < |c.avail| && forall v :: v in c.avail[t] ==> AtEnd(c, b, v)
  }

  ghost predicate TermOk(blocks: seq<BasicBlock>, c: Cert, b: BlockId, t: Terminator) {
    && (forall x :: x in Targets(t) ==> EdgeOk(blocks, c, b, x))
    && (t.CondBranchOp? ==> AtEnd(c, b, t.condition) && HasDef(blocks, c, t.condition, I1))
    && (t.ReturnOp? ==> AtEnd(c, b, t.value))
  }

  ghost predicate TermsOk(blocks: seq<BasicBlock>, c: Cert) {
    forall b :: 0 <= b < |blocks| && blocks[b].terminator.Some? ==> TermOk(blocks, c, b, blocks[b].terminator.value)
  }

  ghost predicate DefinedBefore(c: Cert, v: ValueId, b: BlockId) {
    v < |c.at| && c.at[v].block < b
  }

  ghost predicate AvailOk(blocks: seq<BasicBlock>, c: Cert) {
    && |c.avail| == |blocks| == |c.parent| && 0 < |blocks| && c.avail[0] == {}
    && (forall b, v :: 0 <= b < |blocks| && v in c.avail[b] ==> DefinedBefore(c, v, b))
    && (forall b :: 0 <= b < |blocks| ==> blocks[b].id == b)
    && (forall b :: 0 < b < |blocks| ==> c.parent[b] < b && HasEdge(blocks[c.parent[b]], b))
  }

  ghost predicate Certified(blocks: seq<BasicBlock>, c: Cert) {
    AvailOk(blocks, c) && Located(blocks, c) && OpsOk(blocks, c) && PhisFirst(blocks) && TermsOk(blocks, c)
  }

  /** Every environment value has its recorded type and is available at the end of block `b`. */
  ghost predicate Bound(blocks: seq<BasicBlock>, c: Cert, b: BlockId, values: Environment) {
    forall n :: n in values ==> AtEnd(c, b, values[n].value) && HasDef(blocks, c, values[n].value, values[n].ty)
  }

  /** What holds of the generator's state between statements. */
  ghost predicate Sealed(s: State, c: Cert) {
    && Certified(s.blocks, c) && |c.at| == s.nextValue
    && (s.current.Some? ==> Bound(s.blocks, c, s.current.value, s.values))
  }

  ghost predicate CertGrows(c: Cert, c': Cert) {
    c.avail <= c'.avail && c.at <= c'.at
  }

  lemma CertGrowsTransitive(c0: Cert, c1: Cert, c2: Cert)
    requires CertGrows(c0, c1) && CertGrows(c1, c2)
    ensures CertGrows(c0, c2)
  {
  }

  /** Definitions and availability survive when blocks and certificate grow. */
  lemma HasDefGrows(blocks: seq<BasicBlock>, blocks': seq<BasicBlock>, c: Cert, c': Cert, v: ValueId, ty: TensorType)
    requires |blocks| <= |blocks'| && forall b :: 0 <= b < |blocks| ==> blocks[b].operations <= blocks'[b].operations
    requires CertGrows(c, c') && HasDef(blocks, c, v, ty)
    ensures HasDef(blocks', c', v, ty)
  {
    assert c'.at[v] == c.at[v];
    assert blocks[c.at[v].block].operations <= blocks'[c.at[v].block].operations;
  }

  lemma BoundGrows(blocks: seq<BasicBlock>, blocks': seq<BasicBlock>, c: Cert, c': Cert, b: BlockId,
                   values: Environment)
    requires |blocks| <= |blocks'| && forall b :: 0 <= b < |blocks| ==> blocks[b].operations <= blocks'[b].operations
    requires CertGrows(c, c') && Bound(blocks, c, b, values)
    ensures Bound(blocks', c', b, values)
  {
    forall n | n in values ensures AtEnd(c', b, values[n].value) && HasDef(blocks', c', values[n].value, values[n].ty) {
      HasDefGrows(blocks, blocks', c, c', values[n].value, values[n].ty);
    }
  }

  function EmitCert(s: State, c: Cert): Cert
    requires Live(s)
  {
    c.(at := c.at + [Position(s.current.value, |s.blocks[s.current.value].operations|)])
  }

  /** Changing the operations of a block, or adding blocks, keeps what was established about an operation
      as long as no edge into its block appears or disappears. */
  lemma OpOkGrows(blocks: seq<BasicBlock>, blocks': seq<BasicBlock>, c: Cert, c': Cert, b: BlockId, i: nat,
                  op: Operation)
    requires |blocks| <= |blocks'| && forall b :: 0 <= b < |blocks| ==> blocks[b].operations <= blocks'[b].operations
    requires CertGrows(c, c') && OpOk(blocks, c, b, i, op)
    requires op.PhiOp? ==> forall p :: 0 <= p < |blocks'| ==>
      (HasEdge(blocks'[p], b) <==> p < |blocks| && HasEdge(blocks[p], b))
    ensures OpOk(blocks', c', b, i, op)
  {
    match op
    case BinaryOp(_, _, lhs, rhs, ty) =>
      HasDefGrows(blocks, blocks', c, c', lhs, ty);
      HasDefGrows(blocks, blocks', c, c', rhs, ty);
    case CompareOp(_, _, lhs, rhs, ty) =>
      HasDefGrows(blocks, blocks', c, c', lhs, ty);
      HasDefGrows(blocks, blocks', c, c', rhs, ty);
    case PhiOp(_, ty, incoming) =>
      forall k | 0 <= k < |incoming|
        ensures HasDef(blocks', c', incoming[k].value, ty) && AtEnd(c', incoming[k].predecessor, incoming[k].value)
      {
        HasDefGrows(blocks, blocks', c, c', incoming[k].value, ty);
      }
    case _ =>
  }

  lemma TermOkGrows(blocks: seq<BasicBlock>, blocks': seq<BasicBlock>, c: Cert, c': Cert, b: BlockId, t: Terminator)
    requires |blocks| <= |blocks'| && forall b :: 0 <= b < |blocks| ==> blocks[b].operations <= blocks'[b].operations
    requires CertGrows(c, c') && TermOk(blocks, c, b, t)
    ensures TermOk(blocks', c', b, t)
  {
    if t.CondBranchOp? {
      HasDefGrows(blocks, blocks', c, c', t.condition, I1);
    }
    forall x | x in Targets(t) ensures EdgeOk(blocks', c', b, x) {
      assert EdgeOk(blocks, c, b, x);
      assert c'.avail[x] == c.avail[x];
    }
  }

  lemma EmitCertified(s: State, c: Cert, op: Operation)
    requires Live(s) && s.blocks[s.current.value].terminator.None?
    requires Certified(s.blocks, c) && |c.at| == s.nextValue == op.result
    requires var b := s.current.value; OpOk(s.blocks, c, b, |s.blocks[b].operations|, op)
    requires op.PhiOp? ==> forall i :: 0 <= i < |s.blocks[s.current.value].operations| ==>
      s.blocks[s.current.value].operations[i].PhiOp?
    ensures Certified(Emit(s, op).blocks, EmitCert(s, c))
    ensures CertGrows(c, EmitCert(s, c))
  {
    var b, blocks, blocks', c' := s.current.value, s.blocks, Emit(s, op).blocks, EmitCert(s, c);
    EmitLocated(s, c, op);
    EmitAvail(s, c, op);
    forall x, i | 0 <= x < |blocks'| && 0 <= i < |blocks'[x].operations|
      ensures OpOk(blocks', c', x, i, blocks'[x].operations[i])
    {
      OpOkGrows(blocks, blocks', c, c', x, i, blocks'[x].operations[i]);
    }
    forall x | 0 <= x < |blocks'| && blocks'[x].terminator.Some?
      ensures TermOk(blocks', c', x, blocks'[x].terminator.value)
    {
      TermOkGrows(blocks, blocks', c, c', x, blocks[x].terminator.value);
    }
  }

  lemma EmitAvail(s: State, c: Cert, op: Operation)
    requires Live(s) && AvailOk(s.blocks, c)
    ensures AvailOk(Emit(s, op).blocks, EmitCert(s, c))
  {
    var blocks', c' := Emit(s, op).blocks, EmitCert(s, c);
    forall x, v | 0 <= x < |blocks'| && v in c'.avail[x] ensures DefinedBefore(c', v, x) {
      assert DefinedBefore(c, v, x);
    }
  }

  lemma EmitLocated(s: State, c: Cert, op: Operation)
    requires Live(s) && Located(s.blocks, c) && |c.at| == s.nextValue == op.result
    ensures Located(Emit(s, op).blocks, EmitCert(s, c))
  {
    var blocks', c' := Emit(s, op).blocks, EmitCert(s, c);
    forall v | 0 <= v < |c'.at| ensures InRange(blocks', c'.at[v]) && OpAt(blocks', c'.at[v]).result == v {
      if v < |c.at| {
        assert InRange(s.blocks, c.at[v]) && OpAt(s.blocks, c.at[v]).result == v;
      }
    }
  }

  /** Adding empty blocks and finishing open ones. */
  lemma ExtendCertified(blocks: seq<BasicBlock>, blocks': seq<BasicBlock>, c: Cert, c': Cert)
    requires Certified(blocks, c) && |blocks| <= |blocks'|
    requires forall b :: 0 <= b < |blocks| ==>
      blocks'[b].operations == blocks[b].operations && blocks'[b].id == b
        && (blocks[b].terminator.Some? ==> blocks'[b] == blocks[b])
    requires forall b :: |blocks| <= b < |blocks'| ==> blocks'[b].operations == [] && blocks'[b].id == b
    requires CertGrows(c, c') && c'.at == c.at && |c'.avail| == |blocks'| == |c'.parent| && c.parent <= c'.parent
    requires forall b, v :: |blocks| <= b < |blocks'| && v in c'.avail[b] ==> DefinedBefore(c', v, b)
    requires forall b :: |blocks| <= b < |blocks'| ==> c'.parent[b] < b && HasEdge(blocks'[c'.parent[b]], b)
    requires forall b ::
      0 <= b < |blocks'| && blocks'[b].terminator.Some? && (b < |blocks| ==> blocks[b].terminator.None?) ==>
      TermOk(blocks', c', b, blocks'[b].terminator.value)
    requires forall p, t :: 0 <= p < |blocks'| && HasEdge(blocks'[p], t) ==>
      |blocks| <= t || (p < |blocks| && HasEdge(blocks[p], t))
    ensures Certified(blocks', c')
  {
    forall b, v | 0 <= b < |blocks'| && v in c'.avail[b] ensures DefinedBefore(c', v, b) {
      if b < |blocks| {
        assert DefinedBefore(c, v, b);
      }
    }
    forall b | 0 < b < |blocks'| ensures c'.parent[b] < b && HasEdge(blocks'[c'.parent[b]], b) {
      if b < |blocks| {
        assert c.parent[b] == c'.parent[b] && HasEdge(blocks[c.parent[b]], b);
      }
    }
    forall v | 0 <= v < |c'.at| ensures InRange(blocks', c'.at[v]) && OpAt(blocks', c'.at[v]).result == v {
      assert InRange(blocks, c.at[v]) && OpAt(blocks, c.at[v]).result == v;
    }
    forall b, i | 0 <= b < |blocks'| && 0 <= i < |blocks'[b].operations|
      ensures OpOk(blocks', c', b, i, blocks'[b].operations[i])
    {
      assert b < |blocks| && OpOk(blocks, c, b, i, blocks[b].operations[i]);
      OpOkGrows(blocks, blocks', c, c', b, i, blocks[b].operations[i]);
    }
    forall b | 0 <= b < |blocks'| && blocks'[b].terminator.Some?
      ensures TermOk(blocks', c', b, blocks'[b].terminator.value)
    {
      if b < |blocks| && blocks[b].terminator.Some? {
        TermOkGrows(blocks, blocks', c, c', b, blocks[b].terminator.value);
      }
    }
  }

  /** The values available when control leaves block `b`. */
  ghost function Leaving(c: Cert, b: BlockId): set<ValueId> {
    set v | 0 <= v < |c.at| && AtEnd(c, b, v)
  }

  lemma LeavingBefore(blocks: seq<BasicBlock>, c: Cert, b: BlockId, t: BlockId)
    requires AvailOk(blocks, c) && b < t
    ensures forall v :: v in Leaving(c, b) ==> DefinedBefore(c, v, t)
  {
    forall v | v in Leaving(c, b) ensures DefinedBefore(c, v, t) {
      if v in c.avail[b] {
        assert DefinedBefore(c, v, b);
      }
    }
  }

  lemma ReturnCertified(s: State, c: Cert, v: ValueId)
    requires Certified(s.blocks, c) && Live(s) && s.blocks[s.current.value].terminator.None?
    requires AtEnd(c, s.current.value, v)
    ensures Certified(Terminate(s.blocks, s.current.value, ReturnOp(v)), c)
  {
    ExtendCertified(s.blocks, Terminate(s.blocks, s.current.value, ReturnOp(v)), c, c);
  }

  ghost function BranchesCert(s: State, c: Cert): Cert
    requires Live(s)
  {
    var out := Leaving(c, s.current.value);
    c.(avail := c.avail + [out, out], parent := c.parent + [s.current.value, s.current.value])
  }

  lemma OpenBranchesCertified(s: State, c: Cert, v: ValueId)
    requires Sealed(s, c) && Live(s) && s.blocks[s.current.value].terminator.None?
    requires AtEnd(c, s.current.value, v) && HasDef(s.blocks, c, v, I1)
    ensures Sealed(OpenBranches(s, v), BranchesCert(s, c)) && CertGrows(c, BranchesCert(s, c))
    ensures Bound(OpenBranches(s, v).blocks, BranchesCert(s, c), |s.blocks| + 1, s.values)
  {
    var b, c', o := s.current.value, BranchesCert(s, c), OpenBranches(s, v);
    var t := |s.blocks|;
    LeavingBefore(s.blocks, c, b, t);
    var term := CondBranchOp(v, t, t + 1);
    assert o.blocks[b].terminator == Some(term);
    HasDefGrows(s.blocks, o.blocks, c, c', v, I1);
    forall x | x in Targets(term) ensures EdgeOk(o.blocks, c', b, x) {
    }
    assert TermOk(o.blocks, c', b, term);
    forall x | t <= x < |o.blocks| ensures c'.parent[x] < x && HasEdge(o.blocks[c'.parent[x]], x) {
      assert x in Targets(term);
    }
    forall p, x | 0 <= p < |o.blocks| && HasEdge(o.blocks[p], x) ensures t <= x || (p < t && HasEdge(s.blocks[p], x)) {
    }
    ExtendCertified(s.blocks, o.blocks, c, c');
    BothBranchesBound(s, c, v);
  }

  /** Both branches start with everything bound at the end of the condition block. */
  lemma BothBranchesBound(s: State, c: Cert, v: ValueId)
    requires Live(s) && |c.avail| == |s.blocks| && Bound(s.blocks, c, s.current.value, s.values)
    ensures Bound(OpenBranches(s, v).blocks, BranchesCert(s, c), |s.blocks|, s.values)
    ensures Bound(OpenBranches(s, v).blocks, BranchesCert(s, c), |s.blocks| + 1, s.values)
  {
    var b, c', o, t := s.current.value, BranchesCert(s, c), OpenBranches(s, v), |s.blocks|;
    forall n | n in s.values
      ensures AtEnd(c', t, s.values[n].value) && AtEnd(c', t + 1, s.values[n].value)
        && HasDef(o.blocks, c', s.values[n].value, s.values[n].ty)
    {
      HasDefGrows(s.blocks, o.blocks, c, c', s.values[n].value, s.values[n].ty);
      assert s.values[n].value in Leaving(c, b);
    }
  }

  ghost function MergeCert(s: State, c: Cert, thenEnd: Option<BlockId>, elseEnd: Option<BlockId>): Cert
    requires thenEnd.Some? || elseEnd.Some?
  {
    var out :=
      if thenEnd.None? then Leaving(c, elseEnd.value)
      else if elseEnd.None? then Leaving(c, thenEnd.value)
      else Leaving(c, thenEnd.value) * Leaving(c, elseEnd.value);
    c.(avail := c.avail + [out], parent := c.parent + [if thenEnd.Some? then thenEnd.value else elseEnd.value])
  }
}
