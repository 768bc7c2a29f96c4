/** What every module built by the generator looks like, for any program and any iteration order. */
module GeneratedModule {
  import opened Ast
  import opened IR
  import opened GeneratorSpec
  import opened GeneratorFrame
  import opened Certificate
  import opened GeneratorCertified

  /** The finished state behind a built module. */
  function Finished(ctx: Context, p: Program): State
    requires Build(ctx, p).Some?
  {
    GenTop(ctx, INITIAL, p).value
  }

  lemma {:induction false} GenTopCertified(ctx: Context, s: State, ss: seq<Stmt>, c: Cert) returns (c': Cert)
    requires Consistent(s) && Sealed(s, c) && GenTop(ctx, s, ss).Some?
    ensures var s' := GenTop(ctx, s, ss).value; Consistent(s') && Grows(s, s') && Sealed(s', c')
    decreases ss
  {
    c' := c;
    if ss != [] {
      var s1 := GenStmt(ctx, s, ss[0]).value;
      GenStmtGrows(ctx, s, ss[0]);
      var c1 := GenStmtCertified(ctx, s, ss[0], c);
      c' := GenTopCertified(ctx, s1, ss[1..], c1);
      GrowsTransitive(s, s1, GenTop(ctx, s, ss).value);
    }
  }

  lemma BuildCertified(ctx: Context, p: Program) returns (c: Cert)
    requires Build(ctx, p).Some?
    ensures var m := Build(ctx, p).value;
      m.entry == 0 && Certified(m.blocks, c) && forall b :: 0 <= b < |m.blocks| ==> m.blocks[b].terminator.Some?
  {
    var c0 := Cert([{}], [], [0]);
    assert Sealed(INITIAL, c0);
    c := GenTopCertified(ctx, INITIAL, p, c0);
  }

  lemma CertifiedForward(blocks: seq<BasicBlock>, c: Cert)
    requires Certified(blocks, c) && forall b :: 0 <= b < |blocks| ==> blocks[b].terminator.Some?
    ensures Forward(blocks)
  {
    forall b, t | 0 <= b < |blocks| && t in Targets(blocks[b].terminator.value) ensures b < t < |blocks| {
      assert EdgeOk(blocks, c, b, t);
    }
  }

  /** The last block has nowhere to branch to. */
  lemma LastReturns(blocks: seq<BasicBlock>)
    requires Forward(blocks) && 0 < |blocks|
    ensures blocks[|blocks| - 1].terminator.value.ReturnOp?
  {
    var last := blocks[|blocks| - 1].terminator.value;
    assert last.BranchOp? ==> last.target in Targets(last);
    assert last.CondBranchOp? ==> last.trueTarget in Targets(last);
  }

  /** Block ids are positions, every block is terminated, and every edge goes to a later block; the entry
      is the first block, so nothing branches to it, and the last block returns. */
  lemma BuildForward(ctx: Context, p: Program)
    requires Build(ctx, p).Some?
    ensures var m := Build(ctx, p).value;
      && Forward(m.blocks) && m.entry == 0 && 0 < |m.blocks|
      && (forall b :: 0 <= b < |m.blocks| ==> !HasEdge(m.blocks[b], m.entry))
      && m.blocks[|m.blocks| - 1].terminator.value.ReturnOp?
  {
    var c := BuildCertified(ctx, p);
    var m := Build(ctx, p).value;
    CertifiedForward(m.blocks, c);
    LastReturns(m.blocks);
  }

  /** A control-flow path from the entry block. */
  ghost predicate IsPath(blocks: seq<BasicBlock>, path: seq<BlockId>) {
    && path != [] && path[0] == 0
    && (forall k :: 0 <= k < |path| ==> path[k] < |blocks|)
    && (forall k :: 0 < k < |path| ==> HasEdge(blocks[path[k - 1]], path[k]))
  }

  function Last(path: seq<BlockId>): BlockId
    requires path != []
  {
    path[|path| - 1]
  }

  /** Every path from the entry climbs through the blocks, so it meets each at most once. */
  lemma {:induction false} PathClimbs(ctx: Context, p: Program, path: seq<BlockId>)
    requires Build(ctx, p).Some? && IsPath(Build(ctx, p).value.blocks, path)
    ensures forall i, j :: 0 <= i < j < |path| ==> path[i] < path[j]
    ensures |path| - 1 <= Last(path) && |path| <= |Build(ctx, p).value.blocks|
    decreases |path|
  {
    var blocks := Build(ctx, p).value.blocks;
    BuildForward(ctx, p);
    var n := |path| - 1;
    if 0 < n {
      var before := path[..n];
      PathClimbs(ctx, p, before);
      assert HasEdge(blocks[path[n - 1]], path[n]);
      forall i, j | 0 <= i < j < |path| ensures path[i] < path[j] {
        assert j < n ==> before[i] < before[j];
        assert i < n - 1 ==> before[i] < before[n - 1];
      }
    }
  }

  /** Having followed `path` up to operation `i` of its last block, `v` has been computed. */
  ghost predicate Computed(blocks: seq<BasicBlock>, path: seq<BlockId>, i: nat, v: ValueId) {
    exists k, j :: ComputedAt(blocks, path, i, v, k, j)
  }

  ghost predicate ComputedAt(blocks: seq<BasicBlock>, path: seq<BlockId>, i: nat, v: ValueId, k: nat, j: nat) {
    && k < |path| && path[k] < |blocks| && j < |blocks[path[k]].operations| && blocks[path[k]].operations[j].result == v
    && (k < |path| - 1 || j < i)
  }

  lemma {:induction false} AvailableComputed(blocks: seq<BasicBlock>, c: Cert, path: seq<BlockId>, v: ValueId)
    requires Certified(blocks, c) && IsPath(blocks, path) && v in c.avail[Last(path)]
    ensures Computed(blocks, path, 0, v)
    decreases |path|, 0
  {
    var n := |path| - 1;
    if 0 < n {
      var before := path[..n];
      var p := Last(before);
      assert HasEdge(blocks[path[n - 1]], path[n]);
      assert EdgeOk(blocks, c, p, path[n]) && AtEnd(c, p, v);
      EndComputed(blocks, c, before, v);
      var k, j :| ComputedAt(blocks, before, |blocks[p].operations|, v, k, j);
      assert ComputedAt(blocks, path, 0, v, k, j);
    }
  }

  lemma {:induction false} EndComputed(blocks: seq<BasicBlock>, c: Cert, path: seq<BlockId>, v: ValueId)
    requires Certified(blocks, c) && IsPath(blocks, path) && AtEnd(c, Last(path), v)
    ensures Computed(blocks, path, |blocks[Last(path)].operations|, v)
    decreases |path|, 2
  {
    BeforeComputed(blocks, c, path, |blocks[Last(path)].operations|, v);
  }

  lemma {:induction false} BeforeComputed(blocks: seq<BasicBlock>, c: Cert, path: seq<BlockId>, i: nat, v: ValueId)
    requires Certified(blocks, c) && IsPath(blocks, path)
    requires Before(c, Last(path), i, v) || (AtEnd(c, Last(path), v) && i == |blocks[Last(path)].operations|)
    ensures Computed(blocks, path, i, v)
    decreases |path|, 1
  {
    if v in c.avail[Last(path)] {
      AvailableComputed(blocks, c, path, v);
      var k, j :| ComputedAt(blocks, path, 0, v, k, j);
      assert ComputedAt(blocks, path, i, v, k, j);
    } else {
      assert InRange(blocks, c.at[v]) && OpAt(blocks, c.at[v]).result == v;
      assert ComputedAt(blocks, path, i, v, |path| - 1, c.at[v].index);
    }
  }

  /** The values an operation reads where it stands; a phi reads in its predecessors instead. */
  function Operands(op: Operation): set<ValueId> {
    match op
    case BinaryOp(_, _, lhs, rhs, _) => {lhs, rhs}
    case CompareOp(_, _, lhs, rhs, _) => {lhs, rhs}
    case MatMulOp(_, lhs, rhs, _) => {lhs, rhs}
    case ReluOp(_, input, _) => {input}
    case _ => {}
  }

  function TerminatorOperands(t: Terminator): set<ValueId> {
    match t
    case BranchOp(_) => {}
    case CondBranchOp(c, _, _) => {c}
    case ReturnOp(v) => {v}
  }

  /** Every definition dominates its uses: on every path from the entry to a use, the value has been computed. */
  lemma Dominance(ctx: Context, p: Program, path: seq<BlockId>)
    requires Build(ctx, p).Some? && IsPath(Build(ctx, p).value.blocks, path)
    ensures var blocks := Build(ctx, p).value.blocks;
      && (forall i, v :: 0 <= i < |blocks[Last(path)].operations| && v in Operands(blocks[Last(path)].operations[i]) ==>
            Computed(blocks, path, i, v))
      && blocks[Last(path)].terminator.Some?
      && (forall v :: v in TerminatorOperands(blocks[Last(path)].terminator.value) ==>
            Computed(blocks, path, |blocks[Last(path)].operations|, v))
  {
    var c := BuildCertified(ctx, p);
    var blocks := Build(ctx, p).value.blocks;
    var b := Last(path);
    forall i, v | 0 <= i < |blocks[b].operations| && v in Operands(blocks[b].operations[i])
      ensures Computed(blocks, path, i, v)
    {
      assert OpOk(blocks, c, b, i, blocks[b].operations[i]);
      BeforeComputed(blocks, c, path, i, v);
    }
    forall v | v in TerminatorOperands(blocks[b].terminator.value)
      ensures Computed(blocks, path, |blocks[b].operations|, v)
    {
      assert TermOk(blocks, c, b, blocks[b].terminator.value);
      EndComputed(blocks, c, path, v);
    }
  }

  /** Each phi operand has been computed on every path to the end of the predecessor it names, and the
      predecessors a phi names are exactly the blocks that branch to it. */
  lemma PhiDominance(ctx: Context, p: Program, b: BlockId, i: nat, k: nat, path: seq<BlockId>)
    requires Build(ctx, p).Some?
    requires var blocks := Build(ctx, p).value.blocks;
      && IsPath(blocks, path) && b < |blocks| && i < |blocks[b].operations| && blocks[b].operations[i].PhiOp?
      && k < |blocks[b].operations[i].incoming| && blocks[b].operations[i].incoming[k].predecessor == Last(path)
    ensures var blocks := Build(ctx, p).value.blocks;
      && Computed(blocks, path, |blocks[Last(path)].operations|, blocks[b].operations[i].incoming[k].value)
      && forall q :: 0 <= q < |blocks| ==>
        (HasEdge(blocks[q], b) <==>
         exists l :: 0 <= l < |blocks[b].operations[i].incoming|
           && blocks[b].operations[i].incoming[l].predecessor == q)
  {
    var c := BuildCertified(ctx, p);
    var blocks := Build(ctx, p).value.blocks;
    assert OpOk(blocks, c, b, i, blocks[b].operations[i]);
    EndComputed(blocks, c, path, blocks[b].operations[i].incoming[k].value);
  }

  /** Every block can be reached from the entry. */
  lemma {:induction false} Reachable(blocks: seq<BasicBlock>, c: Cert, b: BlockId) returns (path: seq<BlockId>)
    requires Certified(blocks, c) && b < |blocks|
    ensures IsPath(blocks, path) && Last(path) == b
    decreases b
  {
    if b == 0 {
      path := [0];
    } else {
      var before := Reachable(blocks, c, c.parent[b]);
      path := before + [b];
      forall k | 0 < k < |path| ensures HasEdge(blocks[path[k - 1]], path[k]) {
        if k < |before| {
          assert HasEdge(blocks[before[k - 1]], before[k]);
        }
      }
    }
  }

  lemma BuildReachable(ctx: Context, p: Program, b: BlockId) returns (path: seq<BlockId>)
    requires Build(ctx, p).Some? && b < |Build(ctx, p).value.blocks|
    ensures IsPath(Build(ctx, p).value.blocks, path) && Last(path) == b
  {
    var c := BuildCertified(ctx, p);
    path := Reachable(Build(ctx, p).value.blocks, c, b);
  }

  ghost predicate Earlier(p: Position, q: Position) {
    p.block < q.block || (p.block == q.block && p.index < q.index)
  }

  /** `v` is defined at a position before `q` in module order. */
  ghost predicate DefinedEarlier(blocks: seq<BasicBlock>, v: ValueId, q: Position) {
    exists p :: InRange(blocks, p) && OpAt(blocks, p).result == v && Earlier(p, q)
  }

  lemma EarlierDefinition(blocks: seq<BasicBlock>, c: Cert, b: BlockId, v: ValueId, q: Position)
    requires Certified(blocks, c) && b < |blocks|
    requires (AtEnd(c, b, v) && b < q.block) || (Before(c, b, q.index, v) && b == q.block)
    ensures DefinedEarlier(blocks, v, q)
  {
    if v in c.avail[b] {
      assert DefinedBefore(c, v, b);
    }
    assert InRange(blocks, c.at[v]) && OpAt(blocks, c.at[v]).result == v && Earlier(c.at[v], q);
  }

  /** One pass in module order meets every definition before its uses, phi operands included. */
  lemma OnePass(ctx: Context, p: Program, b: BlockId, i: nat)
    requires Build(ctx, p).Some? && b < |Build(ctx, p).value.blocks| && i < |Build(ctx, p).value.blocks[b].operations|
    ensures var blocks := Build(ctx, p).value.blocks;
      var op := blocks[b].operations[i];
      && (forall v :: v in Operands(op) ==> DefinedEarlier(blocks, v, Position(b, i)))
      && (op.PhiOp? ==> forall k :: 0 <= k < |op.incoming| ==>
            op.incoming[k].predecessor < b && DefinedEarlier(blocks, op.incoming[k].value, Position(b, 0)))
  {
    var c := BuildCertified(ctx, p);
    var blocks := Build(ctx, p).value.blocks;
    var op := blocks[b].operations[i];
    assert OpOk(blocks, c, b, i, op);
    forall v | v in Operands(op) ensures DefinedEarlier(blocks, v, Position(b, i)) {
      EarlierDefinition(blocks, c, b, v, Position(b, i));
    }
    if op.PhiOp? {
      forall k | 0 <= k < |op.incoming| ensures DefinedEarlier(blocks, op.incoming[k].value, Position(b, 0)) {
        EarlierDefinition(blocks, c, op.incoming[k].predecessor, op.incoming[k].value, Position(b, 0));
      }
    }
  }

  /** And it meets what a terminator reads, in its block or before, and the blocks that it jumps to exist. */
  lemma OnePassExit(ctx: Context, p: Program, b: BlockId)
    requires Build(ctx, p).Some? && b < |Build(ctx, p).value.blocks|
    ensures var blocks := Build(ctx, p).value.blocks;
      && blocks[b].terminator.Some?
      && (forall v :: v in TerminatorOperands(blocks[b].terminator.value) ==>
            DefinedEarlier(blocks, v, Position(b, |blocks[b].operations|)))
      && (forall t :: t in Targets(blocks[b].terminator.value) ==> b < t < |blocks| && blocks[t].id == t)
  {
    var c := BuildCertified(ctx, p);
    var blocks := Build(ctx, p).value.blocks;
    BuildForward(ctx, p);
    assert TermOk(blocks, c, b, blocks[b].terminator.value);
    forall v | v in TerminatorOperands(blocks[b].terminator.value)
      ensures DefinedEarlier(blocks, v, Position(b, |blocks[b].operations|))
    {
      EndIsEarlier(blocks, c, b, v);
    }
  }

  lemma EndIsEarlier(blocks: seq<BasicBlock>, c: Cert, b: BlockId, v: ValueId)
    requires Certified(blocks, c) && b < |blocks| && AtEnd(c, b, v)
    ensures DefinedEarlier(blocks, v, Position(b, |blocks[b].operations|))
  {
    if v in c.avail[b] {
      assert DefinedBefore(c, v, b);
    }
    assert InRange(blocks, c.at[v]) && OpAt(blocks, c.at[v]).result == v;
    assert Earlier(c.at[v], Position(b, |blocks[b].operations|));
  }
}
