/** The multi-pass verifier: it accepts exactly the well-formed modules. */
module IRVerifier {
  import opened Prelude
  import opened Ast
  import opened IR
  import opened Certificate
  import opened WellFormed

  datatype Definition = Definition(block: BlockId, operationIndex: nat, ty: TensorType)

  type Definitions = map<ValueId, Definition>

  /** Positions already visited when the scan stands before operation `i` of block `b`. */
  predicate Visited(p: Position, b: nat, i: nat) {
    p.block < b || (p.block == b && p.index < i)
  }

  /** `definitions` describes exactly the visited operations; `where` remembers their positions. */
  ghost predicate Describes(m: Module, b: nat, i: nat, definitions: Definitions, where: map<ValueId, Position>) {
    && definitions.Keys == where.Keys
    && (forall v :: v in where ==>
          && InRange(m.blocks, where[v]) && Visited(where[v], b, i) && OpAt(m.blocks, where[v]).result == v
          && definitions[v] ==
            Definition(m.blocks[where[v].block].id, where[v].index, TypeOf(OpAt(m.blocks, where[v]))))
    && (forall p :: InRange(m.blocks, p) && Visited(p, b, i) ==>
          OpAt(m.blocks, p).result in where && where[OpAt(m.blocks, p).result] == p)
  }

  lemma DescribesNext(m: Module, b: nat, i: nat, definitions: Definitions, where: map<ValueId, Position>)
    requires b < |m.blocks| && i < |m.blocks[b].operations| && Describes(m, b, i, definitions, where)
    requires m.blocks[b].operations[i].result !in definitions
    ensures var op := m.blocks[b].operations[i];
      Describes(m, b, i + 1, definitions[op.result := Definition(m.blocks[b].id, i, TypeOf(op))],
                where[op.result := Position(b, i)])
  {
    assert OpAt(m.blocks, Position(b, i)) == m.blocks[b].operations[i];
  }

  lemma DescribesBlock(m: Module, b: nat, definitions: Definitions, where: map<ValueId, Position>)
    requires b < |m.blocks| && Describes(m, b, |m.blocks[b].operations|, definitions, where)
    ensures Describes(m, b + 1, 0, definitions, where)
  {
  }

  lemma DuplicateResult(m: Module, b: nat, i: nat, definitions: Definitions, where: map<ValueId, Position>)
    requires b < |m.blocks| && i < |m.blocks[b].operations| && Describes(m, b, i, definitions, where)
    requires m.blocks[b].operations[i].result in definitions
    ensures !UniqueResults(m)
  {
    var p := Position(b, i);
    assert OpAt(m.blocks, p).result == OpAt(m.blocks, where[OpAt(m.blocks, p).result]).result;
  }

  /** The first pass over one block: phis come first, and every result is new. */
  method CollectBlock(m: Module, b: nat, definitions: Definitions, ghost where: map<ValueId, Position>)
    returns (ok: bool, definitions': Definitions, ghost where': map<ValueId, Position>)
    requires b < |m.blocks| && Describes(m, b, 0, definitions, where)
    ensures ok ==> Describes(m, b + 1, 0, definitions', where')
    ensures ok ==> forall i, j :: 0 <= i < j < |m.blocks[b].operations| && m.blocks[b].operations[j].PhiOp? ==>
      m.blocks[b].operations[i].PhiOp?
    ensures !ok ==> !PhisFirst(m.blocks) || !UniqueResults(m)
  {
    hide Describes, UniqueResults;
    var operations := m.blocks[b].operations;
    definitions', where' := definitions, where;
    var sawNonPhi := false;
    for index := 0 to |operations|
      invariant Describes(m, b, index, definitions', where')
      invariant sawNonPhi <==> exists i :: 0 <= i < index && !operations[i].PhiOp?
      invariant forall i, j :: 0 <= i < j < index && operations[j].PhiOp? ==> operations[i].PhiOp?
    {
      var operation := operations[index];
      if operation.PhiOp? && sawNonPhi {
        return false, definitions', where';
      }
      sawNonPhi := sawNonPhi || !operation.PhiOp?;
      if operation.result in definitions' {
        DuplicateResult(m, b, index, definitions', where');
        return false, definitions', where';
      }
      DescribesNext(m, b, index, definitions', where');
      definitions' := definitions'[operation.result := Definition(m.blocks[b].id, index, TypeOf(operation))];
      where' := where'[operation.result := Position(b, index)];
    }
    DescribesBlock(m, b, definitions', where');
    ok := true;
  }

  /** The first pass: block ids, terminators, phi order and results. */
  method CollectDefinitions(m: Module)
    returns (ok: bool, ids: set<BlockId>, definitions: Definitions, ghost where: map<ValueId, Position>)
    ensures ok <==> UniqueBlocks(m) && AllTerminated(m) && PhisFirst(m.blocks) && UniqueResults(m)
    ensures ok ==> Describes(m, |m.blocks|, 0, definitions, where)
    ensures ok ==> forall id :: id in ids <==> HasBlock(m, id)
  {
    ids, definitions, where := {}, map[], map[];
    for b := 0 to |m.blocks|
      invariant Describes(m, b, 0, definitions, where)
      invariant forall a :: 0 <= a < b ==> m.blocks[a].id in ids && m.blocks[a].terminator.Some?
      invariant forall id :: id in ids ==> exists a :: 0 <= a < b && m.blocks[a].id == id
      invariant forall a, a' :: 0 <= a < a' < b ==> m.blocks[a].id != m.blocks[a'].id
      invariant forall a, i, j ::
        0 <= a < b && 0 <= i < j < |m.blocks[a].operations| && m.blocks[a].operations[j].PhiOp? ==>
        m.blocks[a].operations[i].PhiOp?
    {
      if m.blocks[b].id in ids || m.blocks[b].terminator.None? {
        return false, ids, definitions, where;
      }
      ids := ids + {m.blocks[b].id};
      ok, definitions, where := CollectBlock(m, b, definitions, where);
      if !ok {
        return;
      }
    }
    ok := true;
  }

  function PredecessorsOf(predecessors: map<BlockId, set<BlockId>>, id: BlockId): set<BlockId> {
    if id in predecessors then predecessors[id] else {}
  }

  function AddPredecessor(predecessors: map<BlockId, set<BlockId>>, target: BlockId, id: BlockId): map<BlockId,
      set<BlockId>> {
    predecessors[target := PredecessorsOf(predecessors, target) + {id}]
  }

  /** One of the first `b` blocks has id `p` and branches to `id`. */
  ghost predicate EdgeAmong(m: Module, b: nat, id: BlockId, p: BlockId)
    requires b <= |m.blocks|
  {
    exists a :: 0 <= a < b && HasEdge(m.blocks[a], id) && m.blocks[a].id == p
  }

  lemma EdgeAmongNext(m: Module, b: nat)
    requires b < |m.blocks|
    ensures forall id, p :: EdgeAmong(m, b + 1, id, p) <==>
      EdgeAmong(m, b, id, p) || (HasEdge(m.blocks[b], id) && p == m.blocks[b].id)
  {
    forall id, p ensures EdgeAmong(m, b + 1, id, p) <==>
      EdgeAmong(m, b, id, p) || (HasEdge(m.blocks[b], id) && p == m.blocks[b].id)
    {
      EdgeAmongStep(m, b, id, p);
    }
  }

  lemma EdgeAmongStep(m: Module, b: nat, id: BlockId, p: BlockId)
    requires b < |m.blocks|
    ensures EdgeAmong(m, b + 1, id, p) <==>
      EdgeAmong(m, b, id, p) || (HasEdge(m.blocks[b], id) && p == m.blocks[b].id)
  {
    if EdgeAmong(m, b + 1, id, p) {
      var a :| 0 <= a < b + 1 && HasEdge(m.blocks[a], id) && m.blocks[a].id == p;
      if a < b {
        assert EdgeAmong(m, b, id, p);
      }
    }
    if EdgeAmong(m, b, id, p) {
      var a :| 0 <= a < b && HasEdge(m.blocks[a], id) && m.blocks[a].id == p;
      assert a < b + 1;
    }
    if HasEdge(m.blocks[b], id) && p == m.blocks[b].id {
      assert b < b + 1;
    }
  }

  /** The second pass: branch targets exist, and every block's predecessors are recorded. */
  method CollectPredecessors(m: Module, ids: set<BlockId>) returns (ok: bool, predecessors: map<BlockId, set<BlockId>>)
    requires AllTerminated(m) && forall id :: id in ids <==> HasBlock(m, id)
    ensures ok <==> TargetsExist(m)
    ensures ok ==> forall id :: PredecessorsOf(predecessors, id) == Predecessors(m, id)
  {
    predecessors := map[];
    for b := 0 to |m.blocks|
      invariant forall a, t :: 0 <= a < b && t in Targets(m.blocks[a].terminator.value) ==> t in ids
      invariant forall id, p :: p in PredecessorsOf(predecessors, id) <==> EdgeAmong(m, b, id, p)
    {
      var before := predecessors;
      match m.blocks[b].terminator.value {
      case BranchOp(t) =>
        if t !in ids {
          assert t in Targets(m.blocks[b].terminator.value);
          return false, predecessors;
        }
        predecessors := AddPredecessor(predecessors, t, m.blocks[b].id);
      case CondBranchOp(_, t, e) =>
        if t !in ids || e !in ids {
          assert t in Targets(m.blocks[b].terminator.value) && e in Targets(m.blocks[b].terminator.value);
          return false, predecessors;
        }
        predecessors := AddPredecessor(predecessors, t, m.blocks[b].id);
        predecessors := AddPredecessor(predecessors, e, m.blocks[b].id);
      case ReturnOp(_) =>
      }
      assert forall id, p :: p in PredecessorsOf(predecessors, id) <==>
        p in PredecessorsOf(before, id) || (HasEdge(m.blocks[b], id) && p == m.blocks[b].id);
      EdgeAmongNext(m, b);
    }
    ok := true;
  }

  predicate OperandAccepted(definitions: Definitions, v: ValueId, ty: TensorType, useBlock: BlockId, useIndex: nat) {
    && v in definitions && definitions[v].ty == ty
    && !(definitions[v].block == useBlock && definitions[v].operationIndex >= useIndex)
  }

  lemma OperandExact(m: Module, definitions: Definitions, where: map<ValueId, Position>, v: ValueId, ty: TensorType,
                     useBlock: BlockId, useIndex: nat)
    requires Describes(m, |m.blocks|, 0, definitions, where)
    ensures OperandAccepted(definitions, v, ty, useBlock, useIndex) <==> Operand(m, v, ty, useBlock, useIndex)
    ensures v in definitions <==> Defined(m, v)
    ensures v in definitions && definitions[v].ty == ty <==> DefinedAs(m, v, ty)
  {
    if v in definitions {
      assert InRange(m.blocks, where[v]) && OpAt(m.blocks, where[v]).result == v;
      assert DefinesTyped(m, where[v], v, definitions[v].ty);
    }
  }

  /** The checks on one phi: operand types, distinct predecessors, and exactly the block's predecessors. */
  method CheckPhi(m: Module, definitions: Definitions, ghost where: map<ValueId, Position>, predecessors: set<BlockId>,
                  block: BlockId, index: nat, op: Operation) returns (ok: bool)
    requires Describes(m, |m.blocks|, 0, definitions, where) && op.PhiOp? && predecessors == Predecessors(m, block)
    ensures ok <==> OperationOk(m, block, index, op)
  {
    var incomingBlocks := {};
    for k := 0 to |op.incoming|
      invariant forall j :: 0 <= j < k ==> Operand(m, op.incoming[j].value, op.ty, block, index)
      invariant forall j, l :: 0 <= j < l < k ==> op.incoming[j].predecessor != op.incoming[l].predecessor
      invariant incomingBlocks == set j | 0 <= j < k :: op.incoming[j].predecessor
    {
      OperandExact(m, definitions, where, op.incoming[k].value, op.ty, block, index);
      if !OperandAccepted(definitions, op.incoming[k].value, op.ty, block, index) {
        return false;
      }
      if op.incoming[k].predecessor in incomingBlocks {
        return false;
      }
      incomingBlocks := incomingBlocks + {op.incoming[k].predecessor};
    }
    ok := incomingBlocks == predecessors;
  }

  method CheckOperation(m: Module, definitions: Definitions, ghost where: map<ValueId, Position>,
                        predecessors: map<BlockId, set<BlockId>>, block: BlockId, index: nat, op: Operation)
    returns (ok: bool)
    requires Describes(m, |m.blocks|, 0, definitions, where)
    requires PredecessorsOf(predecessors, block) == Predecessors(m, block)
    ensures ok <==> OperationOk(m, block, index, op)
  {
    match op
    case BinaryOp(_, _, lhs, rhs, ty) =>
      OperandExact(m, definitions, where, lhs, ty, block, index);
      OperandExact(m, definitions, where, rhs, ty, block, index);
      ok := OperandAccepted(definitions, lhs, ty, block, index) && OperandAccepted(definitions, rhs, ty, block, index);
    case CompareOp(_, _, lhs, rhs, ty) =>
      OperandExact(m, definitions, where, lhs, ty, block, index);
      OperandExact(m, definitions, where, rhs, ty, block, index);
      ok := OperandAccepted(definitions, lhs, ty, block, index) && OperandAccepted(definitions, rhs, ty, block, index);
    case PhiOp(_, _, _) =>
      ok := CheckPhi(m, definitions, where, PredecessorsOf(predecessors, block), block, index, op);
    case MatMulOp(_, lhs, rhs, ty) =>
      OperandExact(m, definitions, where, lhs, ty, block, index);
      OperandExact(m, definitions, where, rhs, ty, block, index);
      ok := lhs in definitions && rhs in definitions;
    case ReluOp(_, input, ty) =>
      OperandExact(m, definitions, where, input, ty, block, index);
      ok := input in definitions;
    case _ => ok := true;
  }

  /** The running return type after some blocks: it is the type of every value they return. */
  ghost predicate RunningType(m: Module, b: nat, returnType: Option<TensorType>)
    requires b <= |m.blocks|
  {
    && (returnType.None? ==> forall a :: 0 <= a < b ==> !Returns(m.blocks[a]))
    && (returnType.Some? ==>
          && (exists a :: 0 <= a < b && Returns(m.blocks[a]))
          && forall a :: 0 <= a < b && Returns(m.blocks[a]) ==>
            DefinedAs(m, m.blocks[a].terminator.value.value, returnType.value))
  }

  /** The third pass: uses, conditions and returns. */
  method CheckUses(m: Module, definitions: Definitions, ghost where: map<ValueId, Position>, predecessors: map<BlockId,
                   set<BlockId>>)
    returns (ok: bool)
    requires AllTerminated(m) && UniqueResults(m) && Describes(m, |m.blocks|, 0, definitions, where)
    requires forall id :: PredecessorsOf(predecessors, id) == Predecessors(m, id)
    ensures ok <==> OperationsOk(m) && ConditionsOk(m) && ReturnsOk(m)
  {
    var returnType: Option<TensorType> := None;
    for b := 0 to |m.blocks|
      invariant forall a, i :: 0 <= a < b && 0 <= i < |m.blocks[a].operations| ==>
        OperationOk(m, m.blocks[a].id, i, m.blocks[a].operations[i])
      invariant forall a :: 0 <= a < b && m.blocks[a].terminator.value.CondBranchOp? ==>
        DefinedAs(m, m.blocks[a].terminator.value.condition, I1)
      invariant RunningType(m, b, returnType)
    {
      var block := m.blocks[b];
      for index := 0 to |block.operations|
        invariant forall i :: 0 <= i < index ==> OperationOk(m, block.id, i, block.operations[i])
      {
        ok := CheckOperation(m, definitions, where, predecessors, block.id, index, block.operations[index]);
        if !ok {
          return;
        }
      }
      match block.terminator.value
      case BranchOp(_) =>
      case CondBranchOp(c, _, _) =>
        OperandExact(m, definitions, where, c, I1, 0, 0);
        if c !in definitions || definitions[c].ty != I1 {
          return false;
        }
      case ReturnOp(v) =>
        ReturnExact(m, definitions, where, b, returnType);
        if v !in definitions || (returnType.Some? && returnType.value != definitions[v].ty) {
          return false;
        }
        returnType := Some(definitions[v].ty);
    }
    ok := returnType.Some?;
    if ok {
      assert ReturnsAs(m, returnType.value);
    }
  }

  /** Rejecting at a return is right, and accepting keeps the running type. */
  lemma ReturnExact(m: Module, definitions: Definitions, where: map<ValueId, Position>, b: nat,
                    returnType: Option<TensorType>)
    requires Describes(m, |m.blocks|, 0, definitions, where) && UniqueResults(m)
    requires b < |m.blocks| && Returns(m.blocks[b]) && RunningType(m, b, returnType)
    ensures var v := m.blocks[b].terminator.value.value;
      if v !in definitions || (returnType.Some? && returnType.value != definitions[v].ty) then !ReturnsOk(m)
      else RunningType(m, b + 1, Some(definitions[v].ty))
  {
    var v := m.blocks[b].terminator.value.value;
    forall ty | ReturnsAs(m, ty)
      ensures v in definitions && definitions[v].ty == ty
      ensures returnType.Some? ==> returnType.value == ty
    {
      OperandExact(m, definitions, where, v, ty, 0, 0);
      if returnType.Some? {
        var a :| 0 <= a < b && Returns(m.blocks[a]);
        OperandExact(m, definitions, where, m.blocks[a].terminator.value.value, ty, 0, 0);
        OperandExact(m, definitions, where, m.blocks[a].terminator.value.value, returnType.value, 0, 0);
      }
    }
    if v in definitions {
      OperandExact(m, definitions, where, v, definitions[v].ty, 0, 0);
    }
  }

  method Verify(m: Module) returns (ok: bool)
    ensures ok <==> WellFormedModule(m)
  {
    if m.blocks == [] {
      return false;
    }
    var ids, definitions, predecessors;
    ghost var where;
    ok, ids, definitions, where := CollectDefinitions(m);
    if !ok {
      return;
    }
    if m.entry !in ids {
      return false;
    }
    ok, predecessors := CollectPredecessors(m, ids);
    if !ok {
      return;
    }
    ok := CheckUses(m, definitions, where, predecessors);
  }
}
