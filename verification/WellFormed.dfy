/** What a module must satisfy to be accepted by the verifier, stated without any traversal order. */
module WellFormed {
  import opened Ast
  import opened IR
  import opened Certificate

  ghost predicate DefinesTyped(m: Module, p: Position, v: ValueId, ty: TensorType) {
    InRange(m.blocks, p) && OpAt(m.blocks, p).result == v && TypeOf(OpAt(m.blocks, p)) == ty
  }

  ghost predicate Defined(m: Module, v: ValueId) {
    exists p :: InRange(m.blocks, p) && OpAt(m.blocks, p).result == v
  }

  ghost predicate DefinedAs(m: Module, v: ValueId, ty: TensorType) {
    exists p :: DefinesTyped(m, p, v, ty)
  }

  /** An operand has a definition of the right type, which precedes the use if it is in the same block. */
  ghost predicate Operand(m: Module, v: ValueId, ty: TensorType, useBlock: BlockId, useIndex: nat) {
    exists p :: DefinesTyped(m, p, v, ty) && (m.blocks[p.block].id == useBlock ==> p.index < useIndex)
  }

  ghost predicate HasBlock(m: Module, id: BlockId) {
    exists b :: 0 <= b < |m.blocks| && m.blocks[b].id == id
  }

  function Predecessors(m: Module, id: BlockId): set<BlockId> {
    set b | 0 <= b < |m.blocks| && HasEdge(m.blocks[b], id) :: m.blocks[b].id
  }

  function IncomingBlocks(incoming: seq<PhiIncoming>): set<BlockId> {
    set k | 0 <= k < |incoming| :: incoming[k].predecessor
  }

  ghost predicate UniqueBlocks(m: Module) {
    forall a, b :: 0 <= a < b < |m.blocks| ==> m.blocks[a].id != m.blocks[b].id
  }

  ghost predicate UniqueResults(m: Module) {
    forall p, q ::
      InRange(m.blocks, p) && InRange(m.blocks, q) && OpAt(m.blocks, p).result == OpAt(m.blocks, q).result ==> p == q
  }

  ghost predicate AllTerminated(m: Module) {
    forall b :: 0 <= b < |m.blocks| ==> m.blocks[b].terminator.Some?
  }

  ghost predicate TargetsExist(m: Module) {
    forall b, t ::
      0 <= b < |m.blocks| && m.blocks[b].terminator.Some? && t in Targets(m.blocks[b].terminator.value) ==>
      HasBlock(m, t)
  }

  ghost predicate OperationOk(m: Module, useBlock: BlockId, useIndex: nat, op: Operation) {
    match op
    case BinaryOp(_, _, lhs, rhs, ty) =>
      Operand(m, lhs, ty, useBlock, useIndex) && Operand(m, rhs, ty, useBlock, useIndex)
    case CompareOp(_, _, lhs, rhs, ty) =>
      Operand(m, lhs, ty, useBlock, useIndex) && Operand(m, rhs, ty, useBlock, useIndex)
    case PhiOp(_, ty, incoming) =>
      && (forall k :: 0 <= k < |incoming| ==> Operand(m, incoming[k].value, ty, useBlock, useIndex))
      && (forall k, l :: 0 <= k < l < |incoming| ==> incoming[k].predecessor != incoming[l].predecessor)
      && IncomingBlocks(incoming) == Predecessors(m, useBlock)
    case MatMulOp(_, lhs, rhs, _) => Defined(m, lhs) && Defined(m, rhs)
    case ReluOp(_, input, _) => Defined(m, input)
    case _ => true
  }

  ghost predicate OperationsOk(m: Module) {
    forall b, i :: 0 <= b < |m.blocks| && 0 <= i < |m.blocks[b].operations| ==>
      OperationOk(m, m.blocks[b].id, i, m.blocks[b].operations[i])
  }

  ghost predicate ConditionsOk(m: Module) {
    forall b :: 0 <= b < |m.blocks| && m.blocks[b].terminator.Some? && m.blocks[b].terminator.value.CondBranchOp? ==>
      DefinedAs(m, m.blocks[b].terminator.value.condition, I1)
  }

  predicate Returns(block: BasicBlock) {
    block.terminator.Some? && block.terminator.value.ReturnOp?
  }

  /** All returned values have one common type. */
  ghost predicate ReturnsAs(m: Module, ty: TensorType) {
    forall b :: 0 <= b < |m.blocks| && Returns(m.blocks[b]) ==> DefinedAs(m, m.blocks[b].terminator.value.value, ty)
  }

  ghost predicate ReturnsOk(m: Module) {
    && (exists b :: 0 <= b < |m.blocks| && Returns(m.blocks[b]))
    && (exists ty :: ReturnsAs(m, ty))
  }

  ghost predicate WellFormedModule(m: Module) {
    && m.blocks != [] && UniqueBlocks(m) && AllTerminated(m) && PhisFirst(m.blocks) && UniqueResults(m)
    && HasBlock(m, m.entry) && TargetsExist(m)
    && OperationsOk(m) && ConditionsOk(m) && ReturnsOk(m)
  }
}
