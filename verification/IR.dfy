/** The typed SSA intermediate representation: modules of basic blocks. */
module IR {
  import opened Prelude
  import opened Ast

  type ValueId = nat
  type BlockId = nat

  type BinaryKind = op: BinaryOperator | op.IsArithmetic() witness Add
  type CompareKind = op: BinaryOperator | !op.IsArithmetic() witness Equal

  datatype PhiIncoming = PhiIncoming(predecessor: BlockId, value: ValueId)

  datatype Operation =
    | TensorDeclOp(result: ValueId, name: string, ty: TensorType)
    | ConstantIntOp(result: ValueId, value: Int64, ty: TensorType)
    | ConstantFloatOp(result: ValueId, code: int, ty: TensorType)
    | BinaryOp(result: ValueId, kind: BinaryKind, lhs: ValueId, rhs: ValueId, ty: TensorType)
    | CompareOp(result: ValueId, cmp: CompareKind, lhs: ValueId, rhs: ValueId, operandType: TensorType)
    | PhiOp(result: ValueId, ty: TensorType, incoming: seq<PhiIncoming>)
    | MatMulOp(result: ValueId, lhs: ValueId, rhs: ValueId, ty: TensorType)
    | ReluOp(result: ValueId, input: ValueId, ty: TensorType)

  datatype Terminator =
    | BranchOp(target: BlockId)
    | CondBranchOp(condition: ValueId, trueTarget: BlockId, falseTarget: BlockId)
    | ReturnOp(value: ValueId)

  datatype BasicBlock = BasicBlock(id: BlockId, name: string, operations: seq<Operation>,
                                   terminator: Option<Terminator>)

  datatype Module = Module(entry: BlockId, blocks: seq<BasicBlock>)

  function TypeOf(op: Operation): TensorType {
    if op.CompareOp? then I1 else op.ty
  }

  /** The block ids a terminator can jump to. */
  function Targets(t: Terminator): set<BlockId> {
    match t
    case BranchOp(b) => {b}
    case CondBranchOp(_, b, c) => {b, c}
    case ReturnOp(_) => {}
  }

  predicate HasEdge(block: BasicBlock, target: BlockId) {
    block.terminator.Some? && target in Targets(block.terminator.value)
  }

  /** Block ids are positions, every block is finished, and control only moves to later blocks. */
  ghost predicate Forward(blocks: seq<BasicBlock>) {
    forall b :: 0 <= b < |blocks| ==>
      && blocks[b].id == b
      && blocks[b].terminator.Some?
      && forall t :: t in Targets(blocks[b].terminator.value) ==> b < t < |blocks|
  }
}
