/** One module for each thing the verifier rejects, wrong in nothing else, and one that it accepts although it computes
    from a value before it is there. */
module VerifierCases {
  import opened Prelude
  import opened Ast
  import opened IR
  import opened Certificate
  import opened WellFormed

  const ONE := ConstantIntOp(0, 1, I64)

  function Returning(ops: seq<Operation>, v: ValueId): Module {
    Module(0, [BasicBlock(0, "entry", ops, Some(ReturnOp(v)))])
  }

  function Joining(ops: seq<Operation>, merge: seq<Operation>, v: ValueId): Module {
    Module(0, [BasicBlock(0, "entry", ops, Some(BranchOp(1))), BasicBlock(1, "merge", merge, Some(ReturnOp(v)))])
  }

  const NO_BLOCKS := Module(0, [])
  const NO_ENTRY := Module(7, Returning([ONE], 0).blocks)
  const NO_TERMINATOR := Module(0, [BasicBlock(0, "entry", [ONE], Some(ReturnOp(0))), BasicBlock(1, "open", [], None)])
  const NO_TARGET := Module(0, [
    BasicBlock(0, "entry", [ONE], Some(BranchOp(99))),
    BasicBlock(1, "end", [], Some(ReturnOp(0)))])
  const NO_VALUE := Returning([], 42)
  const NO_RETURN := Module(0, [BasicBlock(0, "entry", [], Some(BranchOp(0)))])
  const TWO_BLOCKS := Module(0,
                             [BasicBlock(0, "a", [ONE], Some(ReturnOp(0))), BasicBlock(0, "b", [], Some(ReturnOp(0)))])
  const TWO_VALUES := Returning([ONE, ONE], 0)
  const TWO_TYPES := Module(0, [
    BasicBlock(0, "a", [ONE], Some(ReturnOp(0))),
    BasicBlock(1, "b", [ConstantFloatOp(1, 0, F64)], Some(ReturnOp(1)))])
  const NO_BOOLEAN := Module(0, [
    BasicBlock(0, "entry", [ONE], Some(CondBranchOp(0, 1, 2))),
    BasicBlock(1, "true", [ConstantIntOp(1, 1, I64)], Some(ReturnOp(1))),
    BasicBlock(2, "false", [ConstantIntOp(2, 0, I64)], Some(ReturnOp(2)))])
  const LATE_OPERAND := Returning([ONE, BinaryOp(1, Add, 0, 2, I64), ConstantIntOp(2, 1, I64)], 1)
  const OTHER_OPERAND := Returning([ConstantFloatOp(0, 0, F64), BinaryOp(1, Add, 0, 0, I64)], 1)
  const OTHER_COMPARED := Returning([ConstantFloatOp(0, 0, F64), CompareOp(1, Less, 0, 0, I64)], 1)
  const LATE_PHI := Joining([ONE], [ConstantIntOp(1, 1, I64), PhiOp(2, I64, [PhiIncoming(0, 0)])], 2)
  const OTHER_PREDECESSOR := Joining([ONE], [PhiOp(1, I64, [PhiIncoming(7, 0)])], 1)
  const NO_PREDECESSOR := Joining([ONE], [PhiOp(1, I64, [])], 1)
  const TWO_OPERANDS := Joining([ONE], [PhiOp(1, I64, [PhiIncoming(0, 0), PhiIncoming(0, 0)])], 1)
  const OTHER_PHI := Joining([ConstantFloatOp(0, 0, F64)], [PhiOp(1, I64, [PhiIncoming(0, 0)])], 1)
  const NO_RELU := Returning([ReluOp(0, 9, I64)], 0)
  const NO_MATMUL := Returning([ONE, MatMulOp(1, 0, 9, I64)], 0)

  lemma NoDefinition(m: Module, v: ValueId)
    requires forall b, i :: 0 <= b < |m.blocks| && 0 <= i < |m.blocks[b].operations| ==>
      m.blocks[b].operations[i].result != v
    ensures !Defined(m, v) && forall ty :: !DefinedAs(m, v, ty)
  {
  }

  /** What is missing. */
  lemma RejectsMissing()
    ensures !WellFormedModule(NO_BLOCKS) && !WellFormedModule(NO_ENTRY) && !WellFormedModule(NO_TERMINATOR)
    ensures !WellFormedModule(NO_TARGET) && !WellFormedModule(NO_VALUE) && !WellFormedModule(NO_RETURN)
    ensures !WellFormedModule(NO_RELU) && !WellFormedModule(NO_MATMUL)
  {
    assert NO_TERMINATOR.blocks[1].terminator.None?;
    assert 99 in Targets(NO_TARGET.blocks[0].terminator.value) && !HasBlock(NO_TARGET, 99);
    NoDefinition(NO_VALUE, 42);
    assert Returns(NO_VALUE.blocks[0]);
    assert !Returns(NO_RETURN.blocks[0]);
    NoDefinition(NO_RELU, 9);
    assert !OperationOk(NO_RELU, NO_RELU.blocks[0].id, 0, NO_RELU.blocks[0].operations[0]);
    NoDefinition(NO_MATMUL, 9);
    assert !OperationOk(NO_MATMUL, NO_MATMUL.blocks[0].id, 1, NO_MATMUL.blocks[0].operations[1]);
  }

  /** What is there twice. */
  lemma RejectsRepeated()
    ensures !WellFormedModule(TWO_BLOCKS) && !WellFormedModule(TWO_VALUES) && !WellFormedModule(TWO_OPERANDS)
  {
    assert TWO_BLOCKS.blocks[0].id == TWO_BLOCKS.blocks[1].id;
    var p, q := Position(0, 0), Position(0, 1);
    assert OpAt(TWO_VALUES.blocks, p).result == OpAt(TWO_VALUES.blocks, q).result && p != q;
    var phi := TWO_OPERANDS.blocks[1].operations[0];
    assert phi.incoming[0].predecessor == phi.incoming[1].predecessor;
    assert !OperationOk(TWO_OPERANDS, TWO_OPERANDS.blocks[1].id, 0, phi);
  }

  lemma OnlyType(m: Module, v: ValueId, ty: TensorType, other: TensorType)
    requires other != ty
    requires forall b, i ::
      0 <= b < |m.blocks| && 0 <= i < |m.blocks[b].operations| && m.blocks[b].operations[i].result == v ==>
      TypeOf(m.blocks[b].operations[i]) == ty
    ensures !DefinedAs(m, v, other) && forall b, i :: !Operand(m, v, other, b, i)
  {
  }

  /** What has another type. */
  lemma RejectsTypes()
    ensures !WellFormedModule(TWO_TYPES) && !WellFormedModule(NO_BOOLEAN)
    ensures !WellFormedModule(OTHER_OPERAND) && !WellFormedModule(OTHER_COMPARED) && !WellFormedModule(OTHER_PHI)
  {
    forall ty ensures !ReturnsAs(TWO_TYPES, ty) {
      assert Returns(TWO_TYPES.blocks[0]) && Returns(TWO_TYPES.blocks[1]);
      if ty != I64 {
        OnlyType(TWO_TYPES, 0, I64, ty);
      } else {
        OnlyType(TWO_TYPES, 1, F64, ty);
      }
    }
    OnlyType(NO_BOOLEAN, 0, I64, I1);
    assert NO_BOOLEAN.blocks[0].terminator.value.CondBranchOp?;
    OnlyType(OTHER_OPERAND, 0, F64, I64);
    assert !OperationOk(OTHER_OPERAND, OTHER_OPERAND.blocks[0].id, 1, OTHER_OPERAND.blocks[0].operations[1]);
    OnlyType(OTHER_COMPARED, 0, F64, I64);
    assert !OperationOk(OTHER_COMPARED, OTHER_COMPARED.blocks[0].id, 1, OTHER_COMPARED.blocks[0].operations[1]);
    OnlyType(OTHER_PHI, 0, F64, I64);
    assert OTHER_PHI.blocks[1].operations[0].incoming[0].value == 0;
    assert !Operand(OTHER_PHI, 0, I64, OTHER_PHI.blocks[1].id, 0);
    assert !OperationOk(OTHER_PHI, OTHER_PHI.blocks[1].id, 0, OTHER_PHI.blocks[1].operations[0]);
  }

  /** What stands in the wrong place, or comes from it. */
  lemma RejectsPlaces()
    ensures !WellFormedModule(LATE_OPERAND) && !WellFormedModule(LATE_PHI)
    ensures !WellFormedModule(OTHER_PREDECESSOR) && !WellFormedModule(NO_PREDECESSOR)
  {
    assert !Operand(LATE_OPERAND, 2, I64, 0, 1);
    assert !OperationOk(LATE_OPERAND, LATE_OPERAND.blocks[0].id, 1, LATE_OPERAND.blocks[0].operations[1]);
    assert LATE_PHI.blocks[1].operations[1].PhiOp? && !LATE_PHI.blocks[1].operations[0].PhiOp?;
    assert HasEdge(NO_PREDECESSOR.blocks[0], 1) && 0 in Predecessors(NO_PREDECESSOR, 1);
    assert !OperationOk(NO_PREDECESSOR, NO_PREDECESSOR.blocks[1].id, 0, NO_PREDECESSOR.blocks[1].operations[0]);
    var other := OTHER_PREDECESSOR.blocks[1].operations[0];
    assert other.incoming[0].predecessor == 7 && 7 in IncomingBlocks(other.incoming)
      && 7 !in Predecessors(OTHER_PREDECESSOR, 1);
    assert !OperationOk(OTHER_PREDECESSOR, OTHER_PREDECESSOR.blocks[1].id, 0, other);
  }

  const LATE_RELU := Returning([ReluOp(0, 1, I64), ConstantIntOp(1, 1, I64)], 0)

  /** Calls are not checked for order. */
  lemma AcceptsLateCall()
    ensures WellFormedModule(LATE_RELU)
  {
    var m := LATE_RELU;
    var p, q := Position(0, 0), Position(0, 1);
    assert OpAt(m.blocks, p).result == 0 && OpAt(m.blocks, q).result == 1;
    assert DefinesTyped(m, p, 0, I64);
    assert ReturnsAs(m, I64) && Returns(m.blocks[0]) && m.blocks[0].id == m.entry;
  }

  /** In a verified module a phi has exactly one operand for each block that can come before it, and no other. */
  lemma PhiChoice(m: Module, b: nat, i: nat, from: BlockId)
    requires WellFormedModule(m) && b < |m.blocks| && i < |m.blocks[b].operations| && m.blocks[b].operations[i].PhiOp?
    ensures var incoming := m.blocks[b].operations[i].incoming;
      && ((exists p :: 0 <= p < |m.blocks| && m.blocks[p].id == from && HasEdge(m.blocks[p], m.blocks[b].id)) <==>
          exists k :: 0 <= k < |incoming| && incoming[k].predecessor == from)
      && (forall k, l ::
            0 <= k < |incoming| && 0 <= l < |incoming| && incoming[k].predecessor == from == incoming[l].predecessor ==>
            k == l)
  {
    var op := m.blocks[b].operations[i];
    assert OperationOk(m, m.blocks[b].id, i, op);
    assert from in IncomingBlocks(op.incoming) <==> from in Predecessors(m, m.blocks[b].id);
  }
}
