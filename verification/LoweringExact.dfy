/** What lowering a certified module yields, and exactly when it succeeds: the single pass never looks up
    a value or a block that is not there. */
module LoweringExact {
  import opened Prelude
  import opened Ast
  import opened IR
  import opened Certificate
  import opened GeneratedModule
  import opened GeneratorVerifies
  import opened WellFormed
  import opened StorageSize
  import opened Target
  import opened LoweringSpec

  function OperandOf(op: Operation): Operand {
    match op
    case ConstantIntOp(_, n, _) => ConstInt(n)
    case ConstantFloatOp(_, code, _) => ConstFloat(code)
    case _ => Reg(op.result)
  }

  /** The operand by which a defined value is known. */
  function Canon(blocks: seq<BasicBlock>, c: Cert, v: ValueId): Operand {
    if v < |c.at| && InRange(blocks, c.at[v]) then OperandOf(OpAt(blocks, c.at[v])) else Reg(v)
  }

  function Inputs(blocks: seq<BasicBlock>, c: Cert, incoming: seq<PhiIncoming>): seq<PhiInput> {
    if incoming == [] then []
    else [PhiInput(Canon(blocks, c, incoming[0].value), incoming[0].predecessor)] + Inputs(blocks, c, incoming[1..])
  }

  function Bytes(ty: TensorType): nat {
    ElementSize(ty) * Elements(ty.shape)
  }

  /** The instructions an operation becomes. */
  function OpCode(blocks: seq<BasicBlock>, c: Cert, op: Operation): seq<Instr> {
    match op
    case TensorDeclOp(r, _, ty) => [CallAlloc(r, Bytes(ty), 64), Store(r, r)]
    case BinaryOp(r, kind, lhs, rhs, ty) =>
      [Arith(r, ty.elementType == "f64", kind, Canon(blocks, c, lhs), Canon(blocks, c, rhs))]
    case CompareOp(r, kind, lhs, rhs, ty) =>
      [Cmp(r, PredicateOf(ty.elementType == "f64", kind), Canon(blocks, c, lhs), Canon(blocks, c, rhs))]
    case PhiOp(r, _, incoming) => [Phi(r, Inputs(blocks, c, incoming))]
    case _ => []
  }

  function OpsCode(blocks: seq<BasicBlock>, c: Cert, ops: seq<Operation>): seq<Instr> {
    if ops == [] then [] else OpCode(blocks, c, ops[0]) + OpsCode(blocks, c, ops[1..])
  }

  function ExitOf(blocks: seq<BasicBlock>, c: Cert, t: Terminator): Exit {
    match t
    case BranchOp(b) => Br(b)
    case CondBranchOp(v, b, e) => CondBr(Canon(blocks, c, v), b, e)
    case ReturnOp(v) => RetTrunc(Canon(blocks, c, v))
  }

  function LastCode(order: seq<ValueId>, t: Terminator): seq<Instr> {
    if t.ReturnOp? then Frees(order) else []
  }

  function BlockCode(blocks: seq<BasicBlock>, c: Cert, order: seq<ValueId>, block: BasicBlock): Block
    requires block.terminator.Some?
  {
    Block(OpsCode(blocks, c, block.operations) + LastCode(order, block.terminator.value),
          ExitOf(blocks, c, block.terminator.value))
  }

  /** Operations that lowering supports: no tensor computation, storable tensors, and phis of scalar type. */
  ghost predicate Supported(op: Operation) {
    match op
    case TensorDeclOp(_, _, ty) => Storable(ty)
    case PhiOp(_, ty, incoming) => ty in {I1, I64, F64} && |incoming| < 0x1_0000_0000
    case MatMulOp(_, _, _, _) => false
    case ReluOp(_, _, _) => false
    case _ => true
  }

  ghost predicate SupportedOps(ops: seq<Operation>) {
    forall i :: 0 <= i < |ops| ==> Supported(ops[i])
  }

  ghost predicate SupportedModule(m: Module) {
    forall b :: 0 <= b < |m.blocks| ==> SupportedOps(m.blocks[b].operations)
  }

  ghost predicate IsEarlier(c: Cert, v: ValueId, b: nat, i: nat) {
    v < |c.at| && Earlier(c.at[v], Position(b, i))
  }

  /** Before operation `i` of block `b` the pass knows exactly the values defined earlier in module order. */
  ghost predicate Known(blocks: seq<BasicBlock>, c: Cert, values: Operands, b: nat, i: nat) {
    && (forall v: ValueId :: v in values <==> IsEarlier(c, v, b, i))
    && (forall v :: v in values ==> values[v] == Canon(blocks, c, v))
  }

  lemma {:induction false} IndexPositional(blocks: seq<BasicBlock>, start: nat, i: nat)
    requires i < |blocks| && forall k :: 0 <= k < |blocks| ==> blocks[k].id == start + k
    ensures Index(blocks, start + i) == Some(i)
    decreases |blocks|
  {
    if 0 < i {
      IndexPositional(blocks[1..], start + 1, i - 1);
      assert start + i == start + 1 + (i - 1);
    }
  }

  lemma IncomingKnown(blocks: seq<BasicBlock>, c: Cert, values: Operands, incoming: seq<PhiIncoming>)
    requires forall k :: 0 <= k < |blocks| ==> blocks[k].id == k
    requires forall k :: 0 <= k < |incoming| ==>
      incoming[k].predecessor < |blocks| && incoming[k].value in values
        && values[incoming[k].value] == Canon(blocks, c, incoming[k].value)
    ensures LowerIncoming(blocks, values, incoming) == Some(Inputs(blocks, c, incoming))
  {
    if incoming != [] {
      IndexPositional(blocks, 0, incoming[0].predecessor);
      IncomingKnown(blocks, c, values, incoming[1..]);
    }
  }

  /** A value available at a position is already known to the pass. */
  lemma BeforeKnown(blocks: seq<BasicBlock>, c: Cert, values: Operands, b: nat, i: nat, v: ValueId)
    requires Certified(blocks, c) && b < |blocks| && Known(blocks, c, values, b, i) && Before(c, b, i, v)
    ensures v in values && values[v] == Canon(blocks, c, v)
  {
    if v in c.avail[b] {
      assert DefinedBefore(c, v, b);
    }
    assert IsEarlier(c, v, b, i);
  }

  lemma OpKnown(blocks: seq<BasicBlock>, c: Cert, values: Operands, b: nat, i: nat)
    requires Certified(blocks, c) && b < |blocks| && i < |blocks[b].operations| && Known(blocks, c, values, b, i)
    ensures var op := blocks[b].operations[i];
      LowerOp(blocks, values, op) == if Supported(op) then Some((OpCode(blocks, c, op), OperandOf(op))) else None
  {
    var op := blocks[b].operations[i];
    assert OpOk(blocks, c, b, i, op);
    match op
    case BinaryOp(_, _, lhs, rhs, _) =>
      BeforeKnown(blocks, c, values, b, i, lhs);
      BeforeKnown(blocks, c, values, b, i, rhs);
    case CompareOp(_, _, lhs, rhs, _) =>
      BeforeKnown(blocks, c, values, b, i, lhs);
      BeforeKnown(blocks, c, values, b, i, rhs);
    case PhiOp(r, _, incoming) =>
      PhiKnown(blocks, c, values, b, i);
    case _ =>
  }

  lemma PhiKnown(blocks: seq<BasicBlock>, c: Cert, values: Operands, b: nat, i: nat)
    requires Certified(blocks, c) && b < |blocks| && i < |blocks[b].operations| && blocks[b].operations[i].PhiOp?
    requires Known(blocks, c, values, b, i)
    ensures var op := blocks[b].operations[i];
      LowerIncoming(blocks, Emplace(values, op.result, Reg(op.result)), op.incoming) ==
        Some(Inputs(blocks, c, op.incoming))
  {
    var op := blocks[b].operations[i];
    var values' := Emplace(values, op.result, Reg(op.result));
    assert OpOk(blocks, c, b, i, op);
    forall k | 0 <= k < |op.incoming|
      ensures op.incoming[k].value in values' && values'[op.incoming[k].value] == Canon(blocks, c, op.incoming[k].value)
    {
      PhiOperandsElsewhere(blocks, c, b, op, k);
      assert IsEarlier(c, op.incoming[k].value, b, i);
    }
    IncomingKnown(blocks, c, values', op.incoming);
  }

  lemma KnownNext(blocks: seq<BasicBlock>, c: Cert, values: Operands, b: nat, i: nat)
    requires Certified(blocks, c) && b < |blocks| && i < |blocks[b].operations| && Known(blocks, c, values, b, i)
    ensures var op := blocks[b].operations[i];
      Known(blocks, c, Emplace(values, op.result, OperandOf(op)), b, i + 1)
  {
    var op := blocks[b].operations[i];
    assert c.at[op.result] == Position(b, i);
    forall v: ValueId ensures IsEarlier(c, v, b, i + 1) <==> IsEarlier(c, v, b, i) || v == op.result {
      if v < |c.at| && c.at[v] == Position(b, i) {
        assert OpAt(blocks, c.at[v]).result == v;
      }
    }
  }

  lemma {:induction false} OpsExact(blocks: seq<BasicBlock>, c: Cert, values: Operands, b: nat, i: nat)
    requires Certified(blocks, c) && b < |blocks| && i <= |blocks[b].operations| && Known(blocks, c, values, b, i)
    ensures var ops := blocks[b].operations[i..];
      var r := LowerOps(blocks, values, ops);
      && (r.Some? <==> SupportedOps(ops))
      && (r.Some? ==> r.value.0 == OpsCode(blocks, c, ops) && Known(blocks, c, r.value.1, b, |blocks[b].operations|))
    decreases |blocks[b].operations| - i
  {
    hide Certified, Known, LowerOp, OpCode, Supported;
    var ops := blocks[b].operations[i..];
    if ops != [] {
      OpKnown(blocks, c, values, b, i);
      assert ops[1..] == blocks[b].operations[i + 1..];
      if Supported(ops[0]) {
        KnownNext(blocks, c, values, b, i);
        OpsExact(blocks, c, Emplace(values, ops[0].result, OperandOf(ops[0])), b, i + 1);
        assert SupportedOps(ops) <==> SupportedOps(ops[1..]) by {
          assert forall k :: 1 <= k < |ops| ==> ops[k] == ops[1..][k - 1];
        }
      }
    }
  }

  lemma TerminatorExact(blocks: seq<BasicBlock>, c: Cert, values: Operands, order: seq<ValueId>, b: nat)
    requires Certified(blocks, c) && b < |blocks| && blocks[b].terminator.Some?
    requires Known(blocks, c, values, b, |blocks[b].operations|)
    ensures var t := blocks[b].terminator.value;
      LowerTerminator(blocks, values, order, t) == Some((LastCode(order, t), ExitOf(blocks, c, t)))
  {
    var t := blocks[b].terminator.value;
    assert TermOk(blocks, c, b, t);
    forall x | x in Targets(t) ensures Index(blocks, x) == Some(x) {
      assert EdgeOk(blocks, c, b, x);
      IndexPositional(blocks, 0, x);
    }
    if t.CondBranchOp? || t.ReturnOp? {
      var v := if t.CondBranchOp? then t.condition else t.value;
      assert InRange(blocks, c.at[v]);
      BeforeKnown(blocks, c, values, b, |blocks[b].operations|, v);
    }
    if t.CondBranchOp? {
      assert t.trueTarget in Targets(t) && t.falseTarget in Targets(t);
    } else if t.BranchOp? {
      assert t.target in Targets(t);
    }
  }

  lemma KnownNextBlock(blocks: seq<BasicBlock>, c: Cert, values: Operands, b: nat)
    requires Certified(blocks, c) && b < |blocks| && Known(blocks, c, values, b, |blocks[b].operations|)
    ensures Known(blocks, c, values, b + 1, 0)
  {
    forall v: ValueId ensures IsEarlier(c, v, b, |blocks[b].operations|) <==> IsEarlier(c, v, b + 1, 0) {
      if v < |c.at| {
        assert InRange(blocks, c.at[v]);
      }
    }
  }

  lemma {:induction false} BlocksExact(blocks: seq<BasicBlock>, c: Cert, values: Operands, order: seq<ValueId>, b: nat)
    requires Certified(blocks, c) && b <= |blocks| && Known(blocks, c, values, b, 0)
    requires forall k :: 0 <= k < |blocks| ==> blocks[k].terminator.Some?
    ensures var r := LowerBlocks(blocks, values, order, blocks[b..]);
      && (r.Some? <==> forall k :: b <= k < |blocks| ==> SupportedOps(blocks[k].operations))
      && (r.Some? ==> |r.value| == |blocks| - b && forall k :: b <= k < |blocks| ==>
          r.value[k - b] == BlockCode(blocks, c, order, blocks[k]))
    decreases |blocks| - b
  {
    hide Certified, Known, LowerOps, OpsCode, SupportedOps, LowerTerminator, LastCode, ExitOf;
    if b < |blocks| {
      var rest := blocks[b..];
      assert rest[0] == blocks[b] && rest[1..] == blocks[b + 1..];
      assert blocks[b].operations[0..] == blocks[b].operations;
      OpsExact(blocks, c, values, b, 0);
      var r := LowerOps(blocks, values, blocks[b].operations);
      if r.Some? {
        TerminatorExact(blocks, c, r.value.1, order, b);
        KnownNextBlock(blocks, c, r.value.1, b);
        BlocksExact(blocks, c, r.value.1, order, b + 1);
      }
    }
  }

  /** The code of every block, in place. */
  ghost predicate IsCodeOf(f: Function, m: Module, c: Cert, order: seq<ValueId>)
    requires AllTerminated(m)
  {
    && |f| == |m.blocks| && 0 < |f|
    && f[0] == (var code := BlockCode(m.blocks, c, order, m.blocks[0]);
                code.(instrs := Prologue(Slots(m.blocks)) + code.instrs))
    && forall b :: 0 < b < |f| ==> f[b] == BlockCode(m.blocks, c, order, m.blocks[b])
  }

  lemma NothingKnown(blocks: seq<BasicBlock>, c: Cert)
    ensures Known(blocks, c, map[], 0, 0)
  {
  }

  /** The single pass over all blocks. */
  lemma PassExact(m: Module, c: Cert, order: seq<ValueId>)
    requires Certified(m.blocks, c) && AllTerminated(m)
    ensures var r := LowerBlocks(m.blocks, map[], order, m.blocks);
      && (r.Some? <==> SupportedModule(m))
      && (r.Some? ==> |r.value| == |m.blocks| && forall k :: 0 <= k < |m.blocks| ==>
          r.value[k] == BlockCode(m.blocks, c, order, m.blocks[k]))
  {
    hide Certified, Known, LowerBlocks, BlockCode, SupportedOps;
    assert m.blocks[0..] == m.blocks;
    NothingKnown(m.blocks, c);
    BlocksExact(m.blocks, c, map[], order, 0);
    var r := LowerBlocks(m.blocks, map[], order, m.blocks);
    if r.Some? {
      forall k | 0 <= k < |m.blocks| ensures r.value[k] == BlockCode(m.blocks, c, order, m.blocks[k]) {
        assert r.value[k - 0] == r.value[k];
      }
    }
  }

  lemma EntryIndex(m: Module, c: Cert)
    requires Certified(m.blocks, c) && m.entry == 0
    ensures 0 < |m.blocks| && Index(m.blocks, m.entry) == Some(0)
  {
    IndexPositional(m.blocks, 0, 0);
  }

  lemma WithPrologue(f: Function, m: Module, c: Cert, order: seq<ValueId>)
    requires AllTerminated(m) && |f| == |m.blocks| && 0 < |f|
    requires forall k :: 0 <= k < |m.blocks| ==> f[k] == BlockCode(m.blocks, c, order, m.blocks[k])
    ensures IsCodeOf(f[0 := f[0].(instrs := Prologue(Slots(m.blocks)) + f[0].instrs)], m, c, order)
  {
    hide BlockCode, Prologue, Slots;
  }

  /** Lowering a certified module that returns scalar i64 fails only on operations it does not support. */
  lemma LowerExact(m: Module, c: Cert, cleanup: CleanupOrder)
    requires Certified(m.blocks, c) && AllTerminated(m) && m.entry == 0 && WellFormedModule(m) && ReturnsI64(m)
    ensures Lower(m, cleanup).Some? <==> SupportedModule(m)
    ensures Lower(m, cleanup).Some? ==> IsCodeOf(Lower(m, cleanup).value, m, c, cleanup(SlotSet(Slots(m.blocks))))
  {
    hide WellFormedModule, ReturnsI64, SupportedModule, LowerBlocks, IsCodeOf, Index, Slots, SlotSet, Prologue,
      Certified;
    var order := cleanup(SlotSet(Slots(m.blocks)));
    PassExact(m, c, order);
    EntryIndex(m, c);
    var r := LowerBlocks(m.blocks, map[], order, m.blocks);
    if r.Some? {
      WithPrologue(r.value, m, c, order);
    }
  }

  /** Every allocation in the code of a block is a declaration of that block, and asks for exactly its tensor's size, at
      the alignment of the runtime. */
  lemma {:induction false} OpsAllocate(blocks: seq<BasicBlock>, c: Cert, ops: seq<Operation>, ins: Instr)
    requires SupportedOps(ops) && ins in OpsCode(blocks, c, ops) && ins.CallAlloc?
    ensures exists i :: 0 <= i < |ops| && Allocates(ins, ops[i])
    decreases |ops|
  {
    if ins in OpCode(blocks, c, ops[0]) {
      assert Allocates(ins, ops[0]);
    } else {
      assert SupportedOps(ops[1..]);
      OpsAllocate(blocks, c, ops[1..], ins);
      var i :| 0 <= i < |ops[1..]| && Allocates(ins, ops[1..][i]);
      assert Allocates(ins, ops[i + 1]);
    }
  }

  ghost predicate Allocates(ins: Instr, op: Operation) {
    && ins.CallAlloc? && op.TensorDeclOp? && ins.reg == op.result && ins.alignment == 64
    && Size(op.ty).Some? && ins.size == Size(op.ty).value
  }

  lemma {:induction false} OpsAllocated(blocks: seq<BasicBlock>, c: Cert, ops: seq<Operation>, i: nat)
    requires SupportedOps(ops) && i < |ops| && ops[i].TensorDeclOp?
    ensures exists ins :: ins in OpsCode(blocks, c, ops) && Allocates(ins, ops[i])
    decreases |ops|
  {
    if i == 0 {
      var ins := OpCode(blocks, c, ops[0])[0];
      assert ins in OpsCode(blocks, c, ops) && Allocates(ins, ops[0]);
    } else {
      assert SupportedOps(ops[1..]);
      OpsAllocated(blocks, c, ops[1..], i - 1);
      var ins :| ins in OpsCode(blocks, c, ops[1..]) && Allocates(ins, ops[1..][i - 1]);
      assert ins in OpsCode(blocks, c, ops);
    }
  }

  lemma {:induction false} PrologueAllocatesNothing(slots: seq<ValueId>, ins: Instr)
    requires ins in Prologue(slots)
    ensures !ins.CallAlloc?
    decreases |slots|
  {
    if ins !in [Alloca(slots[0]), StoreNull(slots[0])] {
      PrologueAllocatesNothing(slots[1..], ins);
    }
  }

  lemma {:induction false} FreesAllocateNothing(order: seq<ValueId>, ins: Instr)
    requires ins in Frees(order)
    ensures !ins.CallAlloc?
    decreases |order|
  {
    if ins != CallFree(order[0]) {
      FreesAllocateNothing(order[1..], ins);
    }
  }

  /** The allocations of `code` are the declarations of `ops`. */
  ghost predicate OnlyDeclared(code: seq<Instr>, ops: seq<Operation>) {
    forall ins :: ins in code && ins.CallAlloc? ==> exists i :: 0 <= i < |ops| && Allocates(ins, ops[i])
  }

  ghost predicate AllDeclared(code: seq<Instr>, ops: seq<Operation>) {
    forall i :: 0 <= i < |ops| && ops[i].TensorDeclOp? ==> exists ins :: ins in code && Allocates(ins, ops[i])
  }

  lemma CodeAllocates(blocks: seq<BasicBlock>, c: Cert, ops: seq<Operation>)
    requires SupportedOps(ops)
    ensures OnlyDeclared(OpsCode(blocks, c, ops), ops) && AllDeclared(OpsCode(blocks, c, ops), ops)
  {
    hide Allocates, SupportedOps, OpsCode;
    forall ins | ins in OpsCode(blocks, c, ops) && ins.CallAlloc?
      ensures exists i :: 0 <= i < |ops| && Allocates(ins, ops[i])
    {
      OpsAllocate(blocks, c, ops, ins);
    }
    forall i | 0 <= i < |ops| && ops[i].TensorDeclOp?
      ensures exists ins :: ins in OpsCode(blocks, c, ops) && Allocates(ins, ops[i])
    {
      OpsAllocated(blocks, c, ops, i);
    }
  }

  /** Code that allocates nothing, before and after, changes nothing. */
  lemma AroundAllocates(first: seq<Instr>, code: seq<Instr>, last: seq<Instr>, ops: seq<Operation>)
    requires OnlyDeclared(code, ops) && AllDeclared(code, ops)
    requires forall ins :: ins in first || ins in last ==> !ins.CallAlloc?
    ensures OnlyDeclared(first + (code + last), ops) && AllDeclared(first + (code + last), ops)
  {
    hide Allocates;
    forall i | 0 <= i < |ops| && ops[i].TensorDeclOp?
      ensures exists ins :: ins in first + (code + last) && Allocates(ins, ops[i])
    {
      var ins :| ins in code && Allocates(ins, ops[i]);
      assert ins in first + (code + last);
    }
  }

  lemma BlockAllocates(f: Function, m: Module, c: Cert, order: seq<ValueId>, b: nat)
    requires AllTerminated(m) && IsCodeOf(f, m, c, order) && SupportedModule(m) && b < |m.blocks|
    ensures b < |f|
    ensures OnlyDeclared(f[b].instrs, m.blocks[b].operations) && AllDeclared(f[b].instrs, m.blocks[b].operations)
  {
    hide Prologue, OpsCode, Frees, Slots, OnlyDeclared, AllDeclared, SupportedOps;
    var ops := m.blocks[b].operations;
    var first := if b == 0 then Prologue(Slots(m.blocks)) else [];
    var last := LastCode(order, m.blocks[b].terminator.value);
    forall ins | ins in first || ins in last ensures !ins.CallAlloc? {
      if ins in first {
        PrologueAllocatesNothing(Slots(m.blocks), ins);
      } else {
        FreesAllocateNothing(order, ins);
      }
    }
    CodeAllocates(m.blocks, c, ops);
    AroundAllocates(first, OpsCode(m.blocks, c, ops), last, ops);
    assert f[b].instrs == first + (OpsCode(m.blocks, c, ops) + last);
  }

  /** The allocations in a lowered function are exactly its module's declarations, block by block, each with the size of
      its tensor. */
  lemma AllocationsExact(m: Module, c: Cert, cleanup: CleanupOrder, b: nat)
    requires Certified(m.blocks, c) && AllTerminated(m) && m.entry == 0 && WellFormedModule(m) && ReturnsI64(m)
    requires Lower(m, cleanup).Some? && b < |m.blocks|
    ensures b < |Lower(m, cleanup).value|
    ensures OnlyDeclared(Lower(m, cleanup).value[b].instrs, m.blocks[b].operations)
    ensures AllDeclared(Lower(m, cleanup).value[b].instrs, m.blocks[b].operations)
  {
    hide Lower, IsCodeOf, OnlyDeclared, AllDeclared, Certified, WellFormedModule, ReturnsI64, SupportedModule;
    LowerExact(m, c, cleanup);
    BlockAllocates(Lower(m, cleanup).value, m, c, cleanup(SlotSet(Slots(m.blocks))), b);
  }

  /** Which certified modules are lowered, whoever made them: those that verify, return scalar 64-bit integers
      everywhere, and have only supported operations. */
  lemma LowerDecides(m: Module, c: Cert, cleanup: CleanupOrder)
    requires Certified(m.blocks, c) && m.entry == 0
    ensures Lower(m, cleanup).Some? <==>
      WellFormedModule(m) && ReturnsAs(m, TensorType("i64", [])) && SupportedModule(m)
  {
    hide Certified, SupportedModule;
    if WellFormedModule(m) {
      ReturnsEverywhere(m);
      if ReturnsI64(m) {
        LowerExact(m, c, cleanup);
      }
    }
  }

  /** As all returns have one type, the first decides. */
  lemma ReturnsEverywhere(m: Module)
    requires WellFormedModule(m)
    ensures ReturnsI64(m) <==> ReturnsAs(m, I64)
  {
    var ty :| ReturnsAs(m, ty);
    if ReturnsI64(m) {
      var b := FirstReturning(m, 0);
      var v := m.blocks[b].terminator.value.value;
      var p :| DefinesTyped(m, p, v, I64);
      var q :| DefinesTyped(m, q, v, ty);
      assert p == q;
    }
  }

  lemma {:induction false} FirstReturning(m: Module, from: nat) returns (b: nat)
    requires exists a :: from <= a < |m.blocks| && Returns(m.blocks[a])
    ensures from <= b < |m.blocks| && Returns(m.blocks[b]) && forall a :: from <= a < b ==> !Returns(m.blocks[a])
    decreases |m.blocks| - from
  {
    if Returns(m.blocks[from]) {
      b := from;
    } else {
      b := FirstReturning(m, from + 1);
    }
  }
}
