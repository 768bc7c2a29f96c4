/** What running an IR module means: blocks are executed in control-flow order, operation by operation. */
module IRSemantics {
  import opened Prelude
  import opened Values
  import opened IR

  type Regs = map<ValueId, Val>

  datatype Final = Returned(value: Val) | Trapped | Wrong

  function Read(regs: Regs, v: ValueId): Outcome<Val> {
    if v in regs then Ok(regs[v]) else Stuck
  }

  /** The value a phi takes when control arrives from block `prev`. */
  function PhiValue(incoming: seq<PhiIncoming>, prev: Option<BlockId>, regs: Regs): Outcome<Val> {
    if incoming == [] || prev.None? then Stuck
    else if incoming[0].predecessor == prev.value then Read(regs, incoming[0].value)
    else PhiValue(incoming[1..], prev, regs)
  }

  function EvalOp(interp: Interp, op: Operation, prev: Option<BlockId>, regs: Regs): Outcome<Val> {
    match op
    case TensorDeclOp(_, name, ty) => Ok(TensorV(ty, interp.storage(name, ty)))
    case ConstantIntOp(_, n, _) => Ok(IntV(n))
    case ConstantFloatOp(_, code, _) => Ok(FloatV(code))
    case BinaryOp(_, kind, lhs, rhs, _) =>
      if lhs in regs && rhs in regs then ApplyBinary(interp, kind, regs[lhs], regs[rhs]) else Stuck
    case CompareOp(_, kind, lhs, rhs, _) =>
      if lhs in regs && rhs in regs then ApplyBinary(interp, kind, regs[lhs], regs[rhs]) else Stuck
    case PhiOp(_, _, incoming) => PhiValue(incoming, prev, regs)
    case MatMulOp(_, lhs, rhs, _) =>
      if lhs in regs && rhs in regs then ApplyMatMul(interp, regs[lhs], regs[rhs]) else Stuck
    case ReluOp(_, input, _) => if input in regs then Ok(ApplyRelu(interp, regs[input])) else Stuck
  }

  /** Execution from operation `pc` of block `b` to the end of the program. It terminates because
      control only moves forward: at most one visit to each block. */
  function Exec(interp: Interp, blocks: seq<BasicBlock>, b: nat, pc: nat, prev: Option<BlockId>, regs: Regs): Final
    requires Forward(blocks) && b < |blocks| && pc <= |blocks[b].operations|
    decreases |blocks| - b, |blocks[b].operations| - pc
  {
    if pc < |blocks[b].operations| then
      match EvalOp(interp, blocks[b].operations[pc], prev, regs)
      case Ok(v) => Exec(interp, blocks, b, pc + 1, prev, regs[blocks[b].operations[pc].result := v])
      case Trap => Trapped
      case Stuck => Wrong
    else
      match blocks[b].terminator.value
      case BranchOp(t) =>
        assert t in Targets(blocks[b].terminator.value);
        Exec(interp, blocks, t, 0, Some(b), regs)
      case CondBranchOp(c, t, e) =>
        assert t in Targets(blocks[b].terminator.value) && e in Targets(blocks[b].terminator.value);
        if c in regs && regs[c].BoolV? then
          Exec(interp, blocks, if regs[c].b then t else e, 0, Some(b), regs)
        else Wrong
      case ReturnOp(v) => if v in regs then Returned(regs[v]) else Wrong
  }

  function RunModule(interp: Interp, m: Module): Final
    requires Forward(m.blocks) && m.entry < |m.blocks|
  {
    Exec(interp, m.blocks, m.entry, 0, None, map[])
  }
}
