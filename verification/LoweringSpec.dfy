/** Lowering to the target as a function of the module. The class in CodeGenerator.dfy is proved to
    compute exactly this. */
module LoweringSpec {
  import opened Prelude
  import opened Ast
  import opened IR
  import opened WellFormed
  import opened StorageSize
  import opened Target

  type Operands = map<ValueId, Operand>

  /** `cleanup(slots)` is the order in which the hash map of cleanup slots is iterated. */
  type CleanupOrder = set<ValueId> -> seq<ValueId>

  const PHI_LIMIT: nat := 0xFFFF_FFFF

  /** The position of the block with a given id, as looked up in the map of target blocks. */
  function Index(blocks: seq<BasicBlock>, id: BlockId): Option<nat> {
    if blocks == [] then None
    else if blocks[0].id == id then Some(0)
    else
      match Index(blocks[1..], id)
      case None => None
      case Some(i) => Some(i + 1)
  }

  /** Scalars that have a target type. */
  predicate HasTargetType(ty: TensorType) {
    ty.shape == [] && ty.elementType in ["i1", "i64", "f64"]
  }

  /** Insertion that keeps an existing entry. */
  function Emplace(values: Operands, v: ValueId, o: Operand): Operands {
    if v in values then values else values[v := o]
  }

  function LowerIncoming(blocks: seq<BasicBlock>, values: Operands, incoming: seq<PhiIncoming>): Option<seq<PhiInput>> {
    if incoming == [] then Some([])
    else if incoming[0].value !in values then None
    else
      match (Index(blocks, incoming[0].predecessor), LowerIncoming(blocks, values, incoming[1..]))
      case (Some(b), Some(rest)) => Some([PhiInput(values[incoming[0].value], b)] + rest)
      case _ => None
  }

  /** The predicate that a comparison becomes. */
  function PredicateOf(floating: bool, cmp: CompareKind): Predicate {
    match cmp
    case Equal => if floating then FCMP_OEQ else ICMP_EQ
    case NotEqual => if floating then FCMP_UNE else ICMP_NE
    case Less => if floating then FCMP_OLT else ICMP_SLT
    case LessEqual => if floating then FCMP_OLE else ICMP_SLE
    case Greater => if floating then FCMP_OGT else ICMP_SGT
    case GreaterEqual => if floating then FCMP_OGE else ICMP_SGE
  }

  /** The instructions of one operation and the operand its result is known by. */
  ghost function LowerOp(blocks: seq<BasicBlock>, values: Operands, op: Operation): Option<(seq<Instr>, Operand)> {
    match op
    case TensorDeclOp(r, _, ty) =>
      (match Size(ty)
       case None => None
       case Some(size) => Some(([CallAlloc(r, size, 64), Store(r, r)], Reg(r))))
    case ConstantIntOp(_, n, _) => Some(([], ConstInt(n)))
    case ConstantFloatOp(_, code, _) => Some(([], ConstFloat(code)))
    case BinaryOp(r, kind, lhs, rhs, ty) =>
      if lhs !in values || rhs !in values then None
      else Some(([Arith(r, ty.elementType == "f64", kind, values[lhs], values[rhs])], Reg(r)))
    case CompareOp(r, kind, lhs, rhs, ty) =>
      if lhs !in values || rhs !in values then None
      else Some(([Cmp(r, PredicateOf(ty.elementType == "f64", kind), values[lhs], values[rhs])], Reg(r)))
    case PhiOp(r, ty, incoming) =>
      if !HasTargetType(ty) || |incoming| > PHI_LIMIT then None
      else
        (match LowerIncoming(blocks, Emplace(values, r, Reg(r)), incoming)
         case None => None
         case Some(inputs) => Some(([Phi(r, inputs)], Reg(r))))
    case _ => None
  }

  ghost function LowerOps(blocks: seq<BasicBlock>, values: Operands, ops: seq<Operation>)
    : Option<(seq<Instr>, Operands)>
    decreases |ops|
  {
    if ops == [] then Some(([], values))
    else
      match LowerOp(blocks, values, ops[0])
      case None => None
      case Some((instrs, o)) =>
        match LowerOps(blocks, Emplace(values, ops[0].result, o), ops[1..])
        case None => None
        case Some((rest, values')) => Some((instrs + rest, values'))
  }

  function Frees(order: seq<ValueId>): seq<Instr> {
    if order == [] then [] else [CallFree(order[0])] + Frees(order[1..])
  }

  function LowerTerminator(blocks: seq<BasicBlock>, values: Operands, order: seq<ValueId>,
                           t: Terminator): Option<(seq<Instr>, Exit)> {
    match t
    case BranchOp(b) =>
      (match Index(blocks, b)
       case None => None
       case Some(i) => Some(([], Br(i))))
    case CondBranchOp(c, b, e) =>
      if c !in values then None
      else
        (match (Index(blocks, b), Index(blocks, e))
         case (Some(i), Some(j)) => Some(([], CondBr(values[c], i, j)))
         case _ => None)
    case ReturnOp(v) => if v !in values then None else Some((Frees(order), RetTrunc(values[v])))
  }

  /** One forward pass over the remaining blocks. */
  ghost function LowerBlocks(blocks: seq<BasicBlock>, values: Operands, order: seq<ValueId>,
                             rest: seq<BasicBlock>): Option<Function>
    requires forall b :: 0 <= b < |rest| ==> rest[b].terminator.Some?
    decreases |rest|
  {
    if rest == [] then Some([])
    else
      match LowerOps(blocks, values, rest[0].operations)
      case None => None
      case Some((instrs, values')) =>
        match LowerTerminator(blocks, values', order, rest[0].terminator.value)
        case None => None
        case Some((last, exit)) =>
          match LowerBlocks(blocks, values', order, rest[1..])
          case None => None
          case Some(f) => Some([Block(instrs + last, exit)] + f)
  }

  /** The tensor declarations of the module, in order. */
  function OpSlots(ops: seq<Operation>): seq<ValueId> {
    if ops == [] then []
    else (if ops[0].TensorDeclOp? then [ops[0].result] else []) + OpSlots(ops[1..])
  }

  function Slots(blocks: seq<BasicBlock>): seq<ValueId> {
    if blocks == [] then [] else OpSlots(blocks[0].operations) + Slots(blocks[1..])
  }

  function SlotSet(slots: seq<ValueId>): set<ValueId> {
    set v | v in slots
  }

  /** Cleanup slots live in the entry block and start out null. */
  function Prologue(slots: seq<ValueId>): seq<Instr> {
    if slots == [] then [] else [Alloca(slots[0]), StoreNull(slots[0])] + Prologue(slots[1..])
  }

  /** The first return decides the function's type. */
  ghost predicate ReturnsI64(m: Module) {
    forall b :: 0 <= b < |m.blocks| && Returns(m.blocks[b]) && (forall a :: 0 <= a < b ==> !Returns(m.blocks[a])) ==>
      DefinedAs(m, m.blocks[b].terminator.value.value, I64)
  }

  ghost function Lower(m: Module, cleanup: CleanupOrder): Option<Function> {
    if !WellFormedModule(m) || !ReturnsI64(m) then None
    else
      var slots := Slots(m.blocks);
      match (Index(m.blocks, m.entry), LowerBlocks(m.blocks, map[], cleanup(SlotSet(slots)), m.blocks))
      case (Some(e), Some(f)) =>
        if e < |f| then Some(f[e := f[e].(instrs := Prologue(slots) + f[e].instrs)]) else None
      case _ => None
  }
}
