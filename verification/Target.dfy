/** The target of lowering: the part of LLVM the code generator uses, with its meaning. */
module Target {
  import opened Prelude
  import opened Ast
  import opened Values
  import opened IR

  /** A slot holds garbage until it is first stored to. */
  datatype Pointer = Garbage | Null | Ptr(call: nat)

  datatype TVal = TInt(n: Int64) | TFloat(code: int) | TBool(b: bool) | TPointer(p: Pointer)

  /** Constants need no instruction; every other value is the result of the instruction named by its IR value. */
  datatype Operand = ConstInt(n: Int64) | ConstFloat(code: int) | Reg(v: ValueId)

  /** LLVM's comparison predicates that the code generator uses, with LLVM's names: ordered and unordered ones for
      floats, and signed ones for integers. */
  datatype Predicate =
    | FCMP_OEQ | FCMP_UNE | FCMP_OLT | FCMP_OLE | FCMP_OGT | FCMP_OGE
    | ICMP_EQ | ICMP_NE | ICMP_SLT | ICMP_SLE | ICMP_SGT | ICMP_SGE
  {
    predicate OnFloats() {
      FCMP_OEQ? || FCMP_UNE? || FCMP_OLT? || FCMP_OLE? || FCMP_OGT? || FCMP_OGE?
    }
  }

  /** The relations for which a predicate holds. */
  function Relations(p: Predicate): set<Relation> {
    match p
    case FCMP_OEQ => {Same}
    case FCMP_UNE => {Below, Above, Unordered}
    case FCMP_OLT => {Below}
    case FCMP_OLE => {Below, Same}
    case FCMP_OGT => {Above}
    case FCMP_OGE => {Above, Same}
    case ICMP_EQ => {Same}
    case ICMP_NE => {Below, Above}
    case ICMP_SLT => {Below}
    case ICMP_SLE => {Below, Same}
    case ICMP_SGT => {Above}
    case ICMP_SGE => {Above, Same}
  }

  datatype PhiInput = PhiInput(operand: Operand, block: nat)

  datatype Instr =
    | Alloca(slot: ValueId)
    | StoreNull(slot: ValueId)
    | CallAlloc(reg: ValueId, size: nat, alignment: nat)
    | Store(reg: ValueId, slot: ValueId)
    | Arith(reg: ValueId, floating: bool, kind: BinaryKind, lhs: Operand, rhs: Operand)
    | Cmp(reg: ValueId, pred: Predicate, lhs: Operand, rhs: Operand)
    | Phi(reg: ValueId, inputs: seq<PhiInput>)
    | CallFree(slot: ValueId)

  datatype Exit =
    | Br(target: nat)
    | CondBr(condition: Operand, trueTarget: nat, falseTarget: nat)
    | RetTrunc(value: Operand)

  datatype Block = Block(instrs: seq<Instr>, exit: Exit)

  type Function = seq<Block>

  /** What a run does to the runtime: allocations with their results, stores to slots, and frees. */
  datatype Event = Allocated(p: Pointer) | Stored(slot: ValueId, before: Pointer, after: Pointer) | Freed(p: Pointer)

  datatype Machine = Machine(regs: map<ValueId, TVal>, slots: map<ValueId, Pointer>, calls: nat, trace: seq<Event>)

  /** `Undefined` is LLVM's undefined behaviour for signed division; `Invalid` code has no meaning. */
  datatype Finish = Finish(status: int, trace: seq<Event>) | Undefined | Invalid

  /** The low 32 bits, as the signed exit status. */
  function Truncate(n: int): (r: int)
    ensures -0x8000_0000 <= r < 0x8000_0000 && (r - n) % 0x1_0000_0000 == 0
  {
    (n + 0x8000_0000) % 0x1_0000_0000 - 0x8000_0000
  }

  function Eval(o: Operand, regs: map<ValueId, TVal>): Option<TVal> {
    match o
    case ConstInt(n) => Some(TInt(n))
    case ConstFloat(code) => Some(TFloat(code))
    case Reg(v) => if v in regs then Some(regs[v]) else None
  }

  /** How two integers stand to each other as signed numbers. */
  function IntRelation(x: Int64, y: Int64): Relation {
    if x < y then Below else if x == y then Same else Above
  }

  /** Integer or floating-point comparison, as the predicate says. */
  function Compare(interp: Interp, p: Predicate, lhs: Option<TVal>, rhs: Option<TVal>): Outcome<TVal> {
    match (lhs, rhs)
    case (Some(TInt(x)), Some(TInt(y))) => if p.OnFloats() then Stuck else Ok(TBool(IntRelation(x, y) in Relations(p)))
    case (Some(TFloat(x)), Some(TFloat(y))) =>
      if p.OnFloats() then Ok(TBool(interp.floatRelation(x, y) in Relations(p))) else Stuck
    case _ => Stuck
  }

  /** Integer or floating-point arithmetic, as the instruction says. */
  function Compute(interp: Interp, floating: bool, op: BinaryKind, lhs: Option<TVal>,
                   rhs: Option<TVal>): Outcome<TVal> {
    match (lhs, rhs)
    case (Some(TInt(x)), Some(TInt(y))) =>
      if floating then Stuck
      else
        (match IntArithmetic(op, x, y)
         case Ok(v) => if v.IntV? then Ok(TInt(v.n)) else Stuck
         case Trap => Trap
         case Stuck => Stuck)
    case (Some(TFloat(x)), Some(TFloat(y))) =>
      if floating then Ok(TFloat(interp.floatArith(op, x, y))) else Stuck
    case _ => Stuck
  }

  /** `available(call, size, alignment)` says whether that call of the runtime's allocator succeeds. */
  type Allocator = (nat, nat, nat) -> bool

  function StoreTo(m: Machine, slot: ValueId, p: Pointer): Machine
    requires slot in m.slots
  {
    m.(slots := m.slots[slot := p], trace := m.trace + [Stored(slot, m.slots[slot], p)])
  }

  function Step(interp: Interp, available: Allocator, i: Instr, m: Machine): Outcome<Machine> {
    match i
    case Alloca(slot) => Ok(m.(slots := m.slots[slot := Garbage]))
    case StoreNull(slot) => if slot in m.slots then Ok(StoreTo(m, slot, Null)) else Stuck
    case CallAlloc(reg, size, alignment) =>
      var p := if available(m.calls, size, alignment) then Ptr(m.calls) else Null;
      Ok(m.(regs := m.regs[reg := TPointer(p)], calls := m.calls + 1, trace := m.trace + [Allocated(p)]))
    case Store(reg, slot) =>
      if slot in m.slots && reg in m.regs && m.regs[reg].TPointer? then Ok(StoreTo(m, slot, m.regs[reg].p)) else Stuck
    case Arith(reg, floating, kind, lhs, rhs) =>
      (match Compute(interp, floating, kind, Eval(lhs, m.regs), Eval(rhs, m.regs))
       case Ok(v) => Ok(m.(regs := m.regs[reg := v]))
       case Trap => Trap
       case Stuck => Stuck)
    case Cmp(reg, p, lhs, rhs) =>
      (match Compare(interp, p, Eval(lhs, m.regs), Eval(rhs, m.regs))
       case Ok(v) => Ok(m.(regs := m.regs[reg := v]))
       case Trap => Trap
       case Stuck => Stuck)
    case Phi(_, _) => Stuck
    case CallFree(slot) =>
      if slot in m.slots && m.slots[slot] != Garbage then Ok(m.(trace := m.trace + [Freed(m.slots[slot])])) else Stuck
  }

  function Incoming(inputs: seq<PhiInput>, prev: nat, regs: map<ValueId, TVal>): Option<TVal> {
    if inputs == [] then None
    else if inputs[0].block == prev then Eval(inputs[0].operand, regs)
    else Incoming(inputs[1..], prev, regs)
  }

  function ExitTargets(e: Exit): set<nat> {
    match e
    case Br(t) => {t}
    case CondBr(_, t, f) => {t, f}
    case RetTrunc(_) => {}
  }

  ghost predicate Onward(f: Function) {
    forall b, t :: 0 <= b < |f| && t in ExitTargets(f[b].exit) ==> b < t < |f|
  }

  /** Execution of the instructions `rest` of block `b`, then of its exit, to the end of the program. */
  function Run(interp: Interp, available: Allocator, f: Function, b: nat, rest: seq<Instr>, m: Machine): Finish
    requires Onward(f) && b < |f|
    decreases |f| - b, |rest|, 0
  {
    if rest != [] then
      match Step(interp, available, rest[0], m)
      case Ok(m') => Run(interp, available, f, b, rest[1..], m')
      case Trap => Undefined
      case Stuck => Invalid
    else
      match f[b].exit
      case Br(t) =>
        assert t in ExitTargets(f[b].exit);
        Enter(interp, available, f, t, f[t].instrs, b, m.regs, m)
      case CondBr(c, t, e) =>
        assert t in ExitTargets(f[b].exit) && e in ExitTargets(f[b].exit);
        (match Eval(c, m.regs)
         case Some(TBool(v)) =>
           var next := if v then t else e;
           Enter(interp, available, f, next, f[next].instrs, b, m.regs, m)
         case _ => Invalid)
      case RetTrunc(o) =>
        match Eval(o, m.regs)
        case Some(TInt(n)) => Finish(Truncate(n), m.trace)
        case _ => Invalid
  }

  /** Control arriving in block `b` from block `prev`: all leading phis take their values from the
      registers `before`, as they were on the edge; then the other instructions run. */
  function Enter(interp: Interp, available: Allocator, f: Function, b: nat, rest: seq<Instr>, prev: nat,
                 before: map<ValueId, TVal>, m: Machine): Finish
    requires Onward(f) && b < |f|
    decreases |f| - b, |rest|, 1
  {
    if rest != [] && rest[0].Phi? then
      match Incoming(rest[0].inputs, prev, before)
      case None => Invalid
      case Some(v) => Enter(interp, available, f, b, rest[1..], prev, before, m.(regs := m.regs[rest[0].reg := v]))
    else
      Run(interp, available, f, b, rest, m)
  }

  const START := Machine(map[], map[], 0, [])

  function RunFunction(interp: Interp, available: Allocator, f: Function): Finish
    requires Onward(f) && 0 < |f|
  {
    Run(interp, available, f, 0, f[0].instrs, START)
  }
}
