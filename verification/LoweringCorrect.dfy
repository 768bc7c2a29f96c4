/** Lowered code does what the IR module does, and its runs are storage balanced. */
module LoweringCorrect {
  import opened Prelude
  import opened Ast
  import opened Values
  import opened IR
  import Sem = IRSemantics
  import opened WellFormed
  import opened Certificate
  import opened GeneratedModule
  import opened GeneratorVerifies
  import opened StorageSize
  import opened Target
  import opened LoweringSpec
  import opened LoweringExact
  import opened StorageBalance

  /** An IR value and the target value that represents it. Tensors are represented by their storage. */
  ghost predicate Represents(t: Option<TVal>, v: Val) {
    match v
    case IntV(n) => t == Some(TInt(n))
    case FloatV(code) => t == Some(TFloat(code))
    case BoolV(b) => t == Some(TBool(b))
    case TensorV(_, _) => t.Some? && t.value.TPointer?
  }

  ghost predicate ValueAgrees(blocks: seq<BasicBlock>, c: Cert, v: ValueId, val: Val, tregs: map<ValueId, TVal>) {
    && v < |c.at| && InRange(blocks, c.at[v])
    && HasType(val, TypeOf(OpAt(blocks, c.at[v])))
    && Represents(Eval(Canon(blocks, c, v), tregs), val)
  }

  /** Every IR register has the static type of its definition and is represented in the target. */
  ghost predicate RegsAgree(blocks: seq<BasicBlock>, c: Cert, regs: Sem.Regs, tregs: map<ValueId, TVal>) {
    forall v :: v in regs ==> ValueAgrees(blocks, c, v, regs[v], tregs)
  }

  lemma RegsAgreeNext(blocks: seq<BasicBlock>, c: Cert, regs: Sem.Regs, tregs: map<ValueId, TVal>, v: ValueId,
                      val: Val, tregs': map<ValueId, TVal>)
    requires RegsAgree(blocks, c, regs, tregs) && ValueAgrees(blocks, c, v, val, tregs') && Certified(blocks, c)
    requires forall u :: u != v && u in tregs ==> u in tregs' && tregs'[u] == tregs[u]
    ensures RegsAgree(blocks, c, regs[v := val], tregs')
  {
    forall u | u in regs && u != v ensures ValueAgrees(blocks, c, u, regs[u], tregs') {
      assert ValueAgrees(blocks, c, u, regs[u], tregs);
      assert OpAt(blocks, c.at[u]).result == u;
    }
  }

  /** Every value that is computed before operation `i` of block `b` is in a register. */
  ghost predicate Full(c: Cert, b: nat, i: nat, regs: Sem.Regs) {
    forall v: ValueId :: Before(c, b, i, v) ==> v in regs
  }

  ghost predicate FullAtEnd(c: Cert, b: nat, regs: Sem.Regs) {
    forall v: ValueId :: AtEnd(c, b, v) ==> v in regs
  }

  lemma FullNext(blocks: seq<BasicBlock>, c: Cert, b: nat, i: nat, regs: Sem.Regs, val: Val)
    requires Certified(blocks, c) && b < |blocks| && i < |blocks[b].operations| && Full(c, b, i, regs)
    ensures Full(c, b, i + 1, regs[blocks[b].operations[i].result := val])
  {
    var regs' := regs[blocks[b].operations[i].result := val];
    forall v: ValueId | Before(c, b, i + 1, v) ensures v in regs' {
      if !Before(c, b, i, v) {
        assert c.at[v] == Position(b, i) && OpAt(blocks, c.at[v]).result == v;
      }
    }
  }

  lemma FullEnds(blocks: seq<BasicBlock>, c: Cert, b: nat, regs: Sem.Regs)
    requires Certified(blocks, c) && b < |blocks| && Full(c, b, |blocks[b].operations|, regs)
    ensures FullAtEnd(c, b, regs)
  {
    forall v: ValueId | AtEnd(c, b, v) ensures v in regs {
      assert InRange(blocks, c.at[v]);
      assert Before(c, b, |blocks[b].operations|, v);
    }
  }

  lemma FullEnters(blocks: seq<BasicBlock>, c: Cert, b: nat, t: nat, regs: Sem.Regs)
    requires Certified(blocks, c) && b < |blocks| && HasEdge(blocks[b], t) && FullAtEnd(c, b, regs)
    ensures Full(c, t, 0, regs)
  {
    assert EdgeOk(blocks, c, b, t);
    forall v: ValueId | Before(c, t, 0, v) ensures v in regs {
      assert AtEnd(c, b, v);
    }
  }

  /** The code generated for a certified module that the pass supports. */
  ghost predicate Compiled(m: Module, c: Cert, order: seq<ValueId>, f: Function) {
    && Certified(m.blocks, c) && AllTerminated(m) && m.entry == 0 && SupportedModule(m) && ReturnsTyped(m.blocks)
    && IsCodeOf(f, m, c, order) && IsEnumeration(order, SlotSet(Slots(m.blocks)))
  }

  lemma CompiledOnward(m: Module, c: Cert, order: seq<ValueId>, f: Function)
    requires Compiled(m, c, order, f)
    ensures Onward(f) && Forward(m.blocks)
  {
    hide OpsCode, OpsOk, Located, SupportedModule;
    CertifiedForward(m.blocks, c);
    forall b, t | 0 <= b < |f| && t in ExitTargets(f[b].exit) ensures b < t < |f| {
      assert f[b].exit == ExitOf(m.blocks, c, m.blocks[b].terminator.value);
      assert t in Targets(m.blocks[b].terminator.value);
    }
  }

  /** The rest of block `b`'s code from operation `i` on. */
  function RestCode(m: Module, c: Cert, order: seq<ValueId>, b: nat, i: nat): seq<Instr>
    requires b < |m.blocks| && i <= |m.blocks[b].operations| && m.blocks[b].terminator.Some?
  {
    OpsCode(m.blocks, c, m.blocks[b].operations[i..]) + LastCode(order, m.blocks[b].terminator.value)
  }

  /** What is known of each block of the code. */
  lemma CompiledBlock(m: Module, c: Cert, order: seq<ValueId>, f: Function, b: nat)
    requires Compiled(m, c, order, f) && b < |m.blocks|
    ensures Certified(m.blocks, c) && ReturnsTyped(m.blocks) && |f| == |m.blocks| && m.blocks[b].terminator.Some?
    ensures f[b].exit == ExitOf(m.blocks, c, m.blocks[b].terminator.value)
    ensures f[b].instrs == (if b == 0 then Prologue(Slots(m.blocks)) else []) + RestCode(m, c, order, b, 0)
    ensures IsEnumeration(order, SlotSet(Slots(m.blocks))) && SupportedOps(m.blocks[b].operations)
  {
    hide Certified, ReturnsTyped, Slots, OpsCode, SupportedOps, LastCode, Prologue, ExitOf, IsEnumeration;
    assert m.blocks[b].operations[0..] == m.blocks[b].operations;
  }

  /** The end of an IR run and the end of the target run. */
  ghost predicate Agree(run: Sem.Final, end: Finish) {
    match run
    case Returned(v) => v.IntV? && end.Finish? && end.status == Truncate(v.n) && StorageBalanced(end.trace)
    case Trapped => end == Undefined
    case Wrong => end == Invalid
  }

  /** A tensor declaration's slot is among the cleanup slots. */
  lemma {:induction false} SlotListed(blocks: seq<BasicBlock>, b: nat, i: nat)
    requires b < |blocks| && i < |blocks[b].operations| && blocks[b].operations[i].TensorDeclOp?
    ensures blocks[b].operations[i].result in Slots(blocks)
    decreases |blocks|
  {
    if b == 0 {
      OpSlotListed(blocks[0].operations, i);
    } else {
      SlotListed(blocks[1..], b - 1, i);
    }
  }

  lemma {:induction false} OpSlotListed(ops: seq<Operation>, i: nat)
    requires i < |ops| && ops[i].TensorDeclOp?
    ensures ops[i].result in OpSlots(ops)
    decreases |ops|
  {
    if 0 < i {
      OpSlotListed(ops[1..], i - 1);
    }
  }

  /** One operation that is not a phi, in the IR and in the target. */
  ghost predicate StepAgrees(interp: Interp, available: Allocator, m: Module, c: Cert, f: Function, b: nat, i: nat,
                             result: Outcome<Val>, regs: Sem.Regs, mach: Machine, tail: seq<Instr>, mach': Machine)
    requires Onward(f) && b < |f| && b < |m.blocks| && i < |m.blocks[b].operations|
  {
    var op := m.blocks[b].operations[i];
    var code := OpCode(m.blocks, c, op) + tail;
    match result
    case Ok(v) =>
      && Run(interp, available, f, b, code, mach) == Run(interp, available, f, b, tail, mach')
      && RegsAgree(m.blocks, c, regs[op.result := v], mach'.regs)
      && HeapOk(Slots(m.blocks), c, mach', b, i + 1)
    case Trap => Run(interp, available, f, b, code, mach) == Undefined
    case Stuck => Run(interp, available, f, b, code, mach) == Invalid
  }

  lemma ConstantStep(interp: Interp, available: Allocator, m: Module, c: Cert, f: Function, b: nat, i: nat,
                     prev: Option<BlockId>, regs: Sem.Regs, mach: Machine, tail: seq<Instr>)
    requires Certified(m.blocks, c) && Onward(f) && b < |f| && b < |m.blocks| && i < |m.blocks[b].operations|
    requires m.blocks[b].operations[i].ConstantIntOp? || m.blocks[b].operations[i].ConstantFloatOp?
    requires RegsAgree(m.blocks, c, regs, mach.regs) && HeapOk(Slots(m.blocks), c, mach, b, i)
    ensures StepAgrees(interp, available, m, c, f, b, i, Sem.EvalOp(interp, m.blocks[b].operations[i], prev, regs),
                       regs, mach, tail, mach)
  {
    var op := m.blocks[b].operations[i];
    assert OpOk(m.blocks, c, b, i, op) && c.at[op.result] == Position(b, i);
    var v := Sem.EvalOp(interp, op, prev, regs).value;
    assert ValueAgrees(m.blocks, c, op.result, v, mach.regs);
    RegsAgreeNext(m.blocks, c, regs, mach.regs, op.result, v, mach.regs);
    HeapLater(Slots(m.blocks), c, mach, b, i, b, i + 1);
    assert OpCode(m.blocks, c, op) + tail == tail;
  }

  lemma TensorStep(interp: Interp, available: Allocator, m: Module, c: Cert, f: Function, b: nat, i: nat,
                   prev: Option<BlockId>, regs: Sem.Regs, mach: Machine, tail: seq<Instr>) returns (mach': Machine)
    requires Certified(m.blocks, c) && Onward(f) && b < |f| && b < |m.blocks| && i < |m.blocks[b].operations|
    requires m.blocks[b].operations[i].TensorDeclOp? && Storable(m.blocks[b].operations[i].ty)
    requires RegsAgree(m.blocks, c, regs, mach.regs) && HeapOk(Slots(m.blocks), c, mach, b, i)
    ensures StepAgrees(interp, available, m, c, f, b, i, Sem.EvalOp(interp, m.blocks[b].operations[i], prev, regs),
                       regs, mach, tail, mach')
  {
    hide Run, Onward, Unshared, TraceOk, RegsAgree;
    var op := m.blocks[b].operations[i];
    var r, v := op.result, Sem.EvalOp(interp, op, prev, regs).value;
    assert c.at[r] == Position(b, i);
    SlotListed(m.blocks, b, i);
    var p := if available(mach.calls, Bytes(op.ty), 64) then Ptr(mach.calls) else Null;
    mach' := AfterDeclaration(mach, r, p);
    DeclarationKeepsHeap(Slots(m.blocks), c, mach, b, i, r, p);
    assert ValueAgrees(m.blocks, c, r, v, mach'.regs);
    RegsAgreeNext(m.blocks, c, regs, mach.regs, r, v, mach'.regs);
    DeclarationRuns(interp, available, f, b, r, Bytes(op.ty), tail, mach);
  }

  lemma DeclarationRuns(interp: Interp, available: Allocator, f: Function, b: nat, r: ValueId, size: nat,
                        tail: seq<Instr>, mach: Machine)
    requires Onward(f) && b < |f| && r in mach.slots
    ensures var p := if available(mach.calls, size, 64) then Ptr(mach.calls) else Null;
      Run(interp, available, f, b, [CallAlloc(r, size, 64), Store(r, r)] + tail, mach) ==
      Run(interp, available, f, b, tail, AfterDeclaration(mach, r, p))
  {
    var code := [CallAlloc(r, size, 64), Store(r, r)] + tail;
    var p := if available(mach.calls, size, 64) then Ptr(mach.calls) else Null;
    var mach' := AfterDeclaration(mach, r, p);
    assert code[1..] == [Store(r, r)] + tail && code[1..][1..] == tail;
    var mach1 := Step(interp, available, code[0], mach).value;
    assert Run(interp, available, f, b, code, mach) == Run(interp, available, f, b, code[1..], mach1);
    assert Step(interp, available, code[1], mach1) == Ok(mach');
    assert Run(interp, available, f, b, code[1..], mach1) == Run(interp, available, f, b, tail, mach');
  }

  /** What the target computes for an operator on operands of type `ty`. */
  function TargetValue(interp: Interp, ty: TensorType, op: BinaryOperator, x: Option<TVal>,
                       y: Option<TVal>): Outcome<TVal> {
    var floating := ty.elementType == "f64";
    if op.IsArithmetic() then Compute(interp, floating, op, x, y) else Compare(interp, PredicateOf(floating, op), x, y)
  }

  /** The two operand kinds decide both the static type and the instruction, and each predicate holds for the relations
      for which its comparison does. */
  lemma ComputeAgrees(interp: Interp, ty: TensorType, op: BinaryOperator, a: Val, b: Val, x: Option<TVal>,
                      y: Option<TVal>)
    requires HasType(a, ty) && HasType(b, ty) && Represents(x, a) && Represents(y, b)
    ensures match ApplyBinary(interp, op, a, b)
      case Ok(v) =>
        var t := TargetValue(interp, ty, op, x, y);
        t.Ok? && Represents(Some(t.value), v) && HasType(v, if op.IsArithmetic() then ty else I1)
      case Trap => TargetValue(interp, ty, op, x, y) == Trap
      case Stuck => TargetValue(interp, ty, op, x, y) == Stuck
  {
  }

  lemma BinaryStep(interp: Interp, available: Allocator, m: Module, c: Cert, f: Function, b: nat, i: nat,
                   prev: Option<BlockId>, regs: Sem.Regs, mach: Machine, tail: seq<Instr>) returns (mach': Machine)
    requires Certified(m.blocks, c) && Onward(f) && b < |f| && b < |m.blocks| && i < |m.blocks[b].operations|
    requires m.blocks[b].operations[i].BinaryOp? || m.blocks[b].operations[i].CompareOp?
    requires RegsAgree(m.blocks, c, regs, mach.regs) && HeapOk(Slots(m.blocks), c, mach, b, i)
    requires m.blocks[b].operations[i].lhs in regs && m.blocks[b].operations[i].rhs in regs
    ensures StepAgrees(interp, available, m, c, f, b, i, Sem.EvalOp(interp, m.blocks[b].operations[i], prev, regs),
                       regs, mach, tail, mach')
  {
    hide Certified, HeapOk, RegsAgree, ValueAgrees, Compute, Compare, PredicateOf, Canon, ApplyBinary;
    var op := m.blocks[b].operations[i];
    mach' := mach;
    var code := OpCode(m.blocks, c, op) + tail;
    assert code[1..] == tail;
    var t := BinaryValue(interp, m.blocks, c, b, i, regs, mach.regs);
    var v := Sem.EvalOp(interp, op, prev, regs);
    if v.Ok? {
      assert Step(interp, available, code[0], mach) == Ok(mach.(regs := mach.regs[op.result := t.value]));
      mach' := mach.(regs := mach.regs[op.result := t.value]);
      RegsAgreeNext(m.blocks, c, regs, mach.regs, op.result, v.value, mach'.regs);
      HeapRegs(Slots(m.blocks), c, mach, b, i, mach'.regs);
      HeapLater(Slots(m.blocks), c, mach', b, i, b, i + 1);
    }
  }

  /** The value the target instruction computes for a binary operation or comparison. */
  lemma BinaryValue(interp: Interp, blocks: seq<BasicBlock>, c: Cert, b: nat, i: nat, regs: Sem.Regs,
                    tregs: map<ValueId, TVal>)
    returns (t: Outcome<TVal>)
    requires Certified(blocks, c) && b < |blocks| && i < |blocks[b].operations|
    requires blocks[b].operations[i].BinaryOp? || blocks[b].operations[i].CompareOp?
    requires RegsAgree(blocks, c, regs, tregs)
    requires blocks[b].operations[i].lhs in regs && blocks[b].operations[i].rhs in regs
    ensures var op := blocks[b].operations[i];
      && t == TargetValue(interp, if op.BinaryOp? then op.ty else op.operandType, if op.BinaryOp? then op.kind
                          else op.cmp,
                          Eval(Canon(blocks, c, op.lhs), tregs), Eval(Canon(blocks, c, op.rhs), tregs))
      && match Sem.EvalOp(interp, op, None, regs)
         case Ok(v) => t.Ok? && ValueAgrees(blocks, c, op.result, v, tregs[op.result := t.value])
         case Trap => t == Trap
         case Stuck => t == Stuck
  {
    var op := blocks[b].operations[i];
    assert OpOk(blocks, c, b, i, op) && c.at[op.result] == Position(b, i);
    var ty, kind := if op.BinaryOp? then op.ty else op.operandType, if op.BinaryOp? then op.kind else op.cmp;
    var x, y := Eval(Canon(blocks, c, op.lhs), tregs), Eval(Canon(blocks, c, op.rhs), tregs);
    assert ValueAgrees(blocks, c, op.lhs, regs[op.lhs], tregs) && ValueAgrees(blocks, c, op.rhs, regs[op.rhs], tregs);
    ComputeAgrees(interp, ty, kind, regs[op.lhs], regs[op.rhs], x, y);
    t := TargetValue(interp, ty, kind, x, y);
  }

  lemma RestCodeNext(m: Module, c: Cert, order: seq<ValueId>, b: nat, i: nat)
    requires b < |m.blocks| && i < |m.blocks[b].operations| && m.blocks[b].terminator.Some?
    ensures RestCode(m, c, order, b, i) == OpCode(m.blocks, c, m.blocks[b].operations[i])
      + RestCode(m, c, order, b, i + 1)
  {
    var ops := m.blocks[b].operations;
    assert ops[i..][0] == ops[i] && ops[i..][1..] == ops[i + 1..];
  }

  lemma FreesHead(order: seq<ValueId>)
    ensures Frees(order) != [] ==> Frees(order)[0].CallFree?
  {
  }

  /** Past the phis, the rest of a block's code starts with no phi. */
  lemma {:induction false} RestCodeNoPhi(m: Module, c: Cert, order: seq<ValueId>, b: nat, i: nat)
    requires b < |m.blocks| && i <= |m.blocks[b].operations| && m.blocks[b].terminator.Some?
    requires forall j :: i <= j < |m.blocks[b].operations| ==> !m.blocks[b].operations[j].PhiOp?
    ensures var rest := RestCode(m, c, order, b, i); rest != [] ==> !rest[0].Phi?
    decreases |m.blocks[b].operations| - i
  {
    if i < |m.blocks[b].operations| {
      RestCodeNext(m, c, order, b, i);
      RestCodeNoPhi(m, c, order, b, i + 1);
    } else {
      FreesHead(order);
      assert m.blocks[b].operations[i..] == [];
      assert RestCode(m, c, order, b, i) == LastCode(order, m.blocks[b].terminator.value);
    }
  }

  lemma {:induction false} FreesRun(interp: Interp, available: Allocator, f: Function, b: nat, order: seq<ValueId>,
                                    mach: Machine)
    requires Onward(f) && b < |f| && forall s :: s in order ==> s in mach.slots && mach.slots[s] != Garbage
    ensures Run(interp, available, f, b, Frees(order), mach) ==
      Run(interp, available, f, b, [], mach.(trace := mach.trace + FreeEvents(order, mach)))
    decreases |order|
  {
    if order == [] {
      assert mach.(trace := mach.trace + []) == mach;
    } else {
      var mach1 := mach.(trace := mach.trace + [Freed(mach.slots[order[0]])]);
      FreesRun(interp, available, f, b, order[1..], mach1);
      SameFreeEvents(order[1..], mach, mach1);
      assert mach1.trace + FreeEvents(order[1..], mach) == mach.trace + FreeEvents(order, mach);
    }
  }

  lemma SameFreeEvents(order: seq<ValueId>, m: Machine, m': Machine)
    requires m.slots == m'.slots && forall s :: s in order ==> s in m.slots
    ensures FreeEvents(order, m) == FreeEvents(order, m')
  {
  }

  lemma StepSim(interp: Interp, available: Allocator, m: Module, c: Cert, order: seq<ValueId>, f: Function, b: nat,
                i: nat,
                prev: Option<BlockId>, regs: Sem.Regs, mach: Machine, tail: seq<Instr>) returns (mach': Machine)
    requires Compiled(m, c, order, f) && Onward(f) && b < |m.blocks| && i < |m.blocks[b].operations|
    requires !m.blocks[b].operations[i].PhiOp?
    requires RegsAgree(m.blocks, c, regs, mach.regs) && HeapOk(Slots(m.blocks), c, mach, b, i) && Full(c, b, i, regs)
    ensures StepAgrees(interp, available, m, c, f, b, i, Sem.EvalOp(interp, m.blocks[b].operations[i], prev, regs),
                       regs, mach, tail, mach')
  {
    assert SupportedOps(m.blocks[b].operations) && Supported(m.blocks[b].operations[i]);
    assert OpOk(m.blocks, c, b, i, m.blocks[b].operations[i]);
    match m.blocks[b].operations[i]
    case ConstantIntOp(_, _, _) =>
      mach' := mach;
      ConstantStep(interp, available, m, c, f, b, i, prev, regs, mach, tail);
    case ConstantFloatOp(_, _, _) =>
      mach' := mach;
      ConstantStep(interp, available, m, c, f, b, i, prev, regs, mach, tail);
    case TensorDeclOp(_, _, _) => mach' := TensorStep(interp, available, m, c, f, b, i, prev, regs, mach, tail);
    case BinaryOp(_, _, _, _, _) => mach' := BinaryStep(interp, available, m, c, f, b, i, prev, regs, mach, tail);
    case CompareOp(_, _, _, _, _) => mach' := BinaryStep(interp, available, m, c, f, b, i, prev, regs, mach, tail);
  }

  /** From an operation past the phis to the end of the program. */
  lemma {:induction false} RunSim(interp: Interp, available: Allocator, m: Module, c: Cert, order: seq<ValueId>,
                                  f: Function,
                                  b: nat, i: nat, prev: Option<BlockId>, regs: Sem.Regs, mach: Machine)
    requires Compiled(m, c, order, f) && Onward(f) && Forward(m.blocks) && b < |m.blocks|
      && i <= |m.blocks[b].operations|
    requires forall j :: i <= j < |m.blocks[b].operations| ==> !m.blocks[b].operations[j].PhiOp?
    requires RegsAgree(m.blocks, c, regs, mach.regs) && HeapOk(Slots(m.blocks), c, mach, b, i) && Full(c, b, i, regs)
    ensures Agree(Sem.Exec(interp, m.blocks, b, i, prev, regs),
                  Run(interp, available, f, b, RestCode(m, c, order, b, i), mach))
    decreases |m.blocks| - b, |m.blocks[b].operations| - i, 2
  {
    hide Full, Compiled, Certified, HeapOk, RegsAgree, OpCode, RestCode, Forward;
    CompiledBlock(m, c, order, f, b);
    if i < |m.blocks[b].operations| {
      RestCodeNext(m, c, order, b, i);
      var tail := RestCode(m, c, order, b, i + 1);
      var mach' := StepSim(interp, available, m, c, order, f, b, i, prev, regs, mach, tail);
      var op := m.blocks[b].operations[i];
      var v := Sem.EvalOp(interp, op, prev, regs);
      if v.Ok? {
        FullNext(m.blocks, c, b, i, regs, v.value);
        RunSim(interp, available, m, c, order, f, b, i + 1, prev, regs[op.result := v.value], mach');
      }
    } else {
      RestCodeLast(m, c, order, b);
      FullEnds(m.blocks, c, b, regs);
      ExitSim(interp, available, m, c, order, f, b, prev, regs, mach);
    }
  }

  lemma RestCodeLast(m: Module, c: Cert, order: seq<ValueId>, b: nat)
    requires b < |m.blocks| && m.blocks[b].terminator.Some?
    ensures RestCode(m, c, order, b, |m.blocks[b].operations|) == LastCode(order, m.blocks[b].terminator.value)
  {
    assert m.blocks[b].operations[|m.blocks[b].operations|..] == [];
  }

  /** From the end of a block's operations. */
  lemma {:induction false} ExitSim(interp: Interp, available: Allocator, m: Module, c: Cert, order: seq<ValueId>,
                                   f: Function,
                                   b: nat, prev: Option<BlockId>, regs: Sem.Regs, mach: Machine)
    requires Compiled(m, c, order, f) && Onward(f) && Forward(m.blocks) && b < |m.blocks|
    requires RegsAgree(m.blocks, c, regs, mach.regs) && HeapOk(Slots(m.blocks), c, mach, b, |m.blocks[b].operations|)
    requires FullAtEnd(c, b, regs)
    ensures m.blocks[b].terminator.Some?
    ensures Agree(Sem.Exec(interp, m.blocks, b, |m.blocks[b].operations|, prev, regs),
                  Run(interp, available, f, b, LastCode(order, m.blocks[b].terminator.value), mach))
    decreases |m.blocks| - b, 0, 1
  {
    hide Compiled, Certified, HeapOk, Agree, ReturnsTyped;
    CompiledBlock(m, c, order, f, b);
    var term := m.blocks[b].terminator.value;
    match term
    case BranchOp(t) =>
      assert t in Targets(term);
      EdgeSim(interp, available, m, c, order, f, b, t, regs, mach);
    case CondBranchOp(_, _, _) =>
      ConditionSim(interp, available, m, c, order, f, b, prev, regs, mach);
    case ReturnOp(v) =>
      ReturnSim(interp, available, m, c, order, f, b, prev, regs, mach);
  }

  lemma {:induction false} ConditionSim(interp: Interp, available: Allocator, m: Module, c: Cert, order: seq<ValueId>,
                                        f: Function,
                                        b: nat, prev: Option<BlockId>, regs: Sem.Regs, mach: Machine)
    requires Compiled(m, c, order, f) && Onward(f) && Forward(m.blocks) && b < |m.blocks|
    requires m.blocks[b].terminator.Some? && m.blocks[b].terminator.value.CondBranchOp?
    requires RegsAgree(m.blocks, c, regs, mach.regs) && HeapOk(Slots(m.blocks), c, mach, b, |m.blocks[b].operations|)
    requires FullAtEnd(c, b, regs)
    ensures Agree(Sem.Exec(interp, m.blocks, b, |m.blocks[b].operations|, prev, regs),
                  Run(interp, available, f, b, [], mach))
    decreases |m.blocks| - b, 0, 0
  {
    hide Compiled, Certified, HeapOk, ReturnsTyped;
    CompiledBlock(m, c, order, f, b);
    var term := m.blocks[b].terminator.value;
    var v := term.condition;
    assert term.trueTarget in Targets(term) && term.falseTarget in Targets(term);
    ConditionBool(m, c, b, regs, mach.regs);
    assert ValueAgrees(m.blocks, c, v, regs[v], mach.regs);
    var next := if regs[v].b then term.trueTarget else term.falseTarget;
    EdgeSim(interp, available, m, c, order, f, b, next, regs, mach);
  }

  lemma ConditionBool(m: Module, c: Cert, b: nat, regs: Sem.Regs, tregs: map<ValueId, TVal>)
    requires Certified(m.blocks, c) && b < |m.blocks| && m.blocks[b].terminator.Some?
      && m.blocks[b].terminator.value.CondBranchOp?
    requires RegsAgree(m.blocks, c, regs, tregs) && FullAtEnd(c, b, regs)
    ensures var v := m.blocks[b].terminator.value.condition; v in regs && regs[v].BoolV?
  {
    var v := m.blocks[b].terminator.value.condition;
    assert TermOk(m.blocks, c, b, m.blocks[b].terminator.value);
    assert ValueAgrees(m.blocks, c, v, regs[v], tregs);
  }

  lemma ReturnSim(interp: Interp, available: Allocator, m: Module, c: Cert, order: seq<ValueId>, f: Function,
                  b: nat, prev: Option<BlockId>, regs: Sem.Regs, mach: Machine)
    requires Compiled(m, c, order, f) && Onward(f) && Forward(m.blocks) && b < |m.blocks| && Returns(m.blocks[b])
    requires RegsAgree(m.blocks, c, regs, mach.regs) && HeapOk(Slots(m.blocks), c, mach, b, |m.blocks[b].operations|)
    requires FullAtEnd(c, b, regs)
    ensures Agree(Sem.Exec(interp, m.blocks, b, |m.blocks[b].operations|, prev, regs),
                  Run(interp, available, f, b, Frees(order), mach))
  {
    hide Compiled, Certified, HeapOk, ReturnsTyped, StorageBalanced, Frees, FreeEvents, IsEnumeration;
    CompiledBlock(m, c, order, f, b);
    var v := m.blocks[b].terminator.value.value;
    ReturnKnown(m, c, b, regs);
    FreesBalance(Slots(m.blocks), c, mach, b, |m.blocks[b].operations|, order);
    FreesRun(interp, available, f, b, order, mach);
    assert ValueAgrees(m.blocks, c, v, regs[v], mach.regs);
    ReturnedInt(m, c, b, regs[v]);
  }

  lemma ReturnKnown(m: Module, c: Cert, b: nat, regs: Sem.Regs)
    requires Certified(m.blocks, c) && b < |m.blocks| && Returns(m.blocks[b]) && FullAtEnd(c, b, regs)
    ensures m.blocks[b].terminator.value.value in regs
  {
    assert TermOk(m.blocks, c, b, m.blocks[b].terminator.value);
  }

  lemma ReturnedInt(m: Module, c: Cert, b: nat, val: Val)
    requires Certified(m.blocks, c) && ReturnsTyped(m.blocks) && b < |m.blocks| && Returns(m.blocks[b])
    requires var v := m.blocks[b].terminator.value.value;
      v < |c.at| && InRange(m.blocks, c.at[v]) && HasType(val, TypeOf(OpAt(m.blocks, c.at[v])))
    ensures val.IntV?
  {
    var v := m.blocks[b].terminator.value.value;
    assert TypedIn(m.blocks, v, I64);
    var p :| InRange(m.blocks, p) && OpAt(m.blocks, p).result == v && TypeOf(OpAt(m.blocks, p)) == I64;
    assert c.at[m.blocks[p.block].operations[p.index].result] == p;
  }

  /** Along an edge to a later block. */
  lemma {:induction false} EdgeSim(interp: Interp, available: Allocator, m: Module, c: Cert, order: seq<ValueId>,
                                   f: Function,
                                   b: nat, t: nat, regs: Sem.Regs, mach: Machine)
    requires Compiled(m, c, order, f) && Onward(f) && Forward(m.blocks) && b < t < |m.blocks| && HasEdge(m.blocks[b], t)
    requires RegsAgree(m.blocks, c, regs, mach.regs) && HeapOk(Slots(m.blocks), c, mach, b, |m.blocks[b].operations|)
    requires FullAtEnd(c, b, regs)
    ensures Agree(Sem.Exec(interp, m.blocks, t, 0, Some(b), regs),
                  Enter(interp, available, f, t, f[t].instrs, b, mach.regs, mach))
    decreases |m.blocks| - t, |m.blocks[t].operations|, 4
  {
    hide Full, FullAtEnd, Compiled, Certified, HeapOk, RegsAgree, RestCode, Agree;
    CompiledBlock(m, c, order, f, t);
    FullEnters(m.blocks, c, b, t, regs);
    HeapLater(Slots(m.blocks), c, mach, b, |m.blocks[b].operations|, t, 0);
    assert f[t].instrs == RestCode(m, c, order, t, 0);
    EnterSim(interp, available, m, c, order, f, t, 0, b, regs, regs, mach.regs, mach);
  }

  /** Outside block `b` the registers are as they were on the edge. */
  ghost predicate SameOutside(c: Cert, b: nat, before: Sem.Regs, regs: Sem.Regs) {
    forall v: ValueId :: v < |c.at| && c.at[v].block != b ==>
      (v in regs <==> v in before) && (v in regs ==> regs[v] == before[v])
  }

  /** The IR evaluates a block's phis one after the other, the target all at once. */
  lemma {:induction false} EnterSim(interp: Interp, available: Allocator, m: Module, c: Cert, order: seq<ValueId>,
                                    f: Function,
                                    b: nat, i: nat, p: nat, before: Sem.Regs, regs: Sem.Regs, tbefore: map<ValueId,
                                      TVal>, mach: Machine)
    requires Compiled(m, c, order, f) && Onward(f) && Forward(m.blocks) && b < |m.blocks|
      && i <= |m.blocks[b].operations|
    requires RegsAgree(m.blocks, c, before, tbefore) && RegsAgree(m.blocks, c, regs, mach.regs)
    requires SameOutside(c, b, before, regs) && HeapOk(Slots(m.blocks), c, mach, b, i)
    requires p < |m.blocks| && HasEdge(m.blocks[p], b) && FullAtEnd(c, p, before) && Full(c, b, i, regs)
    ensures Agree(Sem.Exec(interp, m.blocks, b, i, Some(p), regs),
                  Enter(interp, available, f, b, RestCode(m, c, order, b, i), p, tbefore, mach))
    decreases |m.blocks| - b, |m.blocks[b].operations| - i, 3
  {
    hide Full, FullAtEnd, Compiled, HeapOk, RegsAgree, RestCode, Forward, OpsOk, TermsOk, AvailOk, ValueAgrees, Inputs;
    CompiledBlock(m, c, order, f, b);
    if i < |m.blocks[b].operations| && m.blocks[b].operations[i].PhiOp? {
      var op := m.blocks[b].operations[i];
      RestCodeNext(m, c, order, b, i);
      var rest := RestCode(m, c, order, b, i);
      assert rest[0] == Phi(op.result, Inputs(m.blocks, c, op.incoming))
        && rest[1..] == RestCode(m, c, order, b, i + 1);
      PhiFound(m, c, b, i, p, before, regs);
      var v := Sem.PhiValue(op.incoming, Some(p), regs);
      var t := PhiSim(m, c, b, i, p, before, regs, tbefore, mach.regs);
      var mach' := mach.(regs := mach.regs[op.result := t]);
      RegsAgreeNext(m.blocks, c, regs, mach.regs, op.result, v.value, mach'.regs);
      HeapRegs(Slots(m.blocks), c, mach, b, i, mach'.regs);
      HeapLater(Slots(m.blocks), c, mach', b, i, b, i + 1);
      FullNext(m.blocks, c, b, i, regs, v.value);
      assert c.at[op.result] == Position(b, i);
      EnterSim(interp, available, m, c, order, f, b, i + 1, p, before, regs[op.result := v.value], tbefore, mach');
    } else {
      PhisDone(m, b, i);
      RestCodeNoPhi(m, c, order, b, i);
      RunSim(interp, available, m, c, order, f, b, i, Some(p), regs, mach);
    }
  }

  /** On an edge from `p` a phi finds its operand. */
  lemma PhiFound(m: Module, c: Cert, b: nat, i: nat, p: nat, before: Sem.Regs, regs: Sem.Regs)
    requires Certified(m.blocks, c) && b < |m.blocks| && i < |m.blocks[b].operations|
      && m.blocks[b].operations[i].PhiOp?
    requires p < |m.blocks| && HasEdge(m.blocks[p], b) && FullAtEnd(c, p, before) && SameOutside(c, b, before, regs)
    ensures Sem.PhiValue(m.blocks[b].operations[i].incoming, Some(p), regs).Ok?
  {
    var op := m.blocks[b].operations[i];
    assert OpOk(m.blocks, c, b, i, op);
    forall k | 0 <= k < |op.incoming| && op.incoming[k].predecessor == p ensures op.incoming[k].value in regs {
      PhiOperandsElsewhere(m.blocks, c, b, op, k);
    }
    PhiPicks(op.incoming, p, regs);
  }

  lemma {:induction false} PhiPicks(incoming: seq<PhiIncoming>, p: nat, regs: Sem.Regs)
    requires exists k :: 0 <= k < |incoming| && incoming[k].predecessor == p
    requires forall k :: 0 <= k < |incoming| && incoming[k].predecessor == p ==> incoming[k].value in regs
    ensures Sem.PhiValue(incoming, Some(p), regs).Ok?
    decreases |incoming|
  {
    if incoming[0].predecessor != p {
      PhiPicks(incoming[1..], p, regs);
    }
  }

  lemma PhisDone(m: Module, b: nat, i: nat)
    requires PhisFirst(m.blocks) && b < |m.blocks| && i <= |m.blocks[b].operations|
    requires i < |m.blocks[b].operations| ==> !m.blocks[b].operations[i].PhiOp?
    ensures forall j :: i <= j < |m.blocks[b].operations| ==> !m.blocks[b].operations[j].PhiOp?
  {
  }

  /** A phi selects the same value in the IR's current registers and in the target's registers on the edge,
      because none of its operands is defined in its own block. */
  lemma PhiSim(m: Module, c: Cert, b: nat, i: nat, p: nat, before: Sem.Regs, regs: Sem.Regs, tbefore: map<ValueId,
               TVal>,
               tregs: map<ValueId, TVal>) returns (t: TVal)
    requires Certified(m.blocks, c) && b < |m.blocks| && i < |m.blocks[b].operations|
      && m.blocks[b].operations[i].PhiOp?
    requires RegsAgree(m.blocks, c, before, tbefore) && SameOutside(c, b, before, regs)
    requires Sem.PhiValue(m.blocks[b].operations[i].incoming, Some(p), regs).Ok?
    ensures var op := m.blocks[b].operations[i];
      && Incoming(Inputs(m.blocks, c, op.incoming), p, tbefore) == Some(t)
      && ValueAgrees(m.blocks, c, op.result, Sem.PhiValue(op.incoming, Some(p), regs).value, tregs[op.result := t])
  {
    hide RegsAgree, SameOutside, Inputs, Sem.PhiValue, Incoming, Represents, HasType;
    var op := m.blocks[b].operations[i];
    assert OpOk(m.blocks, c, b, i, op) && c.at[op.result] == Position(b, i);
    forall k | 0 <= k < |op.incoming| ensures c.at[op.incoming[k].value].block < b {
      PhiOperandsElsewhere(m.blocks, c, b, op, k);
    }
    t := SelectSim(m, c, b, op.incoming, op.ty, p, before, regs, tbefore);
  }

  lemma {:induction false} SelectSim(m: Module, c: Cert, b: nat, incoming: seq<PhiIncoming>, ty: TensorType, p: nat,
                                     before: Sem.Regs, regs: Sem.Regs, tbefore: map<ValueId, TVal>) returns (t: TVal)
    requires RegsAgree(m.blocks, c, before, tbefore) && SameOutside(c, b, before, regs)
    requires forall k :: 0 <= k < |incoming| ==>
      HasDef(m.blocks, c, incoming[k].value, ty) && c.at[incoming[k].value].block < b
    requires Sem.PhiValue(incoming, Some(p), regs).Ok?
    ensures Incoming(Inputs(m.blocks, c, incoming), p, tbefore) == Some(t)
    ensures var v := Sem.PhiValue(incoming, Some(p), regs).value; HasType(v, ty) && Represents(Some(t), v)
    decreases |incoming|
  {
    var v := incoming[0].value;
    if incoming[0].predecessor == p {
      assert ValueAgrees(m.blocks, c, v, before[v], tbefore);
      t := Eval(Canon(m.blocks, c, v), tbefore).value;
    } else {
      t := SelectSim(m, c, b, incoming[1..], ty, p, before, regs, tbefore);
    }
  }

  /** The whole program: the target run ends as the IR run ends, with the truncated result and balanced storage, in
      undefined behaviour, or without a meaning. */
  lemma LoweredRunAgrees(interp: Interp, available: Allocator, m: Module, c: Cert, order: seq<ValueId>, f: Function)
    requires Compiled(m, c, order, f)
    ensures Onward(f) && 0 < |f| && Forward(m.blocks) && m.entry < |m.blocks|
    ensures Agree(Sem.RunModule(interp, m), RunFunction(interp, available, f))
  {
    hide Certified, SupportedModule, ReturnsTyped, IsCodeOf, IsEnumeration, Agree, RestCode, Forward, Onward;
    CompiledOnward(m, c, order, f);
    CompiledSize(m, c, order, f);
    var slots := Slots(m.blocks);
    CompiledBlock(m, c, order, f, 0);
    PrologueRuns(interp, available, f, slots, RestCode(m, c, order, 0, 0), START);
    EntrySim(interp, available, m, c, order, f);
  }

  lemma CompiledSize(m: Module, c: Cert, order: seq<ValueId>, f: Function)
    requires Compiled(m, c, order, f)
    ensures 0 < |m.blocks| == |f|
  {
  }

  /** A phi in the entry block would have no predecessors to choose from; the target gives it no meaning either. */
  lemma EntryPhi(interp: Interp, available: Allocator, m: Module, c: Cert, order: seq<ValueId>, f: Function,
                 mach: Machine)
    requires Certified(m.blocks, c) && 0 < |m.blocks| && m.blocks[0].operations != []
      && m.blocks[0].operations[0].PhiOp?
    requires Forward(m.blocks) && Onward(f) && 0 < |f| && m.blocks[0].terminator.Some?
    ensures Sem.Exec(interp, m.blocks, 0, 0, None, map[]) == Sem.Wrong
    ensures Run(interp, available, f, 0, RestCode(m, c, order, 0, 0), mach) == Invalid
  {
    hide Located, TermsOk, AvailOk, Forward, Onward, RestCode;
    assert OpOk(m.blocks, c, 0, 0, m.blocks[0].operations[0]);
    RestCodeNext(m, c, order, 0, 0);
  }

  lemma EntryFull(m: Module, c: Cert)
    requires Certified(m.blocks, c)
    ensures Full(c, 0, 0, map[])
  {
  }

  /** The entry block after the prologue. */
  lemma EntrySim(interp: Interp, available: Allocator, m: Module, c: Cert, order: seq<ValueId>, f: Function)
    requires Compiled(m, c, order, f) && Onward(f) && Forward(m.blocks) && 0 < |m.blocks| == |f|
    requires m.blocks[0].terminator.Some?
    ensures Agree(Sem.Exec(interp, m.blocks, 0, 0, None, map[]),
                  Run(interp, available, f, 0, RestCode(m, c, order, 0, 0), AfterPrologue(Slots(m.blocks), START)))
  {
    hide Full, Compiled, HeapOk, RestCode, AfterPrologue, Forward, Onward, OpsOk, Located, TermsOk, AvailOk, Slots,
      Run, Sem.Exec;
    CompiledBlock(m, c, order, f, 0);
    var slots, ops := Slots(m.blocks), m.blocks[0].operations;
    if ops != [] && ops[0].PhiOp? {
      EntryPhi(interp, available, m, c, order, f, AfterPrologue(slots, START));
    } else {
      StartHeap(slots, c);
      EntryFull(m, c);
      PhisDone(m, 0, 0);
      RunSim(interp, available, m, c, order, f, 0, 0, None, map[], AfterPrologue(slots, START));
    }
  }

  lemma SlotRuns(interp: Interp, available: Allocator, f: Function, slot: ValueId, rest: seq<Instr>, mach: Machine)
    requires Onward(f) && 0 < |f|
    ensures Run(interp, available, f, 0, [Alloca(slot), StoreNull(slot)] + rest, mach) ==
      Run(interp, available, f, 0, rest, StoreTo(mach.(slots := mach.slots[slot := Garbage]), slot, Null))
  {
    var code := [Alloca(slot), StoreNull(slot)] + rest;
    assert code[1..] == [StoreNull(slot)] + rest && code[1..][1..] == rest;
    var mach1 := mach.(slots := mach.slots[slot := Garbage]);
    assert Run(interp, available, f, 0, code, mach) == Run(interp, available, f, 0, code[1..], mach1);
  }

  lemma {:induction false} PrologueRuns(interp: Interp, available: Allocator, f: Function, slots: seq<ValueId>,
                                        tail: seq<Instr>, mach: Machine)
    requires Onward(f) && 0 < |f|
    ensures Run(interp, available, f, 0, Prologue(slots) + tail, mach) ==
      Run(interp, available, f, 0, tail, AfterPrologue(slots, mach))
    decreases |slots|
  {
    hide Run, Onward;
    if slots == [] {
      assert Prologue(slots) + tail == tail;
    } else {
      var rest := Prologue(slots[1..]) + tail;
      assert Prologue(slots) + tail == [Alloca(slots[0]), StoreNull(slots[0])] + rest;
      SlotRuns(interp, available, f, slots[0], rest, mach);
      var mach1 := StoreTo(mach.(slots := mach.slots[slots[0] := Garbage]), slots[0], Null);
      PrologueRuns(interp, available, f, slots[1..], tail, mach1);
    }
  }
}
