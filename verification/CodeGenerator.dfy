/** The code generator: one pass over the module that fills target blocks through an insertion point. */
module CodeGenerator {
  import opened Prelude
  import opened Ast
  import opened IR
  import opened Certificate
  import opened WellFormed
  import opened StorageSize
  import opened Target
  import opened LoweringSpec
  import IRVerifier

  /** `Index` finds the block with the given id, if there is one. */
  lemma {:induction false} IndexSound(blocks: seq<BasicBlock>, id: BlockId)
    ensures match Index(blocks, id)
      case Some(i) => i < |blocks| && blocks[i].id == id
      case None => forall i :: 0 <= i < |blocks| ==> blocks[i].id != id
    decreases |blocks|
  {
    if blocks != [] {
      IndexSound(blocks[1..], id);
      if Index(blocks, id).None? {
        forall i | 0 <= i < |blocks| ensures blocks[i].id != id {
          if 0 < i {
            assert blocks[i] == blocks[1..][i - 1];
          }
        }
      }
    }
  }

  lemma AssembledIsLower(m: Module, cleanup: CleanupOrder, entry: nat, f: Function)
    requires AllTerminated(m) && WellFormedModule(m) && ReturnsI64(m) && Index(m.blocks, m.entry) == Some(entry)
      && entry < |m.blocks|
    requires var r := LowerBlocks(m.blocks, map[], cleanup(SlotSet(Slots(m.blocks))), m.blocks);
      && r.Some? && |r.value| == |f| == |m.blocks|
      && forall i :: 0 <= i < |f| ==>
        f[i].instrs == (if i == entry then Prologue(Slots(m.blocks)) else []) + r.value[i].instrs
          && f[i].exit == r.value[i].exit
    ensures Lower(m, cleanup) == Some(f)
  {
    hide WellFormedModule, ReturnsI64, LowerBlocks, Slots, Prologue, Index;
    var r := LowerBlocks(m.blocks, map[], cleanup(SlotSet(Slots(m.blocks))), m.blocks).value;
    forall i | 0 <= i < |f| && i != entry ensures f[i] == r[i] {
      assert [] + r[i].instrs == r[i].instrs;
    }
    assert f == r[entry := r[entry].(instrs := Prologue(Slots(m.blocks)) + r[entry].instrs)];
  }

  /** What remains to be lowered, put after what is done. */
  ghost function Onto(done: Function, rest: Option<Function>): Option<Function> {
    match rest
    case None => None
    case Some(f) => Some(done + f)
  }

  ghost function OntoOps(done: seq<Instr>, rest: Option<(seq<Instr>, Operands)>): Option<(seq<Instr>, Operands)> {
    match rest
    case None => None
    case Some((instrs, values)) => Some((done + instrs, values))
  }

  /** Instructions appended to block `b`. */
  function Put(code: seq<seq<Instr>>, b: nat, more: seq<Instr>): seq<seq<Instr>>
    requires b < |code|
  {
    code[b := code[b] + more]
  }

  lemma PutNothing(code: seq<seq<Instr>>, b: nat)
    requires b < |code|
    ensures Put(code, b, []) == code
  {
    assert code[b] + [] == code[b];
  }

  lemma PutTwice(code: seq<seq<Instr>>, b: nat, first: seq<Instr>, second: seq<Instr>)
    requires b < |code|
    ensures Put(Put(code, b, first), b, second) == Put(code, b, first + second)
  {
    assert (code[b] + first) + second == code[b] + (first + second);
  }

  class Generator {
    const cleanup: CleanupOrder

    var instrs: seq<seq<Instr>>
    var exits: seq<Option<Exit>>
    var insertPoint: nat
    var labels: map<BlockId, nat>
    var values: Operands
    var cleanupSlots: set<ValueId>

    constructor (cleanup: CleanupOrder)
      ensures this.cleanup == cleanup
    {
      this.cleanup := cleanup;
      instrs, exits, insertPoint, labels, values, cleanupSlots := [], [], 0, map[], map[], {};
    }

    /** The label map finds target blocks as `Index` does. */
    ghost predicate Labelled(blocks: seq<BasicBlock>)
      reads this`labels
    {
      forall id :: Index(blocks, id) == if id in labels then Some(labels[id]) else None
    }

    /** `generate`: the target function, or nothing where the original throws. */
    method Generate(m: Module) returns (result: Option<Function>)
      modifies this
      ensures result == Lower(m, cleanup)
    {
      var ok := IRVerifier.Verify(m);
      if !ok {
        return None;
      }
      ok := ReturnsScalar(m);
      if !ok {
        return None;
      }
      result := Translate(m);
    }

    /** Blocks, cleanup slots and code of a verified module. */
    method Translate(m: Module) returns (result: Option<Function>)
      requires WellFormedModule(m) && ReturnsI64(m) && AllTerminated(m) && UniqueBlocks(m) && HasBlock(m, m.entry)
      modifies this
      ensures result == Lower(m, cleanup)
    {
      hide WellFormedModule, ReturnsI64, LowerBlocks, Slots, Prologue, Index;
      CreateBlocks(m);
      IndexSound(m.blocks, m.entry);
      var entry := labels[m.entry];
      insertPoint := entry;
      EmitPrologue(m);
      var ok := LowerAll(m);
      if !ok {
        return None;
      }
      var f := Assemble();
      AssembledIsLower(m, cleanup, entry, f);
      result := Some(f);
    }

    /** The finished function. */
    function Assemble(): Function
      requires |instrs| == |exits| && forall i :: 0 <= i < |exits| ==> exits[i].Some?
      reads this`instrs, this`exits
    {
      var code, ends := instrs, exits;
      seq(|code|, i requires 0 <= i < |code| && i < |ends| && ends[i].Some? => Block(code[i], ends[i].value))
    }

    /** The forward pass: every block's code goes after what its target block already holds. */
    method LowerAll(m: Module) returns (ok: bool)
      requires AllTerminated(m) && Labelled(m.blocks) && |instrs| == |exits| == |m.blocks|
      modifies this`instrs, this`exits, this`insertPoint, this`values
      ensures match LowerBlocks(m.blocks, map[], cleanup(cleanupSlots), m.blocks)
        case None => !ok
        case Some(f) =>
          && ok && |f| == |instrs| == |exits| == |m.blocks|
          && forall i :: 0 <= i < |f| ==> instrs[i] == old(instrs)[i] + f[i].instrs && exits[i] == Some(f[i].exit)
    {
      ghost var order := cleanup(cleanupSlots);
      ghost var done: Function := [];
      values := map[];
      assert m.blocks[0..] == m.blocks;
      OntoEmpty(LowerBlocks(m.blocks, values, order, m.blocks));
      for b := 0 to |m.blocks|
        invariant |done| == b && |instrs| == |exits| == |m.blocks|
        invariant LowerBlocks(m.blocks, map[], order, m.blocks) ==
          Onto(done, LowerBlocks(m.blocks, values, order, m.blocks[b..]))
        invariant forall i :: 0 <= i < b ==>
          instrs[i] == old(instrs)[i] + done[i].instrs && exits[i] == Some(done[i].exit)
        invariant forall i :: b <= i < |instrs| ==> instrs[i] == old(instrs)[i]
      {
        assert m.blocks[b..][0] == m.blocks[b] && m.blocks[b..][1..] == m.blocks[b + 1..];
        insertPoint := b;
        ghost var before := values;
        ok := LowerBlock(m.blocks, m.blocks[b]);
        if !ok {
          return;
        }
        ghost var (code, _) := LowerOps(m.blocks, before, m.blocks[b].operations).value;
        ghost var (last, exit) := LowerTerminator(m.blocks, values, order, m.blocks[b].terminator.value).value;
        OntoMore(done, Block(code + last, exit), LowerBlocks(m.blocks, values, order, m.blocks[b + 1..]));
        done := done + [Block(code + last, exit)];
      }
      assert m.blocks[|m.blocks|..] == [] && done + [] == done;
      ok := true;
    }

    /** The first return decides the type, looked up among the types of all results. */
    method ReturnsScalar(m: Module) returns (ok: bool)
      requires WellFormedModule(m)
      ensures ok <==> ReturnsI64(m)
    {
      hide WellFormedModule, UniqueResults, DefinedAs, Typed, ReturnsI64;
      ReturnExists(m);
      var types := ValueTypes(m);
      for b := 0 to |m.blocks|
        invariant forall a :: 0 <= a < b ==> !Returns(m.blocks[a])
      {
        if Returns(m.blocks[b]) {
          FirstReturn(m, b);
          var v := m.blocks[b].terminator.value.value;
          ok := Typed(types, v, I64);
          return;
        }
      }
      assert false;
    }

    method ValueTypes(m: Module) returns (types: map<ValueId, TensorType>)
      requires UniqueResults(m)
      ensures forall v: ValueId, ty :: Typed(types, v, ty) <==> DefinedAs(m, v, ty)
    {
      types := map[];
      for b := 0 to |m.blocks|
        invariant TypesAre(types, m, b, 0)
      {
        for i := 0 to |m.blocks[b].operations|
          invariant TypesAre(types, m, b, i)
        {
          var op := m.blocks[b].operations[i];
          TypesNext(types, m, b, i);
          types := types[op.result := TypeOf(op)];
        }
        DefinedBlock(m, b);
      }
      forall v: ValueId, ty ensures DefinedWithin(m, v, ty, |m.blocks|, 0) <==> DefinedAs(m, v, ty) {
        if DefinedAs(m, v, ty) {
          var p :| DefinesTyped(m, p, v, ty);
          assert DefinesTyped(m, p, v, ty) && IRVerifier.Visited(p, |m.blocks|, 0);
        }
      }
    }

    method CreateBlocks(m: Module)
      requires UniqueBlocks(m)
      modifies this`instrs, this`exits, this`labels
      ensures |instrs| == |exits| == |m.blocks| && forall i :: 0 <= i < |instrs| ==> instrs[i] == []
      ensures Labelled(m.blocks) && forall b :: 0 <= b < |m.blocks| ==> m.blocks[b].id in labels
    {
      instrs, exits, labels := [], [], map[];
      for b := 0 to |m.blocks|
        invariant |instrs| == |exits| == b && forall i :: 0 <= i < b ==> instrs[i] == []
        invariant forall i :: 0 <= i < b ==> m.blocks[i].id in labels && labels[m.blocks[i].id] == i
        invariant forall id :: id in labels ==> labels[id] < b && m.blocks[labels[id]].id == id
      {
        instrs, exits, labels := instrs + [[]], exits + [None], labels[m.blocks[b].id := b];
      }
      forall id ensures Index(m.blocks, id) == if id in labels then Some(labels[id]) else None {
        IndexSound(m.blocks, id);
      }
    }

    method Emit(i: Instr)
      requires insertPoint < |instrs|
      modifies this`instrs
      ensures instrs == Put(old(instrs), insertPoint, [i])
    {
      instrs := instrs[insertPoint := instrs[insertPoint] + [i]];
    }

    /** The cleanup slots of all declarations, at the insertion point. */
    method EmitPrologue(m: Module)
      requires insertPoint < |instrs| && instrs[insertPoint] == []
      modifies this`instrs, this`cleanupSlots
      ensures instrs == Put(old(instrs), insertPoint, Prologue(Slots(m.blocks)))
      ensures cleanupSlots == SlotSet(Slots(m.blocks))
    {
      cleanupSlots := {};
      ghost var done: seq<ValueId> := [];
      assert m.blocks[0..] == m.blocks;
      PutNothing(instrs, insertPoint);
      for b := 0 to |m.blocks|
        invariant |instrs| == |old(instrs)| && done + Slots(m.blocks[b..]) == Slots(m.blocks)
        invariant instrs == Put(old(instrs), insertPoint, Prologue(done)) && cleanupSlots == SlotSet(done)
      {
        assert m.blocks[b..][0] == m.blocks[b] && m.blocks[b..][1..] == m.blocks[b + 1..];
        EmitSlots(m.blocks[b].operations);
        ghost var slots := OpSlots(m.blocks[b].operations);
        PrologueConcat(done, slots);
        PutTwice(old(instrs), insertPoint, Prologue(done), Prologue(slots));
        assert (done + slots) + Slots(m.blocks[b + 1..]) == done + Slots(m.blocks[b..]);
        done := done + slots;
      }
      assert m.blocks[|m.blocks|..] == [] && done == Slots(m.blocks);
    }

    /** The cleanup slots of one block's declarations. */
    method EmitSlots(ops: seq<Operation>)
      requires insertPoint < |instrs|
      modifies this`instrs, this`cleanupSlots
      ensures instrs == Put(old(instrs), insertPoint, Prologue(OpSlots(ops)))
      ensures cleanupSlots == old(cleanupSlots) + SlotSet(OpSlots(ops))
    {
      hide Put, Prologue, OpSlots, SlotSet;
      ghost var done: seq<ValueId> := [];
      NoSlots(instrs, insertPoint, ops);
      for i := 0 to |ops|
        invariant |instrs| == |old(instrs)| && done + OpSlots(ops[i..]) == OpSlots(ops)
        invariant instrs == Put(old(instrs), insertPoint, Prologue(done))
        invariant cleanupSlots == old(cleanupSlots) + SlotSet(done)
      {
        SlotsStep(ops, i, done);
        if ops[i].TensorDeclOp? {
          EmitSlot(ops[i].result, done, old(instrs));
          done := done + [ops[i].result];
        }
      }
      AllSlots(ops, done);
    }

    method EmitSlot(slot: ValueId, ghost done: seq<ValueId>, ghost start: seq<seq<Instr>>)
      requires insertPoint < |instrs| && |start| == |instrs| && instrs == Put(start, insertPoint, Prologue(done))
      modifies this`instrs, this`cleanupSlots
      ensures |instrs| == |start| && instrs == Put(start, insertPoint, Prologue(done + [slot]))
      ensures cleanupSlots == old(cleanupSlots) + {slot}
    {
      Emit(Alloca(slot));
      Emit(StoreNull(slot));
      cleanupSlots := cleanupSlots + {slot};
      PutTwice(start, insertPoint, Prologue(done), [Alloca(slot)]);
      PutTwice(start, insertPoint, Prologue(done) + [Alloca(slot)], [StoreNull(slot)]);
      PrologueConcat(done, [slot]);
      assert Prologue([slot]) == [Alloca(slot), StoreNull(slot)] + Prologue([slot][1..]) && [slot][1..] == [];
      assert Prologue(done) + [Alloca(slot)] + [StoreNull(slot)] == Prologue(done) + Prologue([slot]);
    }

    /** One block: its operations in order, then its terminator. */
    method LowerBlock(blocks: seq<BasicBlock>, block: BasicBlock) returns (ok: bool)
      requires block.terminator.Some? && Labelled(blocks) && insertPoint < |instrs| == |exits|
      modifies this`instrs, this`exits, this`values
      ensures match LowerOps(blocks, old(values), block.operations)
        case None => !ok
        case Some((code, values')) =>
          match LowerTerminator(blocks, values', cleanup(cleanupSlots), block.terminator.value)
          case None => !ok
          case Some((last, exit)) =>
            && ok && values == values'
            && instrs == Put(old(instrs), insertPoint, code + last)
            && exits == old(exits)[insertPoint := Some(exit)]
    {
      var ops := block.operations;
      ghost var done: seq<Instr> := [];
      assert ops[0..] == ops;
      PutNothing(instrs, insertPoint);
      OntoNothing(LowerOps(blocks, values, ops));
      for i := 0 to |ops|
        invariant |instrs| == |exits| == |old(instrs)|
        invariant LowerOps(blocks, old(values), ops) == OntoOps(done, LowerOps(blocks, values, ops[i..]))
        invariant instrs == Put(old(instrs), insertPoint, done) && exits == old(exits)
      {
        assert ops[i..][0] == ops[i] && ops[i..][1..] == ops[i + 1..];
        ghost var start := values;
        ok := LowerOperation(blocks, ops[i]);
        if !ok {
          return;
        }
        ghost var code := LowerOp(blocks, start, ops[i]).value.0;
        OntoAssociative(done, code, LowerOps(blocks, values, ops[i + 1..]));
        PutTwice(old(instrs), insertPoint, done, code);
        done := done + code;
      }
      assert ops[|ops|..] == [] && done + [] == done;
      ok := LowerExit(blocks, block.terminator.value);
      if ok {
        PutTwice(old(instrs), insertPoint, done,
                 LowerTerminator(blocks, values, cleanup(cleanupSlots), block.terminator.value).value.0);
      }
    }

    method LowerOperation(blocks: seq<BasicBlock>, op: Operation) returns (ok: bool)
      requires Labelled(blocks) && insertPoint < |instrs|
      modifies this`instrs, this`values
      ensures match LowerOp(blocks, old(values), op)
        case None => !ok
        case Some((code, o)) =>
          ok && values == Emplace(old(values), op.result, o) && instrs == Put(old(instrs), insertPoint, code)
    {
      ok := true;
      PutNothing(instrs, insertPoint);
      match op
      case TensorDeclOp(r, _, ty) =>
        var size := TensorStorageSize(ty);
        if size.None? {
          return false;
        }
        Emit(CallAlloc(r, size.value, 64));
        Emit(Store(r, r));
        PutTwice(old(instrs), insertPoint, [CallAlloc(r, size.value, 64)], [Store(r, r)]);
        assert [CallAlloc(r, size.value, 64)] + [Store(r, r)] == [CallAlloc(r, size.value, 64), Store(r, r)];
        values := Emplace(values, r, Reg(r));
      case ConstantIntOp(r, n, _) =>
        values := Emplace(values, r, ConstInt(n));
      case ConstantFloatOp(r, code, _) =>
        values := Emplace(values, r, ConstFloat(code));
      case BinaryOp(r, kind, lhs, rhs, ty) =>
        if lhs !in values || rhs !in values {
          return false;
        }
        Emit(Arith(r, ty.elementType == "f64", kind, values[lhs], values[rhs]));
        values := Emplace(values, r, Reg(r));
      case CompareOp(r, kind, lhs, rhs, ty) =>
        if lhs !in values || rhs !in values {
          return false;
        }
        Emit(Cmp(r, PredicateOf(ty.elementType == "f64", kind), values[lhs], values[rhs]));
        values := Emplace(values, r, Reg(r));
      case PhiOp(r, ty, incoming) =>
        if !HasTargetType(ty) || |incoming| > PHI_LIMIT {
          return false;
        }
        values := Emplace(values, r, Reg(r));
        var inputs;
        ok, inputs := AddIncoming(blocks, incoming);
        if ok {
          Emit(Phi(r, inputs));
        }
      case _ => ok := false;
    }

    method AddIncoming(blocks: seq<BasicBlock>, incoming: seq<PhiIncoming>) returns (ok: bool, inputs: seq<PhiInput>)
      requires Labelled(blocks)
      ensures ok <==> LowerIncoming(blocks, values, incoming).Some?
      ensures ok ==> inputs == LowerIncoming(blocks, values, incoming).value
    {
      inputs := [];
      assert incoming[0..] == incoming;
      for k := 0 to |incoming|
        invariant LowerIncoming(blocks, values, incoming).Some? <==> LowerIncoming(blocks, values, incoming[k..]).Some?
        invariant LowerIncoming(blocks, values, incoming).Some? ==>
          LowerIncoming(blocks, values, incoming).value == inputs + LowerIncoming(blocks, values, incoming[k..]).value
      {
        assert incoming[k..][0] == incoming[k] && incoming[k..][1..] == incoming[k + 1..];
        assert Index(blocks, incoming[k].predecessor).Some? <==> incoming[k].predecessor in labels;
        if incoming[k].value !in values || incoming[k].predecessor !in labels {
          return false, inputs;
        }
        inputs := inputs + [PhiInput(values[incoming[k].value], labels[incoming[k].predecessor])];
      }
      ok := true;
    }

    method LowerExit(blocks: seq<BasicBlock>, t: Terminator) returns (ok: bool)
      requires Labelled(blocks) && insertPoint < |instrs| == |exits|
      modifies this`instrs, this`exits
      ensures match LowerTerminator(blocks, values, cleanup(cleanupSlots), t)
        case None => !ok
        case Some((last, exit)) =>
          && ok && instrs == Put(old(instrs), insertPoint, last)
          && exits == old(exits)[insertPoint := Some(exit)]
    {
      PutNothing(instrs, insertPoint);
      match t
      case BranchOp(b) =>
        assert Index(blocks, b).Some? <==> b in labels;
        ok := b in labels;
        if ok {
          exits := exits[insertPoint := Some(Br(labels[b]))];
        }
      case CondBranchOp(c, b, e) =>
        assert Index(blocks, b).Some? <==> b in labels;
        assert Index(blocks, e).Some? <==> e in labels;
        ok := c in values && b in labels && e in labels;
        if ok {
          exits := exits[insertPoint := Some(CondBr(values[c], labels[b], labels[e]))];
        }
      case ReturnOp(v) =>
        ok := v in values;
        if ok {
          EmitFrees(cleanup(cleanupSlots));
          exits := exits[insertPoint := Some(RetTrunc(values[v]))];
        }
    }

    method EmitFrees(order: seq<ValueId>)
      requires insertPoint < |instrs|
      modifies this`instrs
      ensures instrs == Put(old(instrs), insertPoint, Frees(order))
    {
      assert order[0..] == order;
      ghost var done: seq<Instr> := [];
      PutNothing(instrs, insertPoint);
      for i := 0 to |order|
        invariant |instrs| == |old(instrs)| && instrs == Put(old(instrs), insertPoint, done)
        invariant done + Frees(order[i..]) == Frees(order)
      {
        assert order[i..][0] == order[i] && order[i..][1..] == order[i + 1..];
        Emit(CallFree(order[i]));
        PutTwice(old(instrs), insertPoint, done, [CallFree(order[i])]);
        done := done + [CallFree(order[i])];
      }
      assert order[|order|..] == [] && done == Frees(order);
    }
  }

  lemma FirstReturn(m: Module, b: nat)
    requires b < |m.blocks| && Returns(m.blocks[b]) && forall a :: 0 <= a < b ==> !Returns(m.blocks[a])
    ensures ReturnsI64(m) <==> DefinedAs(m, m.blocks[b].terminator.value.value, I64)
  {
    hide DefinedAs;
  }

  lemma NoSlots(code: seq<seq<Instr>>, b: nat, ops: seq<Operation>)
    requires b < |code|
    ensures Put(code, b, Prologue([])) == code && [] + OpSlots(ops[0..]) == OpSlots(ops) && SlotSet([]) == {}
  {
    PutNothing(code, b);
    assert ops[0..] == ops;
  }

  lemma SlotsStep(ops: seq<Operation>, i: nat, done: seq<ValueId>)
    requires i < |ops|
    ensures SlotSet(done + [ops[i].result]) == SlotSet(done) + {ops[i].result}
    ensures done + OpSlots(ops[i..]) ==
      (if ops[i].TensorDeclOp? then done + [ops[i].result] else done) + OpSlots(ops[i + 1..])
  {
    assert ops[i..][0] == ops[i] && ops[i..][1..] == ops[i + 1..];
  }

  lemma AllSlots(ops: seq<Operation>, done: seq<ValueId>)
    requires done + OpSlots(ops[|ops|..]) == OpSlots(ops)
    ensures done == OpSlots(ops)
  {
    assert ops[|ops|..] == [];
  }

  lemma ReturnExists(m: Module)
    requires WellFormedModule(m)
    ensures UniqueResults(m) && exists b :: 0 <= b < |m.blocks| && Returns(m.blocks[b])
  {
  }

  lemma OntoNothing(rest: Option<(seq<Instr>, Operands)>)
    ensures OntoOps([], rest) == rest
  {
    if rest.Some? {
      assert [] + rest.value.0 == rest.value.0;
    }
  }

  lemma OntoAssociative(a: seq<Instr>, b: seq<Instr>, rest: Option<(seq<Instr>, Operands)>)
    ensures OntoOps(a, OntoOps(b, rest)) == OntoOps(a + b, rest)
  {
    if rest.Some? {
      assert a + (b + rest.value.0) == (a + b) + rest.value.0;
    }
  }

  lemma {:induction false} PrologueConcat(a: seq<ValueId>, b: seq<ValueId>)
    ensures Prologue(a + b) == Prologue(a) + Prologue(b)
    decreases |a|
  {
    if a == [] {
      assert a + b == b;
    } else {
      assert (a + b)[1..] == a[1..] + b;
      PrologueConcat(a[1..], b);
    }
  }

  lemma OntoEmpty(rest: Option<Function>)
    ensures Onto([], rest) == rest
  {
    if rest.Some? {
      assert [] + rest.value == rest.value;
    }
  }

  lemma OntoMore(done: Function, block: Block, rest: Option<Function>)
    ensures Onto(done, Onto([block], rest)) == Onto(done + [block], rest)
  {
    if rest.Some? {
      assert done + ([block] + rest.value) == (done + [block]) + rest.value;
    }
  }

  /** `v` is defined with type `ty` at a position visited before operation `i` of block `b`. */
  ghost predicate DefinedWithin(m: Module, v: ValueId, ty: TensorType, b: nat, i: nat) {
    exists p :: DefinesTyped(m, p, v, ty) && IRVerifier.Visited(p, b, i)
  }

  predicate Typed(types: map<ValueId, TensorType>, v: ValueId, ty: TensorType) {
    v in types && types[v] == ty
  }

  /** `types` gives every value defined before operation `i` of block `b` its type. */
  ghost predicate TypesAre(types: map<ValueId, TensorType>, m: Module, b: nat, i: nat) {
    forall v: ValueId, ty :: Typed(types, v, ty) <==> DefinedWithin(m, v, ty, b, i)
  }

  lemma TypesNext(types: map<ValueId, TensorType>, m: Module, b: nat, i: nat)
    requires UniqueResults(m) && b < |m.blocks| && i < |m.blocks[b].operations| && TypesAre(types, m, b, i)
    ensures var op := m.blocks[b].operations[i]; TypesAre(types[op.result := TypeOf(op)], m, b, i + 1)
  {
    var op, q := m.blocks[b].operations[i], Position(b, i);
    var types' := types[op.result := TypeOf(op)];
    assert DefinesTyped(m, q, op.result, TypeOf(op)) && IRVerifier.Visited(q, b, i + 1);
    forall v: ValueId, ty ensures Typed(types', v, ty) <==> DefinedWithin(m, v, ty, b, i + 1) {
      if DefinedWithin(m, v, ty, b, i + 1) {
        var p :| DefinesTyped(m, p, v, ty) && IRVerifier.Visited(p, b, i + 1);
        if v == op.result {
          assert OpAt(m.blocks, p).result == OpAt(m.blocks, q).result;
        } else {
          assert p != q && IRVerifier.Visited(p, b, i);
          assert DefinedWithin(m, v, ty, b, i);
        }
      }
      if v != op.result && Typed(types, v, ty) {
        assert DefinedWithin(m, v, ty, b, i);
        var p :| DefinesTyped(m, p, v, ty) && IRVerifier.Visited(p, b, i);
        assert IRVerifier.Visited(p, b, i + 1);
      }
    }
  }

  lemma DefinedBlock(m: Module, b: nat)
    requires b < |m.blocks|
    ensures forall v, ty :: DefinedWithin(m, v, ty, b, |m.blocks[b].operations|) <==> DefinedWithin(m, v, ty, b + 1, 0)
  {
    forall v, ty ensures DefinedWithin(m, v, ty, b, |m.blocks[b].operations|) <==> DefinedWithin(m, v, ty, b + 1, 0) {
      if DefinedWithin(m, v, ty, b, |m.blocks[b].operations|) {
        var p :| DefinesTyped(m, p, v, ty) && IRVerifier.Visited(p, b, |m.blocks[b].operations|);
        assert IRVerifier.Visited(p, b + 1, 0);
      }
      if DefinedWithin(m, v, ty, b + 1, 0) {
        var p :| DefinesTyped(m, p, v, ty) && IRVerifier.Visited(p, b + 1, 0);
        assert IRVerifier.Visited(p, b, |m.blocks[b].operations|);
      }
    }
  }
}
