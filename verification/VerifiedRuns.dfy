/** What verification buys, for any module, cyclic ones included: in a module that verifies and whose definitions
    dominate
    their uses, no run reads a missing value, misapplies an operator, branches on anything but a boolean, jumps to a
    missing or ambiguous block, or returns a value of a second type. */
module VerifiedRuns {
  import opened Prelude
  import opened Ast
  import opened Values
  import opened IR
  import opened IRSemantics
  import opened Certificate
  import opened WellFormed
  import opened GeneratorSpec
  import opened GeneratedModule

  /** Where a run stands: before operation `pc` of the block at position `b`, having come from block `prev`. */
  datatype Config = Config(b: nat, pc: nat, prev: Option<BlockId>, regs: Regs)

  datatype Move = Within(regs: Regs) | Jumps(target: BlockId) | Ends(end: Final)

  function Next(interp: Interp, m: Module, c: Config): Move
    requires c.b < |m.blocks| && c.pc <= |m.blocks[c.b].operations|
  {
    var block := m.blocks[c.b];
    if c.pc < |block.operations| then
      match EvalOp(interp, block.operations[c.pc], c.prev, c.regs)
      case Ok(v) => Within(c.regs[block.operations[c.pc].result := v])
      case Trap => Ends(Trapped)
      case Stuck => Ends(Wrong)
    else
      match block.terminator
      case Some(BranchOp(t)) => Jumps(t)
      case Some(CondBranchOp(v, t, e)) =>
        if v in c.regs && c.regs[v].BoolV? then Jumps(if c.regs[v].b then t else e) else Ends(Wrong)
      case Some(ReturnOp(v)) => Ends(if v in c.regs then Returned(c.regs[v]) else Wrong)
      case None => Ends(Wrong)
  }

  predicate InModule(m: Module, c: Config) {
    c.b < |m.blocks| && c.pc <= |m.blocks[c.b].operations|
  }

  /** `c'` can be the next place after `c`; a jump goes to any block of the id. */
  predicate Follows(interp: Interp, m: Module, c: Config, c': Config) {
    && InModule(m, c) && InModule(m, c')
    && match Next(interp, m, c)
       case Within(regs) => c' == c.(pc := c.pc + 1, regs := regs)
       case Jumps(t) => m.blocks[c'.b].id == t && c' == Config(c'.b, 0, Some(m.blocks[c.b].id), c.regs)
       case Ends(_) => false
  }

  predicate Starts(m: Module, c: Config) {
    InModule(m, c) && m.blocks[c.b].id == m.entry && c == Config(c.b, 0, None, map[])
  }

  /** A run, up to some point. */
  ghost predicate IsRun(interp: Interp, m: Module, run: seq<Config>) {
    && run != [] && Starts(m, run[0])
    && forall k :: 0 < k < |run| ==> Follows(interp, m, run[k - 1], run[k])
  }

  /** A walk from the entry along edges, block ids being what edges name. */
  ghost predicate IsWalk(m: Module, path: seq<nat>) {
    && path != [] && (forall k :: 0 <= k < |path| ==> path[k] < |m.blocks|) && m.blocks[path[0]].id == m.entry
    && forall k :: 0 < k < |path| ==> HasEdge(m.blocks[path[k - 1]], m.blocks[path[k]].id)
  }

  /** Having walked `path`, everything its last block reads has been computed where it is read, and so has, at its end,
      everything that a phi selects on coming from it. */
  ghost predicate Supplied(m: Module, path: seq<nat>)
    requires IsWalk(m, path)
  {
    var b := Last(path);
    var ops := m.blocks[b].operations;
    && (forall i, v :: 0 <= i < |ops| && v in Operands(ops[i]) ==> Computed(m.blocks, path, i, v))
    && (m.blocks[b].terminator.Some? ==> forall v :: v in TerminatorOperands(m.blocks[b].terminator.value) ==>
          Computed(m.blocks, path, |ops|, v))
    && (forall d: nat, i: nat, k: nat :: Selected(m, d, i, k, m.blocks[b].id) ==>
          Computed(m.blocks, path, |ops|, m.blocks[d].operations[i].incoming[k].value))
  }

  /** Operation `i` of the block at `d` is a phi whose operand `k` is for block `from`. */
  predicate Selected(m: Module, d: nat, i: nat, k: nat, from: BlockId) {
    && d < |m.blocks| && i < |m.blocks[d].operations| && m.blocks[d].operations[i].PhiOp?
    && k < |m.blocks[d].operations[i].incoming| && m.blocks[d].operations[i].incoming[k].predecessor == from
  }

  ghost predicate Dominated(m: Module) {
    forall path :: IsWalk(m, path) ==> Supplied(m, path)
  }

  /** Constants, declarations and operators at the types the language gives them; no call, and no phi at the entry. */
  predicate Natural(m: Module, op: Operation, entry: bool) {
    match op
    case TensorDeclOp(_, _, ty) => ty.shape != []
    case ConstantIntOp(_, _, ty) => ty == I64
    case ConstantFloatOp(_, _, ty) => ty == F64
    case BinaryOp(_, _, _, _, ty) => ty in {I64, F64}
    case CompareOp(_, _, _, _, ty) => ty in {I64, F64}
    case PhiOp(_, _, _) => !entry
    case _ => false
  }

  ghost predicate NaturalModule(m: Module) {
    forall b, i :: 0 <= b < |m.blocks| && 0 <= i < |m.blocks[b].operations| ==>
      Natural(m, m.blocks[b].operations[i], m.blocks[b].id == m.entry)
  }

  ghost predicate RegsTyped(m: Module, regs: Regs) {
    forall v :: v in regs ==> exists ty :: DefinedAs(m, v, ty) && HasType(regs[v], ty)
  }

  /** What holds wherever a run stands after a walk. */
  ghost predicate Sound(m: Module, path: seq<nat>, c: Config) {
    && IsWalk(m, path) && InModule(m, c) && c.b == Last(path) && RegsTyped(m, c.regs)
    && (forall v :: Computed(m.blocks, path, c.pc, v) ==> v in c.regs)
    && c.prev == if |path| == 1 then None else Some(m.blocks[path[|path| - 2]].id)
  }

  ghost predicate Checked(m: Module) {
    WellFormedModule(m) && Dominated(m) && NaturalModule(m)
  }

  /** Every definition of a value has the same type. */
  lemma OneType(m: Module, v: ValueId, s: TensorType, t: TensorType)
    requires UniqueResults(m) && DefinedAs(m, v, s) && DefinedAs(m, v, t)
    ensures s == t
  {
    var p :| DefinesTyped(m, p, v, s);
    var q :| DefinesTyped(m, q, v, t);
    assert p == q;
  }

  lemma TypedValue(m: Module, regs: Regs, v: ValueId, ty: TensorType)
    requires UniqueResults(m) && RegsTyped(m, regs) && v in regs && DefinedAs(m, v, ty)
    ensures HasType(regs[v], ty)
  {
    var t :| DefinedAs(m, v, t) && HasType(regs[v], t);
    OneType(m, v, t, ty);
  }

  lemma OperandDefined(m: Module, v: ValueId, ty: TensorType, b: BlockId, i: nat)
    requires Operand(m, v, ty, b, i)
    ensures DefinedAs(m, v, ty)
  {
  }

  lemma ComputedLonger(m: Module, path: seq<nat>, b: nat, v: ValueId)
    requires path != [] && Last(path) < |m.blocks|
    requires Computed(m.blocks, path, |m.blocks[Last(path)].operations|, v)
    ensures forall i: nat :: Computed(m.blocks, path + [b], i, v)
  {
    var k, j :| ComputedAt(m.blocks, path, |m.blocks[Last(path)].operations|, v, k, j);
    forall i: nat ensures Computed(m.blocks, path + [b], i, v) {
      assert ComputedAt(m.blocks, path + [b], i, v, k, j);
    }
  }

  /** An operation that is not a phi finds its operands, and they have its types. */
  lemma OperationSafe(interp: Interp, m: Module, path: seq<nat>, c: Config)
    requires Checked(m) && Sound(m, path, c) && c.pc < |m.blocks[c.b].operations|
    requires !m.blocks[c.b].operations[c.pc].PhiOp?
    ensures var op := m.blocks[c.b].operations[c.pc];
      var r := EvalOp(interp, op, c.prev, c.regs);
      !r.Stuck? && (r.Ok? ==> HasType(r.value, TypeOf(op)))
  {
    hide WellFormedModule, Dominated, Sound, Operand;
    InSound(m, path, c);
    var op := m.blocks[c.b].operations[c.pc];
    assert Natural(m, op, m.blocks[c.b].id == m.entry);
    OperationChecked(m, c.b, c.pc);
    if op.BinaryOp? || op.CompareOp? {
      var ty := if op.BinaryOp? then op.ty else op.operandType;
      OperandSafe(m, path, c, op.lhs, ty);
      OperandSafe(m, path, c, op.rhs, ty);
    }
  }

  lemma OperationChecked(m: Module, b: nat, i: nat)
    requires WellFormedModule(m) && b < |m.blocks| && i < |m.blocks[b].operations|
    ensures OperationOk(m, m.blocks[b].id, i, m.blocks[b].operations[i])
  {
    hide OperationOk;
  }

  /** An operand is there, with the type that was checked. */
  lemma OperandSafe(m: Module, path: seq<nat>, c: Config, v: ValueId, ty: TensorType)
    requires WellFormedModule(m) && Dominated(m) && Sound(m, path, c) && c.pc < |m.blocks[c.b].operations|
    requires v in Operands(m.blocks[c.b].operations[c.pc]) && Operand(m, v, ty, m.blocks[c.b].id, c.pc)
    ensures v in c.regs && HasType(c.regs[v], ty)
  {
    hide Computed, HasType, UniqueBlocks, PhisFirst, TargetsExist, ConditionsOk, ReturnsOk, OperationsOk, HasBlock;
    assert Supplied(m, path);
    OperandDefined(m, v, ty, m.blocks[c.b].id, c.pc);
    TypedValue(m, c.regs, v, ty);
  }

  /** A phi, coming from a predecessor, finds the operand for it. */
  lemma PhiSafe(m: Module, path: seq<nat>, c: Config)
    requires Checked(m) && Sound(m, path, c) && c.pc < |m.blocks[c.b].operations|
    requires m.blocks[c.b].operations[c.pc].PhiOp?
    ensures var op := m.blocks[c.b].operations[c.pc];
      var r := PhiValue(op.incoming, c.prev, c.regs);
      r.Ok? && HasType(r.value, op.ty)
  {
    hide UniqueBlocks, PhisFirst, TargetsExist, ConditionsOk, ReturnsOk, AllTerminated, HasBlock, Computed;
    var op, n := m.blocks[c.b].operations[c.pc], |path| - 1;
    assert Natural(m, op, m.blocks[c.b].id == m.entry);
    assert OperationOk(m, m.blocks[c.b].id, c.pc, op);
    assert 0 < n;
    var before := path[..n];
    var from := m.blocks[Last(before)].id;
    assert HasEdge(m.blocks[path[n - 1]], m.blocks[path[n]].id);
    assert from in Predecessors(m, m.blocks[c.b].id);
    assert from in IncomingBlocks(op.incoming);
    assert before + [c.b] == path;
    assert Supplied(m, before);
    forall k | 0 <= k < |op.incoming| && op.incoming[k].predecessor == from
      ensures op.incoming[k].value in c.regs && HasType(c.regs[op.incoming[k].value], op.ty)
    {
      assert Selected(m, c.b, c.pc, k, from);
      ComputedLonger(m, before, c.b, op.incoming[k].value);
      assert Computed(m.blocks, path, c.pc, op.incoming[k].value);
      OperandDefined(m, op.incoming[k].value, op.ty, m.blocks[c.b].id, c.pc);
      TypedValue(m, c.regs, op.incoming[k].value, op.ty);
    }
    PhiTaken(op.incoming, from, c.regs, op.ty);
  }

  lemma {:induction false} PhiTaken(incoming: seq<PhiIncoming>, from: BlockId, regs: Regs, ty: TensorType)
    requires exists k :: 0 <= k < |incoming| && incoming[k].predecessor == from
    requires forall k :: 0 <= k < |incoming| && incoming[k].predecessor == from ==>
      incoming[k].value in regs && HasType(regs[incoming[k].value], ty)
    ensures var r := PhiValue(incoming, Some(from), regs); r.Ok? && HasType(r.value, ty)
    decreases |incoming|
  {
    if incoming[0].predecessor != from {
      PhiTaken(incoming[1..], from, regs, ty);
    }
  }

  lemma StepSafe(interp: Interp, m: Module, path: seq<nat>, c: Config)
    requires Checked(m) && Sound(m, path, c) && c.pc < |m.blocks[c.b].operations|
    ensures var op := m.blocks[c.b].operations[c.pc];
      var r := EvalOp(interp, op, c.prev, c.regs);
      !r.Stuck? && (r.Ok? ==> HasType(r.value, TypeOf(op)))
  {
    if m.blocks[c.b].operations[c.pc].PhiOp? {
      PhiSafe(m, path, c);
    } else {
      OperationSafe(interp, m, path, c);
    }
  }

  /** After an operation the result is typed and the same walk has computed one value more. */
  lemma StepSound(interp: Interp, m: Module, path: seq<nat>, c: Config)
    requires Checked(m) && Sound(m, path, c) && c.pc < |m.blocks[c.b].operations|
    requires EvalOp(interp, m.blocks[c.b].operations[c.pc], c.prev, c.regs).Ok?
    ensures var v := EvalOp(interp, m.blocks[c.b].operations[c.pc], c.prev, c.regs).value;
      Sound(m, path, c.(pc := c.pc + 1, regs := c.regs[m.blocks[c.b].operations[c.pc].result := v]))
  {
    StepSafe(interp, m, path, c);
    hide Checked, IsWalk, HasType, EvalOp;
    var op := m.blocks[c.b].operations[c.pc];
    var v := EvalOp(interp, op, c.prev, c.regs).value;
    DefinedHere(m, c.b, c.pc);
    RegsNext(m, c.regs, op.result, TypeOf(op), v);
    hide RegsTyped, DefinedAs, Computed;
    ComputedNext(m, path, c.pc);
  }

  lemma ComputedNext(m: Module, path: seq<nat>, i: nat)
    requires path != [] && Last(path) < |m.blocks| && i < |m.blocks[Last(path)].operations|
    ensures forall v: ValueId :: Computed(m.blocks, path, i + 1, v) ==>
      v == m.blocks[Last(path)].operations[i].result || Computed(m.blocks, path, i, v)
  {
    var next := i + 1;
    forall v: ValueId | Computed(m.blocks, path, next, v)
      ensures v == m.blocks[Last(path)].operations[i].result || Computed(m.blocks, path, i, v)
    {
      var k: nat, j: nat :| ComputedAt(m.blocks, path, next, v, k, j);
      if k < |path| - 1 || j < i {
        assert ComputedAt(m.blocks, path, i, v, k, j);
      }
    }
  }

  lemma RegsNext(m: Module, regs: Regs, v: ValueId, ty: TensorType, val: Val)
    requires RegsTyped(m, regs) && DefinedAs(m, v, ty) && HasType(val, ty)
    ensures RegsTyped(m, regs[v := val])
  {
    hide DefinedAs, HasType;
    var regs' := regs[v := val];
    forall u | u in regs' ensures exists t :: DefinedAs(m, u, t) && HasType(regs'[u], t) {
      if u == v {
        assert DefinedAs(m, u, ty) && HasType(regs'[u], ty);
      }
    }
  }

  lemma DefinedHere(m: Module, b: nat, i: nat)
    requires b < |m.blocks| && i < |m.blocks[b].operations|
    ensures DefinedAs(m, m.blocks[b].operations[i].result, TypeOf(m.blocks[b].operations[i]))
  {
    var p := Position(b, i);
    assert DefinesTyped(m, p, OpAt(m.blocks, p).result, TypeOf(OpAt(m.blocks, p)));
  }

  /** Along an edge the walk grows by the block jumped to, which starts with everything computed so far. */
  lemma JumpSound(m: Module, path: seq<nat>, c: Config, b: nat)
    requires Sound(m, path, c) && c.pc == |m.blocks[c.b].operations|
    requires b < |m.blocks| && HasEdge(m.blocks[c.b], m.blocks[b].id)
    ensures Sound(m, path + [b], Config(b, 0, Some(m.blocks[c.b].id), c.regs))
  {
    var longer := path + [b];
    forall k | 0 < k < |longer| ensures HasEdge(m.blocks[longer[k - 1]], m.blocks[longer[k]].id) {
      if k < |path| {
        assert HasEdge(m.blocks[path[k - 1]], m.blocks[path[k]].id);
      }
    }
    forall v | Computed(m.blocks, longer, 0, v) ensures v in c.regs {
      var k, j :| ComputedAt(m.blocks, longer, 0, v, k, j);
      assert ComputedAt(m.blocks, path, c.pc, v, k, j);
    }
  }

  /** At the end of a block: a condition is a boolean, and a returned value is there and has the module's return type.
      */
  lemma ExitSafe(m: Module, path: seq<nat>, c: Config, ty: TensorType)
    requires Checked(m) && Sound(m, path, c) && c.pc == |m.blocks[c.b].operations| && ReturnsAs(m, ty)
    ensures m.blocks[c.b].terminator.Some?
    ensures match m.blocks[c.b].terminator.value
      case BranchOp(_) => true
      case CondBranchOp(v, _, _) => v in c.regs && c.regs[v].BoolV?
      case ReturnOp(v) => v in c.regs && HasType(c.regs[v], ty)
  {
    hide UniqueBlocks, PhisFirst, OperationsOk, Computed, HasBlock, TargetsExist, ReturnsOk;
    assert Supplied(m, path);
    var t := m.blocks[c.b].terminator.value;
    match t
    case BranchOp(_) =>
    case CondBranchOp(v, _, _) =>
      assert v in TerminatorOperands(t);
      TypedValue(m, c.regs, v, I1);
    case ReturnOp(v) =>
      assert v in TerminatorOperands(t) && Returns(m.blocks[c.b]);
      TypedValue(m, c.regs, v, ty);
  }

  lemma StartSound(m: Module, c: Config)
    requires Starts(m, c)
    ensures Sound(m, [c.b], c)
  {
    assert forall v :: !Computed(m.blocks, [c.b], 0, v);
  }

  lemma FollowSound(interp: Interp, m: Module, path: seq<nat>, c: Config, c': Config) returns (path': seq<nat>)
    requires Checked(m) && Sound(m, path, c) && Follows(interp, m, c, c')
    ensures Sound(m, path', c')
  {
    hide Checked, Sound;
    if c.pc < |m.blocks[c.b].operations| {
      path' := path;
      StepSound(interp, m, path, c);
    } else {
      path' := path + [c'.b];
      JumpSound(m, path, c, c'.b);
    }
  }

  /** Every run follows a walk. */
  lemma {:induction false} RunSound(interp: Interp, m: Module, run: seq<Config>) returns (path: seq<nat>)
    requires Checked(m) && IsRun(interp, m, run)
    ensures Sound(m, path, run[|run| - 1])
    decreases |run|
  {
    hide Checked, Sound, Starts, Follows;
    var n := |run| - 1;
    if n == 0 {
      path := [run[0].b];
      StartSound(m, run[0]);
    } else {
      var before := RunSound(interp, m, run[..n]);
      path := FollowSound(interp, m, before, run[n - 1], run[n]);
    }
  }

  /** The verifier's guarantee: wherever a run of a verified module stands, it is not stuck; if it ends, it traps or
      returns a value of the module's one return type; if it is at a condition, that is a boolean; and if it jumps,
      there
      is exactly one place to go. */
  lemma VerifiedSafe(interp: Interp, m: Module, run: seq<Config>, ty: TensorType)
    requires Checked(m) && IsRun(interp, m, run) && ReturnsAs(m, ty)
    ensures var c := run[|run| - 1];
      && InModule(m, c)
      && match Next(interp, m, c)
         case Within(_) => exists c' :: Follows(interp, m, c, c')
         case Jumps(_) =>
           && (exists c' :: Follows(interp, m, c, c'))
           && (forall c', c'' :: Follows(interp, m, c, c') && Follows(interp, m, c, c'') ==> c' == c'')
         case Ends(end) => end == Trapped || (end.Returned? && HasType(end.value, ty))
  {
    var path := RunSound(interp, m, run);
    var c := run[|run| - 1];
    if c.pc < |m.blocks[c.b].operations| {
      StepSafe(interp, m, path, c);
      if Next(interp, m, c).Within? {
        assert Follows(interp, m, c, c.(pc := c.pc + 1, regs := Next(interp, m, c).regs));
      }
    } else {
      ExitSafe(m, path, c, ty);
      if Next(interp, m, c).Jumps? {
        JumpUnique(interp, m, c);
      }
    }
  }

  lemma JumpUnique(interp: Interp, m: Module, c: Config)
    requires WellFormedModule(m) && InModule(m, c) && Next(interp, m, c).Jumps?
    requires c.pc == |m.blocks[c.b].operations|
    ensures exists c' :: Follows(interp, m, c, c')
    ensures forall c', c'' :: Follows(interp, m, c, c') && Follows(interp, m, c, c'') ==> c' == c''
  {
    var t := Next(interp, m, c).target;
    assert t in Targets(m.blocks[c.b].terminator.value);
    assert HasBlock(m, t);
    var b :| 0 <= b < |m.blocks| && m.blocks[b].id == t;
    assert Follows(interp, m, c, Config(b, 0, Some(m.blocks[c.b].id), c.regs));
  }

  /** For modules that only jump forward, the same of the evaluator. */
  lemma {:induction false} ExecSafe(interp: Interp, m: Module, path: seq<nat>, c: Config, ty: TensorType)
    requires Checked(m) && Sound(m, path, c) && Forward(m.blocks) && ReturnsAs(m, ty)
    ensures var end := Exec(interp, m.blocks, c.b, c.pc, c.prev, c.regs);
      end == Trapped || (end.Returned? && HasType(end.value, ty))
    decreases |m.blocks| - c.b, |m.blocks[c.b].operations| - c.pc
  {
    hide Checked, Sound, HasType, ReturnsAs, EvalOp;
    InSound(m, path, c);
    if c.pc < |m.blocks[c.b].operations| {
      StepSafe(interp, m, path, c);
      var op := m.blocks[c.b].operations[c.pc];
      var r := EvalOp(interp, op, c.prev, c.regs);
      if r.Ok? {
        StepSound(interp, m, path, c);
        ExecSafe(interp, m, path, c.(pc := c.pc + 1, regs := c.regs[op.result := r.value]), ty);
      }
    } else {
      ExitSafe(m, path, c, ty);
      var term := m.blocks[c.b].terminator.value;
      if !term.ReturnOp? {
        var t := if term.BranchOp? then term.target
                 else if c.regs[term.condition].b then term.trueTarget else term.falseTarget;
        assert t in Targets(term);
        JumpSound(m, path, c, t);
        ExecSafe(interp, m, path + [t], Config(t, 0, Some(c.b), c.regs), ty);
      }
    }
  }

  lemma InSound(m: Module, path: seq<nat>, c: Config)
    requires Sound(m, path, c)
    ensures InModule(m, c)
  {
  }

  lemma ForwardSafe(interp: Interp, m: Module, ty: TensorType)
    requires Checked(m) && Forward(m.blocks) && ReturnsAs(m, ty)
    ensures m.entry < |m.blocks|
    ensures var end := RunModule(interp, m); end == Trapped || (end.Returned? && HasType(end.value, ty))
  {
    var b :| 0 <= b < |m.blocks| && m.blocks[b].id == m.entry;
    var c := Config(b, 0, None, map[]);
    assert IsRun(interp, m, [c]);
    var path := RunSound(interp, m, [c]);
    ExecSafe(interp, m, path, c, ty);
  }

  /** Generated modules have the dominance that is asked for here. */
  lemma BuiltDominated(ctx: Context, p: Program)
    requires Build(ctx, p).Some?
    ensures Dominated(Build(ctx, p).value)
  {
    var m := Build(ctx, p).value;
    BuildForward(ctx, p);
    forall path | IsWalk(m, path) ensures Supplied(m, path) {
      WalkIsPath(m, path);
      Dominance(ctx, p, path);
      forall d: nat, i: nat, k: nat | Selected(m, d, i, k, m.blocks[Last(path)].id)
        ensures Computed(m.blocks, path, |m.blocks[Last(path)].operations|, m.blocks[d].operations[i].incoming[k].value)
      {
        PhiDominance(ctx, p, d, i, k, path);
      }
    }
  }

  lemma WalkIsPath(m: Module, path: seq<nat>)
    requires Forward(m.blocks) && m.entry == 0 && IsWalk(m, path)
    ensures IsPath(m.blocks, path) && m.blocks[Last(path)].id == Last(path)
  {
    forall k | 0 < k < |path| ensures HasEdge(m.blocks[path[k - 1]], path[k]) {
      assert m.blocks[path[k]].id == path[k];
    }
  }

  const ENTRY_PHI := Module(0, [BasicBlock(0, "entry", [PhiOp(0, I64, [])], Some(ReturnOp(0)))])

  /** A phi at the entry must be excluded: a module whose entry has one, for the predecessors it does not have, verifies
      and gets stuck. */
  lemma EntryPhiStuck(interp: Interp)
    ensures WellFormedModule(ENTRY_PHI) && Dominated(ENTRY_PHI)
    ensures Forward(ENTRY_PHI.blocks) && RunModule(interp, ENTRY_PHI) == Wrong
  {
    hide HasType;
    var m := ENTRY_PHI;
    DefinedHere(m, 0, 0);
    assert Predecessors(m, 0) == {} == IncomingBlocks([]);
    assert ReturnsAs(m, I64) && Returns(m.blocks[0]) && m.blocks[0].id == m.entry;
    forall path | IsWalk(m, path) ensures Supplied(m, path) {
      assert ComputedAt(m.blocks, path, 1, 0, |path| - 1, 0);
    }
  }
}
