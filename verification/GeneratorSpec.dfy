/** IR generation as a function of the generator's state. The class in IRGenerator.dfy is proved to
    compute exactly this, and the theorems about generated modules are stated on it. */
module GeneratorSpec {
  import opened Prelude
  import opened Ast
  import opened IR

  datatype ValueInfo = ValueInfo(value: ValueId, ty: TensorType)

  type Environment = map<string, ValueInfo>

  /** `order(b, names)` is the order in which the hash map iteration that fills block `b` meets `names`. */
  type Order = (BlockId, set<string>) -> seq<string>

  datatype State = State(blocks: seq<BasicBlock>, values: Environment, nextValue: ValueId, current: Option<BlockId>)

  /** The generator's surroundings: the analyzer's final symbol types and the iteration orders. */
  datatype Context = Context(symbols: map<string, TensorType>, order: Order)

  ghost predicate ValidOrder(order: Order) {
    forall b, keys :: IsEnumeration(order(b, keys), keys)
  }

  predicate Live(s: State) {
    s.current.Some? && s.current.value < |s.blocks|
  }

  predicate Valid(s: State) {
    s.current.Some? ==> s.current.value < |s.blocks|
  }

  function OpenBlock(id: BlockId, name: string): BasicBlock {
    BasicBlock(id, name, [], None)
  }

  function Append(block: BasicBlock, op: Operation): BasicBlock {
    block.(operations := block.operations + [op])
  }

  function Terminate(blocks: seq<BasicBlock>, b: BlockId, t: Terminator): seq<BasicBlock>
    requires b < |blocks|
  {
    blocks[b := blocks[b].(terminator := Some(t))]
  }

  /** Append `op`, whose result is the next fresh value, to the current block. */
  function Emit(s: State, op: Operation): State
    requires Live(s)
  {
    s.(blocks := s.blocks[s.current.value := Append(s.blocks[s.current.value], op)], nextValue := s.nextValue + 1)
  }

  function GenExpr(s: State, e: Expr): (r: Option<(State, ValueInfo)>)
    requires Live(s)
    ensures r.Some? ==> var s' := r.value.0;
      Live(s') && s'.current == s.current && s'.values == s.values && |s'.blocks| == |s.blocks|
        && s.nextValue <= s'.nextValue
    decreases e
  {
    match e
    case Ident(name) => if name in s.values then Some((s, s.values[name])) else None
    case IntLit(n) => Some((Emit(s, ConstantIntOp(s.nextValue, n, I64)), ValueInfo(s.nextValue, I64)))
    case FloatLit(code) => Some((Emit(s, ConstantFloatOp(s.nextValue, code, F64)), ValueInfo(s.nextValue, F64)))
    case Call(callee, args) =>
      if callee == "relu" && |args| == 1 then
        match GenExpr(s, args[0])
        case None => None
        case Some((s1, a)) => Some((Emit(s1, ReluOp(s1.nextValue, a.value, a.ty)), ValueInfo(s1.nextValue, a.ty)))
      else if callee == "matmul" && |args| == 2 then
        match GenExpr(s, args[0]) {
          case None => None
          case Some((s1, a)) =>
            match GenExpr(s1, args[1]) {
              case None => None
              case Some((s2, b)) =>
                if |a.ty.shape| < 1 || |b.ty.shape| < 2 then None
                else
                  var ty := TensorType(a.ty.elementType, [a.ty.shape[0], b.ty.shape[1]]);
                  Some((Emit(s2, MatMulOp(s2.nextValue, a.value, b.value, ty)), ValueInfo(s2.nextValue, ty)))
            }
        }
      else None
    case Binary(op, lhs, rhs) =>
      match GenExpr(s, lhs) {
        case None => None
        case Some((s1, a)) =>
          match GenExpr(s1, rhs) {
            case None => None
            case Some((s2, b)) =>
              if a.ty != b.ty then None
              else if op.IsArithmetic() then
                Some((Emit(s2, BinaryOp(s2.nextValue, op, a.value, b.value, a.ty)), ValueInfo(s2.nextValue, a.ty)))
              else
                Some((Emit(s2, CompareOp(s2.nextValue, op, a.value, b.value, a.ty)), ValueInfo(s2.nextValue, I1)))
          }
      }
  }

  /** The two blocks of a conditional, with the condition block ending in a branch to them. */
  function OpenBranches(s: State, condition: ValueId): (s': State)
    requires Live(s)
    ensures Live(s')
  {
    var t := |s.blocks|;
    s.(blocks := Terminate(s.blocks, s.current.value, CondBranchOp(condition, t, t + 1))
                 + [OpenBlock(t, "if.then"), OpenBlock(t + 1, "if.else")],
       current := Some(t))
  }

  /** A fresh block that every live end of a conditional now branches to. */
  function OpenMerge(s: State, thenEnd: Option<BlockId>, elseEnd: Option<BlockId>): (s': State)
    requires thenEnd.Some? ==> thenEnd.value < |s.blocks|
    requires elseEnd.Some? ==> elseEnd.value < |s.blocks|
    ensures Live(s') && |s'.blocks| == |s.blocks| + 1
  {
    var m := |s.blocks|;
    var b0 := s.blocks + [OpenBlock(m, "if.end")];
    var b1 := if thenEnd.Some? then Terminate(b0, thenEnd.value, BranchOp(m)) else b0;
    var b2 := if elseEnd.Some? then Terminate(b1, elseEnd.value, BranchOp(m)) else b1;
    s.(blocks := b2, current := Some(m))
  }

  /** The phi loop: `names` of the then-environment are merged with the else-environment one by one. */
  function MergeNames(s: State, names: seq<string>, thenEnd: BlockId, elseEnd: BlockId,
                      thenValues: Environment, elseValues: Environment): (r: Option<State>)
    requires Live(s)
    ensures r.Some? ==>
      Live(r.value) && r.value.current == s.current && |r.value.blocks| == |s.blocks|
        && s.nextValue <= r.value.nextValue
    decreases |names|
  {
    if names == [] then Some(s)
    else
      var n, rest := names[0], names[1..];
      if n !in thenValues || n !in elseValues then MergeNames(s, rest, thenEnd, elseEnd, thenValues, elseValues)
      else
        var a, b := thenValues[n], elseValues[n];
        if a.ty != b.ty then None
        else if a.value == b.value then
          MergeNames(s.(values := s.values[n := a]), rest, thenEnd, elseEnd, thenValues, elseValues)
        else
          var phi := PhiOp(s.nextValue, a.ty, [PhiIncoming(thenEnd, a.value), PhiIncoming(elseEnd, b.value)]);
          var s1 := Emit(s, phi).(values := s.values[n := ValueInfo(s.nextValue, a.ty)]);
          MergeNames(s1, rest, thenEnd, elseEnd, thenValues, elseValues)
  }

  /** What follows the two branches of a conditional. */
  function Join(order: Order, s: State, before: Environment, thenEnd: Option<BlockId>, elseEnd: Option<BlockId>,
                thenValues: Environment, elseValues: Environment): (r: Option<State>)
    requires thenEnd.Some? ==> thenEnd.value < |s.blocks|
    requires elseEnd.Some? ==> elseEnd.value < |s.blocks|
    ensures r.Some? ==> Valid(r.value) && |s.blocks| <= |r.value.blocks| && s.nextValue <= r.value.nextValue
  {
    if thenEnd.None? && elseEnd.None? then
      Some(s.(current := None, values := before))
    else
      var s1 := OpenMerge(s, thenEnd, elseEnd);
      if thenEnd.None? then Some(s1.(values := elseValues))
      else if elseEnd.None? then Some(s1.(values := thenValues))
      else
        MergeNames(s1.(values := map[]), order(|s.blocks|, thenValues.Keys),
                   thenEnd.value, elseEnd.value, thenValues, elseValues)
  }

  function GenStmt(ctx: Context, s: State, stmt: Stmt): (r: Option<State>)
    requires Live(s)
    ensures r.Some? ==> Valid(r.value) && |s.blocks| <= |r.value.blocks| && s.nextValue <= r.value.nextValue
    decreases stmt
  {
    match stmt
    case TensorDecl(name, _) =>
      if name !in ctx.symbols || name in s.values then None
      else
        var ty := ctx.symbols[name];
        Some(Emit(s, TensorDeclOp(s.nextValue, name, ty)).(values := s.values[name := ValueInfo(s.nextValue, ty)]))
    case Assign(target, e) =>
      (match GenExpr(s, e)
       case None => None
       case Some((s1, a)) => Some(s1.(values := s1.values[target := a])))
    case Return(e) =>
      (match GenExpr(s, e)
       case None => None
       case Some((s1, a)) =>
         Some(s1.(blocks := Terminate(s1.blocks, s1.current.value, ReturnOp(a.value)), current := None)))
    case If(cond, thn, els) =>
      match GenExpr(s, cond)
      case None => None
      case Some((s1, c)) =>
        if c.ty != I1 then None
        else
          match GenStmts(ctx, OpenBranches(s1, c.value), thn)
          case None => None
          case Some(s2) =>
            match GenStmts(ctx, s2.(current := Some(|s1.blocks| + 1), values := s1.values), els)
            case None => None
            case Some(s3) => Join(ctx.order, s3, s1.values, s2.current, s3.current, s2.values, s3.values)
  }

  /** A branch: statements after a finished path are skipped. */
  function GenStmts(ctx: Context, s: State, ss: seq<Stmt>): (r: Option<State>)
    requires Valid(s)
    ensures r.Some? ==> Valid(r.value) && |s.blocks| <= |r.value.blocks| && s.nextValue <= r.value.nextValue
    decreases ss
  {
    if ss == [] || s.current.None? then Some(s)
    else
      match GenStmt(ctx, s, ss[0])
      case None => None
      case Some(s1) => GenStmts(ctx, s1, ss[1..])
  }

  /** The whole program: a statement after a finished path is an error. */
  function GenTop(ctx: Context, s: State, ss: seq<Stmt>): (r: Option<State>)
    requires Valid(s)
    ensures r.Some? ==> Valid(r.value)
    decreases ss
  {
    if ss == [] then Some(s)
    else if s.current.None? then None
    else
      match GenStmt(ctx, s, ss[0])
      case None => None
      case Some(s1) => GenTop(ctx, s1, ss[1..])
  }

  const INITIAL := State([OpenBlock(0, "entry")], map[], 0, Some(0))

  /** The module built before the final verification, when no step throws. */
  function Build(ctx: Context, p: Program): Option<Module> {
    match GenTop(ctx, INITIAL, p)
    case None => None
    case Some(s) =>
      if s.current.Some? && s.blocks[s.current.value].terminator.None? then None
      else Some(Module(0, s.blocks))
  }
}
