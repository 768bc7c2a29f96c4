/** Exactly when generation succeeds. The generator throws for reasons that only concern names and types;
    `Flow` follows those alone, without values, blocks or iteration orders, and decides success. */
module GeneratorTypes {
  import opened Prelude
  import opened Ast
  import opened IR
  import opened GeneratorSpec

  type Types = map<string, TensorType>

  /** The names in scope with their types, and whether the path can still continue. */
  datatype Flow = Flow(types: Types, live: bool)

  function FlowExpr(types: Types, e: Expr): Option<TensorType> {
    match e
    case Ident(name) => if name in types then Some(types[name]) else None
    case IntLit(_) => Some(I64)
    case FloatLit(_) => Some(F64)
    case Call(callee, args) =>
      if callee == "relu" && |args| == 1 then FlowExpr(types, args[0])
      else if callee == "matmul" && |args| == 2 then
        match (FlowExpr(types, args[0]), FlowExpr(types, args[1])) {
          case (Some(a), Some(b)) =>
            if |a.shape| < 1 || |b.shape| < 2 then None else Some(TensorType(a.elementType, [a.shape[0], b.shape[1]]))
          case _ => None
        }
      else None
    case Binary(op, lhs, rhs) =>
      match (FlowExpr(types, lhs), FlowExpr(types, rhs)) {
        case (Some(a), Some(b)) => if a != b then None else if op.IsArithmetic() then Some(a) else Some(I1)
        case _ => None
      }
  }

  /** No name is bound in both with different types. */
  predicate Compatible(a: Types, b: Types) {
    forall n | n in a && n in b :: a[n] == b[n]
  }

  function Common(a: Types, b: Types): Types {
    map n | n in a && n in b :: a[n]
  }

  function FlowJoin(before: Types, thn: Flow, els: Flow): Option<Flow> {
    if !thn.live && !els.live then Some(Flow(before, false))
    else if !thn.live then Some(els)
    else if !els.live then Some(thn)
    else if Compatible(thn.types, els.types) then Some(Flow(Common(thn.types, els.types), true))
    else None
  }

  function FlowStmt(symbols: Types, types: Types, s: Stmt): Option<Flow>
    decreases s
  {
    match s
    case TensorDecl(name, _) =>
      if name !in symbols || name in types then None else Some(Flow(types[name := symbols[name]], true))
    case Assign(target, e) =>
      (match FlowExpr(types, e)
       case None => None
       case Some(ty) => Some(Flow(types[target := ty], true)))
    case Return(e) =>
      if FlowExpr(types, e).None? then None else Some(Flow(types, false))
    case If(cond, thn, els) =>
      if FlowExpr(types, cond) != Some(I1) then None
      else
        match (FlowStmts(symbols, Flow(types, true), thn), FlowStmts(symbols, Flow(types, true), els))
        case (Some(t), Some(e)) => FlowJoin(types, t, e)
        case _ => None
  }

  function FlowStmts(symbols: Types, f: Flow, ss: seq<Stmt>): Option<Flow>
    decreases ss
  {
    if ss == [] || !f.live then Some(f)
    else
      match FlowStmt(symbols, f.types, ss[0])
      case None => None
      case Some(f1) => FlowStmts(symbols, f1, ss[1..])
  }

  function FlowTop(symbols: Types, f: Flow, ss: seq<Stmt>): Option<Flow>
    decreases ss
  {
    if ss == [] then Some(f)
    else if !f.live then None
    else
      match FlowStmt(symbols, f.types, ss[0])
      case None => None
      case Some(f1) => FlowTop(symbols, f1, ss[1..])
  }

  /** Names and types flow through without a clash, and the last statement is the first to finish every path. */
  predicate Flows(symbols: Types, p: Program) {
    var f := FlowTop(symbols, Flow(map[], true), p);
    f.Some? && !f.value.live
  }

  function TypesOf(values: Environment): Types {
    map n | n in values :: values[n].ty
  }

  function FlowOf(s: State): Flow {
    Flow(TypesOf(s.values), s.current.Some?)
  }

  lemma {:induction false} ExprFlows(s: State, e: Expr)
    requires Live(s)
    ensures GenExpr(s, e).Some? <==> FlowExpr(TypesOf(s.values), e).Some?
    ensures GenExpr(s, e).Some? ==> FlowExpr(TypesOf(s.values), e) == Some(GenExpr(s, e).value.1.ty)
    decreases e
  {
    match e
    case Call(callee, args) =>
      if callee == "relu" && |args| == 1 {
        ExprFlows(s, args[0]);
      } else if callee == "matmul" && |args| == 2 {
        ExprFlows(s, args[0]);
        if GenExpr(s, args[0]).Some? {
          ExprFlows(GenExpr(s, args[0]).value.0, args[1]);
        }
      }
    case Binary(op, lhs, rhs) =>
      ExprFlows(s, lhs);
      if GenExpr(s, lhs).Some? {
        ExprFlows(GenExpr(s, lhs).value.0, rhs);
      }
    case _ =>
  }

  /** The phi loop binds exactly the common names it meets, and throws exactly on a type clash among them. */
  /** When an expression stops the generator, apart from its operands: a name that is not bound, operands of different
      types, a matrix product of too few dimensions, or any other call. */
  lemma ExprStops(s: State, e: Expr)
    requires Live(s)
    ensures e.Ident? ==> (GenExpr(s, e).Some? <==> e.name in s.values)
    ensures e.IntLit? || e.FloatLit? ==> GenExpr(s, e).Some?
    ensures e.Binary? ==> (GenExpr(s, e).Some? <==>
      && GenExpr(s, e.lhs).Some?
      && var (s1, a) := GenExpr(s, e.lhs).value;
      GenExpr(s1, e.rhs).Some? && a.ty == GenExpr(s1, e.rhs).value.1.ty)
    ensures e.Call? && e.callee == "relu" && |e.args| == 1 ==> (GenExpr(s, e).Some? <==> GenExpr(s, e.args[0]).Some?)
    ensures e.Call? && e.callee == "matmul" && |e.args| == 2 ==> (GenExpr(s, e).Some? <==>
      && GenExpr(s, e.args[0]).Some?
      && var (s1, a) := GenExpr(s, e.args[0]).value;
      GenExpr(s1, e.args[1]).Some? && 1 <= |a.ty.shape| && 2 <= |GenExpr(s1, e.args[1]).value.1.ty.shape|)
    ensures e.Call? && GenExpr(s, e).Some? ==>
      (e.callee == "relu" && |e.args| == 1) || (e.callee == "matmul" && |e.args| == 2)
  {
  }

  lemma {:induction false} MergeFlows(s: State, names: seq<string>, thenEnd: BlockId, elseEnd: BlockId,
                                      thenValues: Environment, elseValues: Environment)
    requires Live(s)
    ensures var r := MergeNames(s, names, thenEnd, elseEnd, thenValues, elseValues);
      && (r.Some? <==> forall n :: n in names && n in thenValues && n in elseValues ==>
          thenValues[n].ty == elseValues[n].ty)
      && (r.Some? ==>
            && (forall n :: n in r.value.values <==>
                n in s.values || (n in names && n in thenValues && n in elseValues))
            && forall n :: n in r.value.values ==>
              r.value.values[n].ty ==
              if n in names && n in thenValues && n in elseValues then thenValues[n].ty else s.values[n].ty)
    decreases |names|
  {
    if names != [] {
      var n, rest := names[0], names[1..];
      assert forall x :: x in names <==> x == n || x in rest;
      if n !in thenValues || n !in elseValues {
        MergeFlows(s, rest, thenEnd, elseEnd, thenValues, elseValues);
      } else if thenValues[n].ty == elseValues[n].ty {
        var a, b := thenValues[n], elseValues[n];
        if a.value == b.value {
          MergeFlows(s.(values := s.values[n := a]), rest, thenEnd, elseEnd, thenValues, elseValues);
        } else {
          var phi := PhiOp(s.nextValue, a.ty, [PhiIncoming(thenEnd, a.value), PhiIncoming(elseEnd, b.value)]);
          MergeFlows(Emit(s, phi).(values := s.values[n := ValueInfo(s.nextValue, a.ty)]), rest, thenEnd, elseEnd,
                     thenValues, elseValues);
        }
      }
    }
  }

  lemma CompatibleTypes(a: Environment, b: Environment)
    ensures Compatible(TypesOf(a), TypesOf(b)) <==> forall n :: n in a && n in b ==> a[n].ty == b[n].ty
  {
    if Compatible(TypesOf(a), TypesOf(b)) {
      forall n | n in a && n in b ensures a[n].ty == b[n].ty {
        assert n in TypesOf(a) && n in TypesOf(b);
      }
    }
  }

  lemma JoinFlows(order: Order, s: State, before: Environment, thenEnd: Option<BlockId>, elseEnd: Option<BlockId>,
                  thenValues: Environment, elseValues: Environment)
    requires ValidOrder(order)
    requires thenEnd.Some? ==> thenEnd.value < |s.blocks|
    requires elseEnd.Some? ==> elseEnd.value < |s.blocks|
    ensures var r := Join(order, s, before, thenEnd, elseEnd, thenValues, elseValues);
      var f := FlowJoin(TypesOf(before), Flow(TypesOf(thenValues), thenEnd.Some?),
                        Flow(TypesOf(elseValues), elseEnd.Some?));
      (r.Some? <==> f.Some?) && (r.Some? ==> f == Some(FlowOf(r.value)))
  {
    if thenEnd.Some? && elseEnd.Some? {
      var names := order(|s.blocks|, thenValues.Keys);
      assert IsEnumeration(names, thenValues.Keys);
      var m := OpenMerge(s, thenEnd, elseEnd).(values := map[]);
      MergeFlows(m, names, thenEnd.value, elseEnd.value, thenValues, elseValues);
      var r := MergeNames(m, names, thenEnd.value, elseEnd.value, thenValues, elseValues);
      CompatibleTypes(thenValues, elseValues);
      if r.Some? {
        assert TypesOf(r.value.values) == Common(TypesOf(thenValues), TypesOf(elseValues));
      }
    }
  }

  lemma {:induction false} StmtFlows(ctx: Context, s: State, stmt: Stmt)
    requires Live(s) && ValidOrder(ctx.order)
    ensures var r, f := GenStmt(ctx, s, stmt), FlowStmt(ctx.symbols, TypesOf(s.values), stmt);
      (r.Some? <==> f.Some?) && (r.Some? ==> f == Some(FlowOf(r.value)))
    decreases stmt
  {
    match stmt
    case TensorDecl(name, _) =>
      if name in ctx.symbols {
        var info := ValueInfo(s.nextValue, ctx.symbols[name]);
        assert TypesOf(s.values[name := info]) == TypesOf(s.values)[name := info.ty];
      }
    case Assign(target, e) =>
      ExprFlows(s, e);
      if GenExpr(s, e).Some? {
        var a := GenExpr(s, e).value.1;
        assert TypesOf(s.values[target := a]) == TypesOf(s.values)[target := a.ty];
      }
    case Return(e) => ExprFlows(s, e);
    case If(_, _, _) => IfFlows(ctx, s, stmt);
  }

  lemma {:induction false} IfFlows(ctx: Context, s: State, stmt: Stmt)
    requires stmt.If? && Live(s) && ValidOrder(ctx.order)
    ensures var r, f := GenStmt(ctx, s, stmt), FlowStmt(ctx.symbols, TypesOf(s.values), stmt);
      (r.Some? <==> f.Some?) && (r.Some? ==> f == Some(FlowOf(r.value)))
    decreases stmt, 1
  {
    hide GenExpr, FlowExpr, GenStmts, FlowStmts, Join, FlowJoin, OpenBranches, TypesOf;
    ExprFlows(s, stmt.cond);
    if GenExpr(s, stmt.cond).Some? && GenExpr(s, stmt.cond).value.1.ty == I1 {
      var (s1, c) := GenExpr(s, stmt.cond).value;
      BranchesFlow(ctx, s1, c.value, stmt);
    }
  }

  /** The part of a conditional after its condition. */
  lemma {:induction false} BranchesFlow(ctx: Context, s1: State, c: ValueId, stmt: Stmt)
    requires stmt.If? && Live(s1) && ValidOrder(ctx.order)
    ensures var types := TypesOf(s1.values);
      var r :=
        match GenStmts(ctx, OpenBranches(s1, c), stmt.thn) {
          case None => None
          case Some(s2) =>
            match GenStmts(ctx, s2.(current := Some(|s1.blocks| + 1), values := s1.values), stmt.els) {
              case None => None
              case Some(s3) => Join(ctx.order, s3, s1.values, s2.current, s3.current, s2.values, s3.values)
            }
        };
      var f :=
        match (FlowStmts(ctx.symbols, Flow(types, true), stmt.thn),
               FlowStmts(ctx.symbols, Flow(types, true), stmt.els)) {
          case (Some(t), Some(e)) => FlowJoin(types, t, e)
          case _ => None
        };
      (r.Some? <==> f.Some?) && (r.Some? ==> f == Some(FlowOf(r.value)))
    decreases stmt, 0
  {
    var o := OpenBranches(s1, c);
    assert FlowOf(o) == Flow(TypesOf(s1.values), true);
    StmtsFlow(ctx, o, stmt.thn);
    if GenStmts(ctx, o, stmt.thn).Some? {
      var s2 := GenStmts(ctx, o, stmt.thn).value;
      var e := s2.(current := Some(|s1.blocks| + 1), values := s1.values);
      assert FlowOf(e) == Flow(TypesOf(s1.values), true);
      StmtsFlow(ctx, e, stmt.els);
      if GenStmts(ctx, e, stmt.els).Some? {
        var s3 := GenStmts(ctx, e, stmt.els).value;
        JoinFlows(ctx.order, s3, s1.values, s2.current, s3.current, s2.values, s3.values);
      }
    }
  }

  lemma {:induction false} StmtsFlow(ctx: Context, s: State, ss: seq<Stmt>)
    requires Valid(s) && ValidOrder(ctx.order)
    ensures var r, f := GenStmts(ctx, s, ss), FlowStmts(ctx.symbols, FlowOf(s), ss);
      (r.Some? <==> f.Some?) && (r.Some? ==> f == Some(FlowOf(r.value)))
    decreases ss
  {
    if ss != [] && s.current.Some? {
      StmtFlows(ctx, s, ss[0]);
      if GenStmt(ctx, s, ss[0]).Some? {
        StmtsFlow(ctx, GenStmt(ctx, s, ss[0]).value, ss[1..]);
      }
    }
  }

  lemma {:induction false} TopFlows(ctx: Context, s: State, ss: seq<Stmt>)
    requires Valid(s) && ValidOrder(ctx.order)
    ensures var r, f := GenTop(ctx, s, ss), FlowTop(ctx.symbols, FlowOf(s), ss);
      (r.Some? <==> f.Some?) && (r.Some? ==> f == Some(FlowOf(r.value)))
    decreases ss
  {
    if ss != [] && s.current.Some? {
      StmtFlows(ctx, s, ss[0]);
      if GenStmt(ctx, s, ss[0]).Some? {
        TopFlows(ctx, GenStmt(ctx, s, ss[0]).value, ss[1..]);
      }
    }
  }
}
