/** Phis are placed exactly where they are needed. */
module PhiPlacement {
  import opened Prelude
  import opened Ast
  import opened IR
  import opened GeneratorSpec
  import opened GeneratorFrame

  predicate Differs(n: string, thenValues: Environment, elseValues: Environment) {
    n in thenValues && n in elseValues && thenValues[n].value != elseValues[n].value
  }

  /** `op` selects between the two branches' values of `n`, and its result is what `n` means after the join. */
  ghost predicate Selects(op: Operation, n: string, values: Environment, thenEnd: BlockId, elseEnd: BlockId,
                          thenValues: Environment, elseValues: Environment) {
    && Differs(n, thenValues, elseValues) && n in values && values[n].ty == thenValues[n].ty == elseValues[n].ty
    && op == PhiOp(values[n].value, thenValues[n].ty,
                   [PhiIncoming(thenEnd, thenValues[n].value), PhiIncoming(elseEnd, elseValues[n].value)])
  }

  /** The names that need a phi, in the order in which the phi loop meets them. */
  function Picked(names: seq<string>, thenValues: Environment, elseValues: Environment): (picked: seq<string>)
    ensures forall n :: n in picked <==> n in names && Differs(n, thenValues, elseValues)
  {
    if names == [] then []
    else
      var rest := Picked(names[1..], thenValues, elseValues);
      if Differs(names[0], thenValues, elseValues) then [names[0]] + rest else rest
  }

  /** `phis` are the phis of the names `picked`, one each, with consecutive results from `next` on. */
  ghost predicate PhisOf(phis: seq<Operation>, picked: seq<string>, next: ValueId, values: Environment,
                         thenEnd: BlockId, elseEnd: BlockId, thenValues: Environment, elseValues: Environment)
  {
    && |phis| == |picked|
    && forall i :: 0 <= i < |phis| ==>
      phis[i].result == next + i && Selects(phis[i], picked[i], values, thenEnd, elseEnd, thenValues, elseValues)
  }

  function Added(s: State, s': State): seq<Operation>
    requires Live(s) && Live(s') && s.current == s'.current
    requires s.blocks[s.current.value].operations <= s'.blocks[s.current.value].operations
  {
    s'.blocks[s.current.value].operations[|s.blocks[s.current.value].operations|..]
  }

  ghost predicate Placed(s: State, s': State, names: seq<string>, thenEnd: BlockId, elseEnd: BlockId,
                         thenValues: Environment, elseValues: Environment)
    requires Live(s) && Live(s') && s.current == s'.current
  {
    && s.blocks[s.current.value].operations <= s'.blocks[s.current.value].operations
    && PhisOf(Added(s, s'), Picked(names, thenValues, elseValues), s.nextValue, s'.values, thenEnd, elseEnd,
              thenValues, elseValues)
    && (forall n :: n !in names && n in s.values ==> n in s'.values && s'.values[n] == s.values[n])
    && (forall n :: n in names && n in thenValues && n in elseValues && !Differs(n, thenValues, elseValues) ==>
          n in s'.values && s'.values[n] == thenValues[n])
  }

  lemma {:induction false} MergePlaces(s: State, names: seq<string>, thenEnd: BlockId, elseEnd: BlockId,
                                       thenValues: Environment, elseValues: Environment)
    requires Live(s) && MergeNames(s, names, thenEnd, elseEnd, thenValues, elseValues).Some?
    requires forall i, j :: 0 <= i < j < |names| ==> names[i] != names[j]
    ensures Placed(s, MergeNames(s, names, thenEnd, elseEnd, thenValues, elseValues).value, names, thenEnd, elseEnd,
                   thenValues, elseValues)
    decreases |names|
  {
    var s' := MergeNames(s, names, thenEnd, elseEnd, thenValues, elseValues).value;
    if names != [] {
      var n, rest := names[0], names[1..];
      assert n !in rest && forall x :: x in names <==> x == n || x in rest;
      if n !in thenValues || n !in elseValues {
        assert Picked(names, thenValues, elseValues) == Picked(rest, thenValues, elseValues);
        hide Selects, Picked;
        MergePlaces(s, rest, thenEnd, elseEnd, thenValues, elseValues);
      } else {
        var a, b := thenValues[n], elseValues[n];
        if a.value == b.value {
          assert Picked(names, thenValues, elseValues) == Picked(rest, thenValues, elseValues);
          hide Selects, Picked;
          MergePlaces(s.(values := s.values[n := a]), rest, thenEnd, elseEnd, thenValues, elseValues);
        } else {
          var phi := PhiOp(s.nextValue, a.ty, [PhiIncoming(thenEnd, a.value), PhiIncoming(elseEnd, b.value)]);
          var s1 := Emit(s, phi).(values := s.values[n := ValueInfo(s.nextValue, a.ty)]);
          hide Placed;
          MergePlaces(s1, rest, thenEnd, elseEnd, thenValues, elseValues);
          PlacedStep(s, s1, s', n, rest, thenEnd, elseEnd, thenValues, elseValues);
          assert [n] + rest == names;
        }
      }
    }
  }

  lemma PlacedStep(s: State, s1: State, s': State, n: string, rest: seq<string>, thenEnd: BlockId, elseEnd: BlockId,
                   thenValues: Environment, elseValues: Environment)
    requires Live(s) && Differs(n, thenValues, elseValues) && thenValues[n].ty == elseValues[n].ty && n !in rest
    requires s1 == Emit(s, PhiOp(s.nextValue, thenValues[n].ty,
                                 [PhiIncoming(thenEnd, thenValues[n].value),
                                  PhiIncoming(elseEnd, elseValues[n].value)]))
                   .(values := s.values[n := ValueInfo(s.nextValue, thenValues[n].ty)])
    requires Live(s') && s'.current == s.current && Placed(s1, s', rest, thenEnd, elseEnd, thenValues, elseValues)
    ensures Placed(s, s', [n] + rest, thenEnd, elseEnd, thenValues, elseValues)
  {
    var phi := s1.blocks[s.current.value].operations[|s.blocks[s.current.value].operations|];
    assert ([n] + rest)[1..] == rest;
    assert Added(s, s') == [phi] + Added(s1, s');
    assert Selects(phi, n, s'.values, thenEnd, elseEnd, thenValues, elseValues);
  }

  /** At a join of two live branches: the names bound afterwards are those bound in both; a name whose
      branches agree on the value keeps it; every other one gets its own phi; and there are no other phis. */
  lemma PhisExact(order: Order, s: State, before: Environment, thenEnd: BlockId, elseEnd: BlockId,
                  thenValues: Environment, elseValues: Environment)
    requires ValidOrder(order) && thenEnd < |s.blocks| && elseEnd < |s.blocks|
    requires Join(order, s, before, Some(thenEnd), Some(elseEnd), thenValues, elseValues).Some?
    ensures var s' := Join(order, s, before, Some(thenEnd), Some(elseEnd), thenValues, elseValues).value;
      && (forall n :: n in s'.values <==> n in thenValues && n in elseValues)
      && (forall n :: n in s'.values && thenValues[n].value == elseValues[n].value ==> s'.values[n] == thenValues[n])
      && PhisFor(s'.blocks[|s.blocks|].operations, s'.values, thenEnd, elseEnd, thenValues, elseValues)
  {
    var m := OpenMerge(s, Some(thenEnd), Some(elseEnd)).(values := map[]);
    var names := order(|s.blocks|, thenValues.Keys);
    var s' := Join(order, s, before, Some(thenEnd), Some(elseEnd), thenValues, elseValues).value;
    assert IsEnumeration(names, thenValues.Keys);
    MergePlaces(m, names, thenEnd, elseEnd, thenValues, elseValues);
    NamesBound(m, names, thenEnd, elseEnd, thenValues, elseValues);
    PlacedPhis(m, s', names, thenEnd, elseEnd, thenValues, elseValues);
    forall n | n in s'.values && thenValues[n].value == elseValues[n].value ensures s'.values[n] == thenValues[n] {
      assert n in names && !Differs(n, thenValues, elseValues);
    }
  }

  ghost predicate HasPhi(ops: seq<Operation>, n: string, values: Environment, thenEnd: BlockId, elseEnd: BlockId,
                         thenValues: Environment, elseValues: Environment)
  {
    exists op :: op in ops && Selects(op, n, values, thenEnd, elseEnd, thenValues, elseValues)
  }

  ghost predicate IsPhiOfName(op: Operation, values: Environment, thenEnd: BlockId, elseEnd: BlockId,
                              thenValues: Environment, elseValues: Environment)
  {
    exists n :: Selects(op, n, values, thenEnd, elseEnd, thenValues, elseValues)
  }

  /** The operations are one phi for each name whose branches differ, none for two such names, and nothing else. */
  ghost predicate PhisFor(ops: seq<Operation>, values: Environment, thenEnd: BlockId, elseEnd: BlockId,
                          thenValues: Environment, elseValues: Environment)
  {
    && (forall n :: Differs(n, thenValues, elseValues) ==>
        HasPhi(ops, n, values, thenEnd, elseEnd, thenValues, elseValues))
    && (forall op :: op in ops ==> IsPhiOfName(op, values, thenEnd, elseEnd, thenValues, elseValues))
    && (forall i, j :: 0 <= i < j < |ops| ==> ops[i].result != ops[j].result)
    && OwnValues(values, thenValues, elseValues)
  }

  /** Names whose branches differ end up with different values. */
  ghost predicate OwnValues(values: Environment, thenValues: Environment, elseValues: Environment) {
    forall n, k :: Differs(n, thenValues, elseValues) && Differs(k, thenValues, elseValues) && n != k ==>
      n in values && k in values && values[n].value != values[k].value
  }

  lemma PickedValues(phis: seq<Operation>, picked: seq<string>, next: ValueId, values: Environment,
                     thenEnd: BlockId, elseEnd: BlockId, thenValues: Environment, elseValues: Environment)
    requires PhisOf(phis, picked, next, values, thenEnd, elseEnd, thenValues, elseValues)
    requires forall n :: Differs(n, thenValues, elseValues) ==> n in picked
    ensures OwnValues(values, thenValues, elseValues)
  {
    forall n, k | Differs(n, thenValues, elseValues) && Differs(k, thenValues, elseValues) && n != k
      ensures n in values && k in values && values[n].value != values[k].value
    {
      var i :| 0 <= i < |picked| && picked[i] == n;
      var j :| 0 <= j < |picked| && picked[j] == k;
      assert Selects(phis[i], n, values, thenEnd, elseEnd, thenValues, elseValues);
      assert Selects(phis[j], k, values, thenEnd, elseEnd, thenValues, elseValues);
    }
  }

  /** One phi for each picked name, in order, is one for each name whose branches differ. */
  lemma OrderedPhis(ops: seq<Operation>, picked: seq<string>, next: ValueId, values: Environment,
                    thenEnd: BlockId, elseEnd: BlockId, thenValues: Environment, elseValues: Environment)
    requires PhisOf(ops, picked, next, values, thenEnd, elseEnd, thenValues, elseValues)
    requires forall n :: Differs(n, thenValues, elseValues) ==> n in picked
    ensures PhisFor(ops, values, thenEnd, elseEnd, thenValues, elseValues)
  {
    PickedValues(ops, picked, next, values, thenEnd, elseEnd, thenValues, elseValues);
    hide OwnValues, Selects, Differs;
    forall n | Differs(n, thenValues, elseValues)
      ensures HasPhi(ops, n, values, thenEnd, elseEnd, thenValues, elseValues)
    {
      var i :| 0 <= i < |picked| && picked[i] == n;
      assert ops[i] in ops && Selects(ops[i], n, values, thenEnd, elseEnd, thenValues, elseValues);
    }
    forall op | op in ops ensures IsPhiOfName(op, values, thenEnd, elseEnd, thenValues, elseValues) {
      var i :| 0 <= i < |ops| && ops[i] == op;
      assert Selects(op, picked[i], values, thenEnd, elseEnd, thenValues, elseValues);
    }
  }

  lemma PlacedPhis(s: State, s': State, names: seq<string>, thenEnd: BlockId, elseEnd: BlockId,
                   thenValues: Environment, elseValues: Environment)
    requires Live(s) && Live(s') && s.current == s'.current && s.blocks[s.current.value].operations == []
    requires Placed(s, s', names, thenEnd, elseEnd, thenValues, elseValues) && forall n :: n in names <==>
      n in thenValues
    ensures PhisFor(s'.blocks[s.current.value].operations, s'.values, thenEnd, elseEnd, thenValues, elseValues)
  {
    var ops, picked := s'.blocks[s.current.value].operations, Picked(names, thenValues, elseValues);
    assert Added(s, s') == ops;
    assert forall n :: Differs(n, thenValues, elseValues) ==> n in picked;
    hide PhisOf, PhisFor, Picked;
    OrderedPhis(ops, picked, s.nextValue, s'.values, thenEnd, elseEnd, thenValues, elseValues);
  }

  lemma NamesBound(s: State, names: seq<string>, thenEnd: BlockId, elseEnd: BlockId,
                   thenValues: Environment, elseValues: Environment)
    requires Live(s) && MergeNames(s, names, thenEnd, elseEnd, thenValues, elseValues).Some?
    ensures forall n :: n in MergeNames(s, names, thenEnd, elseEnd, thenValues, elseValues).value.values <==>
      n in s.values || (n in names && n in thenValues && n in elseValues)
    decreases |names|
  {
    if names != [] {
      var n, rest := names[0], names[1..];
      assert forall x :: x in names <==> x == n || x in rest;
      if n !in thenValues || n !in elseValues {
        NamesBound(s, rest, thenEnd, elseEnd, thenValues, elseValues);
      } else {
        var a, b := thenValues[n], elseValues[n];
        if a.value == b.value {
          NamesBound(s.(values := s.values[n := a]), rest, thenEnd, elseEnd, thenValues, elseValues);
        } else {
          var phi := PhiOp(s.nextValue, a.ty, [PhiIncoming(thenEnd, a.value), PhiIncoming(elseEnd, b.value)]);
          NamesBound(Emit(s, phi).(values := s.values[n := ValueInfo(s.nextValue, a.ty)]), rest, thenEnd, elseEnd,
                     thenValues, elseValues);
        }
      }
    }
  }

  /** No environment value lies in [low, high). */
  ghost predicate Avoids(values: Environment, low: ValueId, high: ValueId) {
    forall n :: n in values ==> values[n].value < low || high <= values[n].value
  }

  lemma {:induction false} ExprAvoids(s: State, e: Expr, low: ValueId, high: ValueId)
    requires Live(s) && GenExpr(s, e).Some? && Avoids(s.values, low, high) && high <= s.nextValue
    ensures var a := GenExpr(s, e).value.1; a.value < low || high <= a.value
    decreases e
  {
  }

  lemma {:induction false} MergeAvoids(s: State, names: seq<string>, thenEnd: BlockId, elseEnd: BlockId,
                                       thenValues: Environment, elseValues: Environment, low: ValueId, high: ValueId)
    requires Live(s) && MergeNames(s, names, thenEnd, elseEnd, thenValues, elseValues).Some?
    requires Avoids(s.values, low, high) && Avoids(thenValues, low, high) && high <= s.nextValue
    ensures Avoids(MergeNames(s, names, thenEnd, elseEnd, thenValues, elseValues).value.values, low, high)
    decreases |names|
  {
    if names != [] {
      var n, rest := names[0], names[1..];
      if n !in thenValues || n !in elseValues {
        MergeAvoids(s, rest, thenEnd, elseEnd, thenValues, elseValues, low, high);
      } else {
        var a, b := thenValues[n], elseValues[n];
        if a.value == b.value {
          MergeAvoids(s.(values := s.values[n := a]), rest, thenEnd, elseEnd, thenValues, elseValues, low, high);
        } else {
          var phi := PhiOp(s.nextValue, a.ty, [PhiIncoming(thenEnd, a.value), PhiIncoming(elseEnd, b.value)]);
          var s1 := Emit(s, phi).(values := s.values[n := ValueInfo(s.nextValue, a.ty)]);
          MergeAvoids(s1, rest, thenEnd, elseEnd, thenValues, elseValues, low, high);
        }
      }
    }
  }

  lemma {:induction false} StmtAvoids(ctx: Context, s: State, stmt: Stmt, low: ValueId, high: ValueId)
    requires Live(s) && GenStmt(ctx, s, stmt).Some? && Avoids(s.values, low, high) && high <= s.nextValue
    ensures Avoids(GenStmt(ctx, s, stmt).value.values, low, high)
    decreases stmt
  {
    hide GenStmts, MergeNames;
    match stmt
    case TensorDecl(_, _) =>
    case Assign(_, e) => ExprAvoids(s, e, low, high);
    case Return(_) =>
    case If(cond, thn, els) =>
      var (s1, c) := GenExpr(s, cond).value;
      var o := OpenBranches(s1, c.value);
      StmtsAvoid(ctx, o, thn, low, high);
      var s2 := GenStmts(ctx, o, thn).value;
      var e := ElseStart(s1, s2);
      StmtsAvoid(ctx, e, els, low, high);
      var s3 := GenStmts(ctx, e, els).value;
      if s2.current.Some? && s3.current.Some? {
        var m := OpenMerge(s3, s2.current, s3.current).(values := map[]);
        MergeAvoids(m, ctx.order(|s3.blocks|, s2.values.Keys), s2.current.value, s3.current.value, s2.values,
                    s3.values, low, high);
      }
  }

  lemma {:induction false} StmtsAvoid(ctx: Context, s: State, ss: seq<Stmt>, low: ValueId, high: ValueId)
    requires Valid(s) && GenStmts(ctx, s, ss).Some? && Avoids(s.values, low, high) && high <= s.nextValue
    ensures Avoids(GenStmts(ctx, s, ss).value.values, low, high)
    decreases ss
  {
    if ss != [] && s.current.Some? {
      StmtAvoids(ctx, s, ss[0], low, high);
      StmtsAvoid(ctx, GenStmt(ctx, s, ss[0]).value, ss[1..], low, high);
    }
  }

  /** A value both branches of a conditional agree on was created before the branches. */
  lemma SharedValuesAreOlder(ctx: Context, s: State, stmt: Stmt, n: string)
    requires stmt.If? && Consistent(s) && Live(s) && GenStmt(ctx, s, stmt).Some?
    requires var (s1, c) := GenExpr(s, stmt.cond).value;
      var s2 := GenStmts(ctx, OpenBranches(s1, c.value), stmt.thn).value;
      var s3 := GenStmts(ctx, ElseStart(s1, s2), stmt.els).value;
      n in s2.values && n in s3.values && s2.values[n].value == s3.values[n].value
    ensures var (s1, c) := GenExpr(s, stmt.cond).value;
      GenStmts(ctx, OpenBranches(s1, c.value), stmt.thn).value.values[n].value < s1.nextValue
  {
    var (s1, c) := GenExpr(s, stmt.cond).value;
    var o := OpenBranches(s1, c.value);
    var s2 := GenStmts(ctx, o, stmt.thn).value;
    GenExprGrows(s, stmt.cond);
    OpenBranchesConsistent(s1, c.value);
    GenStmtsGrows(ctx, o, stmt.thn);
    StmtsAvoid(ctx, ElseStart(s1, s2), stmt.els, s1.nextValue, s2.nextValue);
  }
}
