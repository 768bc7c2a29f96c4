/** The language's typing rules, and that the analyzer accepts exactly what they derive: every statement of every list,
    those after a return included. */
module Typing {
  import opened Prelude
  import opened Ast
  import opened AnalyzerSpec

  /** `e` has type `t`. */
  ghost predicate Typed(symbols: Symbols, e: Expr, t: TensorType) {
    match e
    case Ident(name) => name in symbols && symbols[name] == t
    case IntLit(_) => t == TensorType("i64", [])
    case FloatLit(_) => t == TensorType("f64", [])
    case Call(callee, args) =>
      || (callee == "relu" && |args| == 1 && Typed(symbols, args[0], t))
      || (callee == "matmul" && |args| == 2 && exists m, k, n ::
            Typed(symbols, args[0], Matrix(t, m, k)) && Typed(symbols, args[1], Matrix(t, k, n))
              && t == Matrix(t, m, n))
    case Binary(op, lhs, rhs) =>
      exists s :: s in {TensorType("i64", []), TensorType("f64", [])} && Typed(symbols, lhs, s)
        && Typed(symbols, rhs, s)
        && t == if op in {Add, Subtract, Multiply, Divide} then s else TensorType("i1", [])
  }

  /** A matrix with the elements of `t`. */
  function Matrix(t: TensorType, rows: nat, columns: nat): TensorType {
    TensorType(t.elementType, [rows, columns])
  }

  /** The analyzer types an expression exactly as the rules do. */
  lemma {:induction false} ExprTyped(symbols: Symbols, e: Expr, t: TensorType)
    ensures Typed(symbols, e, t) <==> TypeExpr(symbols, e) == Some(t)
    decreases e
  {
    match e
    case Call(callee, args) =>
      if callee == "relu" && |args| == 1 {
        ExprTyped(symbols, args[0], t);
      } else if callee == "matmul" && |args| == 2 {
        MatMulTyped(symbols, e, t);
      }
    case Binary(_, _, _) => BinaryTyped(symbols, e, t);
    case _ =>
  }

  lemma {:induction false} MatMulTyped(symbols: Symbols, e: Expr, t: TensorType)
    requires e.Call? && e.callee == "matmul" && |e.args| == 2
    ensures Typed(symbols, e, t) <==> TypeExpr(symbols, e) == Some(t)
    decreases e, 0
  {
    forall s ensures Typed(symbols, e.args[0], s) <==> TypeExpr(symbols, e.args[0]) == Some(s) {
      ExprTyped(symbols, e.args[0], s);
    }
    forall s ensures Typed(symbols, e.args[1], s) <==> TypeExpr(symbols, e.args[1]) == Some(s) {
      ExprTyped(symbols, e.args[1], s);
    }
    if TypeExpr(symbols, e) == Some(t) {
      var a, b := TypeExpr(symbols, e.args[0]).value, TypeExpr(symbols, e.args[1]).value;
      assert a == Matrix(t, a.shape[0], a.shape[1]) && b == Matrix(t, a.shape[1], b.shape[1]);
    }
  }

  lemma {:induction false} BinaryTyped(symbols: Symbols, e: Expr, t: TensorType)
    requires e.Binary?
    ensures Typed(symbols, e, t) <==> TypeExpr(symbols, e) == Some(t)
    decreases e, 0
  {
    forall s ensures Typed(symbols, e.lhs, s) <==> TypeExpr(symbols, e.lhs) == Some(s) {
      ExprTyped(symbols, e.lhs, s);
    }
    forall s ensures Typed(symbols, e.rhs, s) <==> TypeExpr(symbols, e.rhs) == Some(s) {
      ExprTyped(symbols, e.rhs, s);
    }
  }

  /** `s` is well typed where `before` is in scope, and leaves `after` in scope. */
  ghost predicate Checks(before: Symbols, s: Stmt, after: Symbols)
    decreases s
  {
    match s
    case TensorDecl(name, ty) => name !in before && after == before[name := ty]
    case Assign(target, e) =>
      exists t :: Typed(before, e, t) && (target in before ==> before[target] == t) && after == before[target := t]
    case Return(e) => Typed(before, e, TensorType("i64", [])) && after == before
    case If(cond, thn, els) =>
      && Typed(before, cond, TensorType("i1", []))
      && exists t, e :: ListChecks(before, thn, t) && ListChecks(before, els, e) && Meets(before, t, e, after)
  }

  /** Every statement of the list is well typed where the one before it leaves off. */
  ghost predicate ListChecks(before: Symbols, ss: seq<Stmt>, after: Symbols)
    decreases ss
  {
    exists scopes: seq<Symbols> :: Scopes(before, ss, after, scopes)
  }

  ghost predicate Scopes(before: Symbols, ss: seq<Stmt>, after: Symbols, scopes: seq<Symbols>)
    decreases ss, 0
  {
    && |scopes| == |ss| + 1 && scopes[0] == before && scopes[|ss|] == after
    && forall i :: 0 <= i < |ss| ==> Checks(scopes[i], ss[i], scopes[i + 1])
  }

  /** After two branches: what was there before, and what both introduce with one type; no name with two types. */
  ghost predicate Meets(before: Symbols, t: Symbols, e: Symbols, after: Symbols) {
    && (forall n :: n in t && n in e && n !in before ==> t[n] == e[n])
    && (forall n :: n in after <==> n in before || (n in t && n in e))
    && (forall n :: n in after ==> after[n] == if n in before then before[n] else t[n])
  }

  /** Nothing but scalar integers has been returned. */
  predicate Returning(a: Analysis) {
    a.returnType == None || a.returnType == Some(TensorType("i64", []))
  }

  lemma {:induction false} StmtExact(a: Analysis, s: Stmt, after: Symbols)
    requires Returning(a)
    ensures Checks(a.symbols, s, after) <==> AnalyzeStmt(a, s).Some? && AnalyzeStmt(a, s).value.symbols == after
    ensures AnalyzeStmt(a, s).Some? ==> Returning(AnalyzeStmt(a, s).value)
    decreases s, 1
  {
    hide Typed, TypeExpr, ListChecks, AnalyzeStmts, Meets;
    match s
    case TensorDecl(_, _) =>
    case Assign(_, e) => AssignExact(a, s, after);
    case Return(e) => ExprTyped(a.symbols, e, I64);
    case If(_, _, _) => IfExact(a, s, after);
  }

  lemma AssignExact(a: Analysis, s: Stmt, after: Symbols)
    requires s.Assign?
    ensures Checks(a.symbols, s, after) <==> AnalyzeStmt(a, s).Some? && AnalyzeStmt(a, s).value.symbols == after
  {
    hide Typed, TypeExpr;
    forall t ensures Typed(a.symbols, s.expr, t) <==> TypeExpr(a.symbols, s.expr) == Some(t) {
      ExprTyped(a.symbols, s.expr, t);
    }
    if s.target in a.symbols {
      assert a.symbols[s.target := a.symbols[s.target]] == a.symbols;
    }
  }

  lemma {:induction false} IfExact(a: Analysis, s: Stmt, after: Symbols)
    requires Returning(a) && s.If?
    ensures Checks(a.symbols, s, after) <==> AnalyzeStmt(a, s).Some? && AnalyzeStmt(a, s).value.symbols == after
    ensures AnalyzeStmt(a, s).Some? ==> Returning(AnalyzeStmt(a, s).value)
    decreases s, 0
  {
    hide Typed, TypeExpr, ListChecks, AnalyzeStmts, MergeSymbols, Meets;
    ExprTyped(a.symbols, s.cond, I1);
    forall t ensures ListChecks(a.symbols, s.thn, t) <==>
      AnalyzeStmts(a, s.thn).Some? && AnalyzeStmts(a, s.thn).value.symbols == t
    {
      ListExact(a, s.thn, t);
    }
    if AnalyzeStmts(a, s.thn).Some? {
      var b := AnalyzeStmts(a, s.thn).value;
      ListExact(a, s.thn, b.symbols);
      forall e ensures ListChecks(a.symbols, s.els, e) <==>
        var r := AnalyzeStmts(b.(symbols := a.symbols), s.els); r.Some? && r.value.symbols == e
      {
        ListExact(b.(symbols := a.symbols), s.els, e);
      }
      var r := AnalyzeStmts(b.(symbols := a.symbols), s.els);
      if r.Some? {
        ListExact(b.(symbols := a.symbols), s.els, r.value.symbols);
        AnalyzeStmtsKeeps(a, s.thn);
        AnalyzeStmtsKeeps(b.(symbols := a.symbols), s.els);
        MeetsExact(a.symbols, b.symbols, r.value.symbols, after);
      }
    }
  }

  lemma MeetsExact(before: Symbols, t: Symbols, e: Symbols, after: Symbols)
    requires Keeps(before, t) && Keeps(before, e)
    ensures Meets(before, t, e, after) <==> MergeSymbols(before, t, e) == Some(after)
  {
    assert forall n :: n in NewNames(before, t, e) <==> n in t && n in e && n !in before;
    if Meets(before, t, e, after) {
      var r := MergeSymbols(before, t, e);
      assert r.Some?;
      assert after.Keys == r.value.Keys;
      assert after == r.value;
    }
  }

  lemma {:induction false} ListExact(a: Analysis, ss: seq<Stmt>, after: Symbols)
    requires Returning(a)
    ensures ListChecks(a.symbols, ss, after) <==>
      AnalyzeStmts(a, ss).Some? && AnalyzeStmts(a, ss).value.symbols == after
    ensures AnalyzeStmts(a, ss).Some? ==> Returning(AnalyzeStmts(a, ss).value)
    decreases ss, 0
  {
    hide Checks, AnalyzeStmt;
    if ss == [] {
      if after == a.symbols {
        assert Scopes(a.symbols, ss, after, [after]);
      }
    } else {
      forall next ensures Checks(a.symbols, ss[0], next) <==>
        AnalyzeStmt(a, ss[0]).Some? && AnalyzeStmt(a, ss[0]).value.symbols == next
      {
        StmtExact(a, ss[0], next);
      }
      ListSplits(a.symbols, ss, after);
      if AnalyzeStmt(a, ss[0]).Some? {
        StmtExact(a, ss[0], a.symbols);
        ListExact(AnalyzeStmt(a, ss[0]).value, ss[1..], after);
      }
    }
  }

  /** A list is well typed if its first statement is, and the others are where that leaves off. */
  lemma ListSplits(before: Symbols, ss: seq<Stmt>, after: Symbols)
    requires ss != []
    ensures ListChecks(before, ss, after) <==>
      exists next :: Checks(before, ss[0], next) && ListChecks(next, ss[1..], after)
  {
    hide Checks;
    if ListChecks(before, ss, after) {
      var scopes := ScopesOf(before, ss, after);
      assert Checks(scopes[0], ss[0], scopes[0 + 1]);
      TailScopes(before, ss, after, scopes);
    }
    if next :| Checks(before, ss[0], next) && ListChecks(next, ss[1..], after) {
      var scopes := ScopesOf(next, ss[1..], after);
      MoreScopes(before, ss, after, next, scopes);
    }
  }

  lemma ScopesOf(before: Symbols, ss: seq<Stmt>, after: Symbols) returns (scopes: seq<Symbols>)
    requires ListChecks(before, ss, after)
    ensures Scopes(before, ss, after, scopes)
  {
    scopes :| Scopes(before, ss, after, scopes);
  }

  lemma TailScopes(before: Symbols, ss: seq<Stmt>, after: Symbols, scopes: seq<Symbols>)
    requires ss != [] && Scopes(before, ss, after, scopes)
    ensures Scopes(scopes[1], ss[1..], after, scopes[1..])
  {
    hide Checks;
    forall i | 0 <= i < |ss[1..]| ensures Checks(scopes[1..][i], ss[1..][i], scopes[1..][i + 1]) {
      assert Checks(scopes[i + 1], ss[i + 1], scopes[i + 1 + 1]);
    }
  }

  lemma MoreScopes(before: Symbols, ss: seq<Stmt>, after: Symbols, next: Symbols, scopes: seq<Symbols>)
    requires ss != [] && Checks(before, ss[0], next) && Scopes(next, ss[1..], after, scopes)
    ensures Scopes(before, ss, after, [before] + scopes)
  {
    hide Checks;
    var all := [before] + scopes;
    forall i | 0 <= i < |ss| ensures Checks(all[i], ss[i], all[i + 1]) {
      if 0 < i {
        assert Checks(scopes[i - 1], ss[1..][i - 1], scopes[i - 1 + 1]);
      }
    }
  }

  /** The analyzer accepts a program, and ends with a table, exactly if the typing rules derive that. */
  lemma AnalysisExact(p: Program, symbols: Symbols)
    ensures Analyze(p) == Some(symbols) <==> ListChecks(map[], p, symbols)
  {
    ListExact(EMPTY, p, symbols);
  }

  /** Analysis of a list goes on where analysis of its beginning stops, whatever that beginning was. */
  lemma {:induction false} AnalysisSplits(a: Analysis, ss: seq<Stmt>, tt: seq<Stmt>)
    ensures AnalyzeStmts(a, ss + tt) == if AnalyzeStmts(a, ss).Some? then AnalyzeStmts(AnalyzeStmts(a, ss).value, tt)
      else None
    ensures AnalyzeStmts(a, []) == Some(a) && forall s :: AnalyzeStmts(a, [s]) == AnalyzeStmt(a, s)
    decreases ss
  {
    hide AnalyzeStmt;
    if ss == [] {
      assert ss + tt == tt;
    } else {
      assert (ss + tt)[1..] == ss[1..] + tt;
      if AnalyzeStmt(a, ss[0]).Some? {
        AnalysisSplits(AnalyzeStmt(a, ss[0]).value, ss[1..], tt);
      }
    }
  }
}
