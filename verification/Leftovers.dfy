/** What stops the generator on accepted programs. The analyzer forgets a name that only one branch binds, even when the
    other branch has returned; the generator carries it on. Nothing but such leftovers can fail. */
module Leftovers {
  import opened Prelude
  import opened Ast
  import opened GeneratorSpec
  import opened GeneratorVerifies
  import opened AnalyzerSpec
  import opened Preservation
  import opened GeneratorTypes
  import opened GenerationTotal

  /** The names that the generator carries past a statement, of which the analyzer may have forgotten some. */
  function CarryStmt(symbols: Symbols, a: Analysis, types: Types, s: Stmt): Types
    requires AnalyzeStmt(a, s).Some?
    decreases s
  {
    match s
    case TensorDecl(name, ty) => types[name := if name in symbols then symbols[name] else ty]
    case Assign(target, e) => types[target := TypeExpr(a.symbols, e).value]
    case Return(_) => types
    case If(_, thn, els) =>
      var t, e := Carry(symbols, a, types, thn),
        Carry(symbols, AnalyzeStmts(a, thn).value.(symbols := a.symbols), types, els);
      if Finishes(thn) && Finishes(els) then types
      else if Finishes(thn) then e
      else if Finishes(els) then t
      else Common(t, e)
  }

  function Carry(symbols: Symbols, a: Analysis, types: Types, ss: seq<Stmt>): Types
    requires AnalyzeStmts(a, ss).Some?
    decreases ss
  {
    if ss == [] then types
    else
      var after := CarryStmt(symbols, a, types, ss[0]);
      if FinishesStmt(ss[0]) then after else Carry(symbols, AnalyzeStmt(a, ss[0]).value, after, ss[1..])
  }

  /** No leftover is in the way: no reachable tensor is declared over one or forgotten by the final table, and where
      branches meet again no name has two types. */
  predicate ClearStmt(symbols: Symbols, a: Analysis, types: Types, s: Stmt)
    requires AnalyzeStmt(a, s).Some?
    decreases s
  {
    match s
    case TensorDecl(name, _) => name in symbols && name !in types
    case If(_, thn, els) =>
      var a1 := AnalyzeStmts(a, thn).value.(symbols := a.symbols);
      && Clear(symbols, a, types, thn) && Clear(symbols, a1, types, els)
      && (Finishes(thn) || Finishes(els) || Compatible(Carry(symbols, a, types, thn), Carry(symbols, a1, types, els)))
    case _ => true
  }

  predicate Clear(symbols: Symbols, a: Analysis, types: Types, ss: seq<Stmt>)
    requires AnalyzeStmts(a, ss).Some?
    decreases ss
  {
    ss != [] ==>
      && ClearStmt(symbols, a, types, ss[0])
      && (FinishesStmt(ss[0]) ||
          Clear(symbols, AnalyzeStmt(a, ss[0]).value, CarryStmt(symbols, a, types, ss[0]), ss[1..]))
  }

  /** Expressions that the analyzer accepts never stop the generator. */
  lemma {:induction false} ExprCarries(symbols: Symbols, types: Types, e: Expr)
    requires Keeps(symbols, types) && TypeExpr(symbols, e).Some?
    ensures FlowExpr(types, e) == TypeExpr(symbols, e)
    decreases e
  {
    match e
    case Call(callee, args) =>
      ExprCarries(symbols, types, args[0]);
      if callee == "matmul" {
        ExprCarries(symbols, types, args[1]);
      }
    case Binary(_, lhs, rhs) =>
      ExprCarries(symbols, types, lhs);
      ExprCarries(symbols, types, rhs);
    case _ =>
  }

  /** The generator goes on exactly if the way is clear, and then carries at least what the analyzer knows. */
  ghost predicate Carries(clear: bool, f: Option<Flow>, types: Types, a: Analysis) {
    (f.Some? <==> clear) && (f.Some? && f.value.live ==> f.value.types == types && Keeps(a.symbols, types))
  }

  lemma {:induction false} StmtCarries(symbols: Symbols, a: Analysis, types: Types, s: Stmt)
    requires AnalyzeStmt(a, s).Some? && Keeps(a.symbols, types) && DeclarationsAgree(symbols, [s])
    ensures Carries(ClearStmt(symbols, a, types, s), FlowStmt(symbols, types, s),
                    CarryStmt(symbols, a, types, s), AnalyzeStmt(a, s).value)
    decreases s
  {
    hide TypeExpr, FlowExpr, Carry, Clear, FlowStmts, AnalyzeStmts, MergeSymbols;
    match s
    case TensorDecl(_, _) =>
    case Assign(_, e) => ExprCarries(a.symbols, types, e);
    case Return(e) => ExprCarries(a.symbols, types, e);
    case If(cond, thn, els) =>
      ExprCarries(a.symbols, types, cond);
      var a1 := AnalyzeStmts(a, thn).value.(symbols := a.symbols);
      StmtsCarry(symbols, a, types, thn);
      StmtsCarry(symbols, a1, types, els);
      if Clear(symbols, a, types, thn) && Clear(symbols, a1, types, els) {
        FlowsLive(symbols, Flow(types, true), thn);
        FlowsLive(symbols, Flow(types, true), els);
        IfSymbols(a, s);
      }
  }

  lemma {:induction false} StmtsCarry(symbols: Symbols, a: Analysis, types: Types, ss: seq<Stmt>)
    requires AnalyzeStmts(a, ss).Some? && Keeps(a.symbols, types) && DeclarationsAgree(symbols, ss)
    ensures Carries(Clear(symbols, a, types, ss), FlowStmts(symbols, Flow(types, true), ss),
                    Carry(symbols, a, types, ss), AnalyzeStmts(a, ss).value)
    decreases ss
  {
    if ss != [] {
      StmtCarries(symbols, a, types, ss[0]);
      if ClearStmt(symbols, a, types, ss[0]) {
        FlowLive(symbols, types, ss[0]);
        if !FinishesStmt(ss[0]) {
          StmtsCarry(symbols, AnalyzeStmt(a, ss[0]).value, CarryStmt(symbols, a, types, ss[0]), ss[1..]);
        }
      }
    }
  }

  lemma {:induction false} TopCarries(symbols: Symbols, a: Analysis, types: Types, ss: seq<Stmt>)
    requires AnalyzeStmts(a, ss).Some? && Keeps(a.symbols, types) && DeclarationsAgree(symbols, ss) && FinishesAtEnd(ss)
    ensures var f := FlowTop(symbols, Flow(types, true), ss);
      (f.Some? <==> Clear(symbols, a, types, ss)) && (f.Some? ==> !f.value.live)
    decreases ss
  {
    StmtCarries(symbols, a, types, ss[0]);
    if ClearStmt(symbols, a, types, ss[0]) {
      FlowLive(symbols, types, ss[0]);
      if |ss| > 1 {
        assert !FinishesStmt(ss[0]);
        TopCarries(symbols, AnalyzeStmt(a, ss[0]).value, CarryStmt(symbols, a, types, ss[0]), ss[1..]);
      }
    }
  }

  /** Exactly which accepted programs are generated, balanced or not: those whose last statement is the first to finish
      every path and in which no leftover is in the way. */
  lemma GenerationClear(order: Order, p: Program)
    requires ValidOrder(order) && Analyze(p).Some? && DeclarationsAgree(Analyze(p).value, p)
    ensures Generate(Context(Analyze(p).value, order), p).Some? <==>
      FinishesAtEnd(p) && Clear(Analyze(p).value, EMPTY, map[], p)
  {
    hide Clear;
    var ctx := Context(Analyze(p).value, order);
    BuildsExactly(ctx, p);
    if FinishesAtEnd(p) {
      TopCarries(ctx.symbols, EMPTY, map[], p);
    }
    if Build(ctx, p).Some? {
      GeneratedFinish(ctx, p);
      ShapedIntegers(ctx.symbols, p);
      BuiltWellFormed(order, p);
    }
  }
}
