/** The semantic analyzer: a symbol table and a return type that its methods update in place. */
module SemanticAnalyzer {
  import opened Prelude
  import opened Ast
  import opened AnalyzerSpec

  class Analyzer {
    var symbols: Symbols
    var returnType: Option<TensorType>

    constructor ()
      ensures State() == EMPTY
    {
      symbols := map[];
      returnType := None;
    }

    function State(): Analysis
      reads this
    {
      Analysis(symbols, returnType)
    }

    /** Declares a symbol unless the name is taken. */
    method Declare(name: string, ty: TensorType) returns (inserted: bool)
      modifies this`symbols
      ensures inserted <==> name !in old(symbols)
      ensures symbols == if inserted then old(symbols)[name := ty] else old(symbols)
    {
      inserted := name !in symbols;
      if inserted {
        symbols := symbols[name := ty];
      }
    }

    method AnalyzeProgram(p: Program) returns (ok: bool)
      modifies this
      ensures ok <==> Analyze(p).Some?
      ensures ok ==> symbols == Analyze(p).value
    {
      symbols, returnType := map[], None;
      ok := AnalyzeAll(p);
    }

    method AnalyzeAll(ss: seq<Stmt>) returns (ok: bool)
      modifies this
      ensures ok <==> AnalyzeStmts(old(State()), ss).Some?
      ensures ok ==> State() == AnalyzeStmts(old(State()), ss).value
      decreases ss, 1
    {
      for i := 0 to |ss|
        invariant AnalyzeStmts(old(State()), ss) == AnalyzeStmts(State(), ss[i..])
      {
        assert ss[i..][0] == ss[i] && ss[i..][1..] == ss[i + 1..];
        ok := AnalyzeOne(ss[i]);
        if !ok {
          return;
        }
      }
      ok := true;
    }

    method AnalyzeOne(s: Stmt) returns (ok: bool)
      modifies this
      ensures ok <==> AnalyzeStmt(old(State()), s).Some?
      ensures ok ==> State() == AnalyzeStmt(old(State()), s).value
      decreases s
    {
      match s
      case TensorDecl(name, ty) =>
        ok := Declare(name, ty);
      case Assign(target, e) =>
        var inferred := TypeExpr(symbols, e);
        if inferred.None? {
          return false;
        }
        if target in symbols {
          return symbols[target] == inferred.value;
        }
        ok := Declare(target, inferred.value);
      case Return(e) =>
        var ty := TypeExpr(symbols, e);
        if ty.None? || (returnType.Some? && returnType != ty) || ty.value != I64 {
          return false;
        }
        returnType := ty;
        ok := true;
      case If(_, _, _) =>
        ok := AnalyzeIf(s);
    }

    method AnalyzeIf(s: Stmt) returns (ok: bool)
      requires s.If?
      modifies this
      ensures ok <==> AnalyzeStmt(old(State()), s).Some?
      ensures ok ==> State() == AnalyzeStmt(old(State()), s).value
      decreases s, 0
    {
      if TypeExpr(symbols, s.cond) != Some(I1) {
        return false;
      }
      var before := symbols;
      ok := AnalyzeAll(s.thn);
      if !ok {
        return;
      }
      var thenSymbols := symbols;
      symbols := before;
      ok := AnalyzeAll(s.els);
      if !ok {
        return;
      }
      var elseSymbols := symbols;
      symbols := before;
      ok := MergeBranches(before, thenSymbols, elseSymbols);
    }

    /** The loop over the then-table's entries. It meets them in any order; the outcome is the same. */
    method MergeBranches(before: Symbols, thenSymbols: Symbols, elseSymbols: Symbols) returns (ok: bool)
      requires symbols == before
      modifies this`symbols
      ensures ok <==> MergeSymbols(before, thenSymbols, elseSymbols).Some?
      ensures ok ==> symbols == MergeSymbols(before, thenSymbols, elseSymbols).value
    {
      var remaining := thenSymbols.Keys;
      ghost var news := NewNames(before, thenSymbols, elseSymbols);
      while remaining != {}
        invariant remaining <= thenSymbols.Keys
        invariant forall n :: n in news && n !in remaining ==> thenSymbols[n] == elseSymbols[n]
        invariant forall n :: n in symbols <==> n in before || (n in news && n !in remaining)
        invariant forall n :: n in symbols ==> symbols[n] == if n in before then before[n] else thenSymbols[n]
        decreases |remaining|
      {
        var name :| name in remaining;
        remaining := remaining - {name};
        if name !in before && name in elseSymbols {
          if thenSymbols[name] != elseSymbols[name] {
            assert name in news;
            return false;
          }
          var _ := Declare(name, thenSymbols[name]);
        }
      }
      assert remaining == {};
      assert symbols == MergeSymbols(before, thenSymbols, elseSymbols).value;
      ok := true;
    }
  }
}
