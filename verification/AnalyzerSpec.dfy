/** Semantic analysis as a function of the symbol table. The class in SemanticAnalyzer.dfy is proved to
    compute exactly this. */
module AnalyzerSpec {
  import opened Prelude
  import opened Ast

  type Symbols = map<string, TensorType>

  datatype Analysis = Analysis(symbols: Symbols, returnType: Option<TensorType>)

  const EMPTY := Analysis(map[], None)

  function TypeExpr(symbols: Symbols, e: Expr): Option<TensorType> {
    match e
    case Ident(name) => if name in symbols then Some(symbols[name]) else None
    case IntLit(_) => Some(I64)
    case FloatLit(_) => Some(F64)
    case Call(callee, args) =>
      if callee == "relu" then
        if |args| != 1 then None else TypeExpr(symbols, args[0])
      else if callee == "matmul" then
        if |args| != 2 then None
        else
          match (TypeExpr(symbols, args[0]), TypeExpr(symbols, args[1])) {
            case (Some(a), Some(b)) =>
              if |a.shape| != 2 || |b.shape| != 2 || a.elementType != b.elementType
                || a.shape[1] != b.shape[0] then None
              else Some(TensorType(a.elementType, [a.shape[0], b.shape[1]]))
            case _ => None
          }
      else None
    case Binary(op, lhs, rhs) =>
      match (TypeExpr(symbols, lhs), TypeExpr(symbols, rhs)) {
        case (Some(a), Some(b)) =>
          if a.shape != [] || b.shape != [] || a.elementType != b.elementType then None
          else if a.elementType != "i64" && a.elementType != "f64" then None
          else if op.IsArithmetic() then Some(a) else Some(I1)
        case _ => None
      }
  }

  /** Names that both branches introduce. */
  function NewNames(before: Symbols, thn: Symbols, els: Symbols): set<string> {
    set n | n in thn && n !in before && n in els
  }

  function MergeSymbols(before: Symbols, thn: Symbols, els: Symbols): Option<Symbols> {
    if exists n | n in NewNames(before, thn, els) :: thn[n] != els[n] then None
    else Some(map n | n in before.Keys + NewNames(before, thn, els) :: if n in before then before[n] else thn[n])
  }

  function AnalyzeStmt(a: Analysis, s: Stmt): Option<Analysis>
    decreases s
  {
    match s
    case TensorDecl(name, ty) =>
      if name in a.symbols then None else Some(a.(symbols := a.symbols[name := ty]))
    case Assign(target, e) =>
      (match TypeExpr(a.symbols, e)
       case None => None
       case Some(ty) =>
         if target in a.symbols then
           if a.symbols[target] != ty then None else Some(a)
         else Some(a.(symbols := a.symbols[target := ty])))
    case Return(e) =>
      (match TypeExpr(a.symbols, e)
       case None => None
       case Some(ty) =>
         if a.returnType.Some? && a.returnType.value != ty then None
         else if ty != I64 then None
         else Some(a.(returnType := Some(ty))))
    case If(cond, thn, els) =>
      match TypeExpr(a.symbols, cond)
      case None => None
      case Some(ty) =>
        if ty != I1 then None
        else
          match AnalyzeStmts(a, thn)
          case None => None
          case Some(t) =>
            match AnalyzeStmts(t.(symbols := a.symbols), els)
            case None => None
            case Some(e) =>
              match MergeSymbols(a.symbols, t.symbols, e.symbols)
              case None => None
              case Some(symbols) => Some(e.(symbols := symbols))
  }

  function AnalyzeStmts(a: Analysis, ss: seq<Stmt>): Option<Analysis>
    decreases ss
  {
    if ss == [] then Some(a)
    else
      match AnalyzeStmt(a, ss[0])
      case None => None
      case Some(a') => AnalyzeStmts(a', ss[1..])
  }

  function Analyze(p: Program): Option<Symbols> {
    match AnalyzeStmts(EMPTY, p)
    case None => None
    case Some(a) => Some(a.symbols)
  }

  ghost predicate Keeps(symbols: Symbols, symbols': Symbols) {
    forall n :: n in symbols ==> n in symbols' && symbols'[n] == symbols[n]
  }

  /** The frame law: no statement removes or retypes an existing symbol. */
  lemma {:induction false} AnalyzeStmtKeeps(a: Analysis, s: Stmt)
    requires AnalyzeStmt(a, s).Some?
    ensures Keeps(a.symbols, AnalyzeStmt(a, s).value.symbols)
  {
  }

  lemma {:induction false} AnalyzeStmtsKeeps(a: Analysis, ss: seq<Stmt>)
    requires AnalyzeStmts(a, ss).Some?
    ensures Keeps(a.symbols, AnalyzeStmts(a, ss).value.symbols)
    decreases ss
  {
    if ss != [] {
      AnalyzeStmtKeeps(a, ss[0]);
      AnalyzeStmtsKeeps(AnalyzeStmt(a, ss[0]).value, ss[1..]);
    }
  }

  /** After a conditional the table holds exactly what it held before and what both branches introduce
      with one type; in particular every name of the result is a name of both branches' tables. */
  lemma IfSymbols(a: Analysis, s: Stmt)
    requires s.If? && AnalyzeStmt(a, s).Some?
    ensures var t := AnalyzeStmts(a, s.thn).value.symbols;
      var e := AnalyzeStmts(AnalyzeStmts(a, s.thn).value.(symbols := a.symbols), s.els).value.symbols;
      var r := AnalyzeStmt(a, s).value.symbols;
      && Keeps(r, t) && Keeps(r, e)
      && forall n :: n in t && n in e ==> n in r && (n in a.symbols || t[n] == e[n])
  {
    var a1 := AnalyzeStmts(a, s.thn).value;
    AnalyzeStmtsKeeps(a, s.thn);
    AnalyzeStmtsKeeps(a1.(symbols := a.symbols), s.els);
  }
}
