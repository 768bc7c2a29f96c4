/** A printer with as few parentheses as possible, and what the parser makes of its output. */
module Printer {
  import opened Prelude
  import opened Ast
  import opened Tokens
  import opened ParserSpec
  import opened Grammar
  import opened ParserComplete

  /** How a floating-point constant is written. */
  type FloatSpeller = int -> string

  function Digit(n: nat): char
    requires n < 10
  {
    '0' + n as char
  }

  function Decimal(n: nat): (s: string)
    ensures s != ""
  {
    if n < 10 then [Digit(n)] else Decimal(n / 10) + [Digit(n % 10)]
  }

  /** Reading a printed number gives it back, and it is an integer lexeme. */
  lemma {:induction false} DecimalReads(n: nat)
    ensures DecimalValue(Decimal(n)) == n && IsInteger(Decimal(n))
    decreases n
  {
    var s := Decimal(n);
    if n < 10 {
      assert s[..|s| - 1] == "" && DecimalValue("") == 0;
    } else {
      DecimalReads(n / 10);
      assert s[..|s| - 1] == Decimal(n / 10) && s[|s| - 1] == Digit(n % 10);
    }
  }

  function OperatorToken(op: BinaryOperator): (kind: TokenKind)
    ensures OperatorOf(kind) == Some(op) && (kind in {Star, Slash, Plus, Minus} || Compares(kind))
      && Meaning(kind) == op
    ensures Level(Binary(op, IntLit(0), IntLit(0))) == 0 ==> IsComparison(kind)
    ensures Level(Binary(op, IntLit(0), IntLit(0))) == 1 ==> IsAdditive(kind)
    ensures Level(Binary(op, IntLit(0), IntLit(0))) == 2 ==> IsMultiplicative(kind)
  {
    match op
    case Add => Plus
    case Subtract => Minus
    case Multiply => Star
    case Divide => Slash
    case Equal => EqualEqual
    case NotEqual => BangEqual
    case Less => TokenKind.Less
    case LessEqual => TokenKind.LessEqual
    case Greater => TokenKind.Greater
    case GreaterEqual => TokenKind.GreaterEqual
  }

  /** How tightly an expression binds: comparisons 0, sums 1, products 2, everything else 3. */
  function Level(e: Expr): nat {
    match e
    case Binary(op, _, _) => (if op.Multiply? || op.Divide? then 2 else if op.Add? || op.Subtract? then 1 else 0)
    case _ => 3
  }

  function ToComparison(spell: FloatSpeller, e: Expr): Comparison
    decreases e, (Level(e) + 4) % 4
  {
    if Level(e) == 0 then Compare(ToComparison(spell, e.lhs), OperatorToken(e.op), ToAdditive(spell, e.rhs))
    else OneAdditive(ToAdditive(spell, e))
  }

  function ToAdditive(spell: FloatSpeller, e: Expr): Additive
    decreases e, (Level(e) + 3) % 4
  {
    if Level(e) == 1 then Sum(ToAdditive(spell, e.lhs), OperatorToken(e.op), ToMultiplicative(spell, e.rhs))
    else OneMultiplicative(ToMultiplicative(spell, e))
  }

  function ToMultiplicative(spell: FloatSpeller, e: Expr): Multiplicative
    decreases e, (Level(e) + 2) % 4
  {
    if Level(e) == 2 then Times(ToMultiplicative(spell, e.lhs), OperatorToken(e.op), ToPrimary(spell, e.rhs))
    else OnePrimary(ToPrimary(spell, e))
  }

  /** A binary expression is parenthesised only where nothing but a primary can stand. */
  function ToPrimary(spell: FloatSpeller, e: Expr): Primary
    decreases e, (Level(e) + 1) % 4
  {
    match e
    case Ident(name) => Name(name)
    case IntLit(value) => Integer(Decimal(if value < 0 then 0 else value))
    case FloatLit(code) => Float(spell(code))
    case Call(callee, args) => CallOf(callee, ToArgs(spell, args))
    case Binary(_, _, _) => Paren(ToComparison(spell, e))
  }

  function ToArgs(spell: FloatSpeller, args: seq<Expr>): seq<Comparison>
    decreases args, 0
  {
    if args == [] then [] else [ToComparison(spell, args[0])] + ToArgs(spell, args[1..])
  }

  function ToDims(dims: seq<nat>): seq<string> {
    if dims == [] then [] else [Decimal(dims[0])] + ToDims(dims[1..])
  }

  function ToStatement(spell: FloatSpeller, s: Stmt): Statement
    decreases s
  {
    match s
    case TensorDecl(name, ty) =>
      var dims := ToDims(ty.shape);
      if dims == [] then Declaration(name, ty.elementType, "0", [])
        else Declaration(name, ty.elementType, dims[0], dims[1..])
    case Assign(target, e) => Assignment(target, ToComparison(spell, e))
    case Return(e) => Returning(ToComparison(spell, e))
    case If(c, thn, els) => Conditional(ToComparison(spell, c), ToStatements(spell, thn), ToStatements(spell, els))
  }

  function ToStatements(spell: FloatSpeller, ss: seq<Stmt>): seq<Statement>
    decreases ss
  {
    if ss == [] then [] else [ToStatement(spell, ss[0])] + ToStatements(spell, ss[1..])
  }

  /** The lexemes of a program. */
  function Print(spell: FloatSpeller, p: Program): seq<Lexeme> {
    WriteStatements(ToStatements(spell, p), [Tok(EndOfFile)])
  }

  /** What can be written down: no negative literal, no float without a spelling, no empty shape, no dimension over
      64 bits. */
  predicate Printable(floats: FloatReader, spell: FloatSpeller, e: Expr)
    decreases e
  {
    match e
    case Ident(_) => true
    case IntLit(value) => 0 <= value
    case FloatLit(code) => floats(spell(code)) == Some(code)
    case Call(_, args) => PrintableArgs(floats, spell, args)
    case Binary(_, lhs, rhs) => Printable(floats, spell, lhs) && Printable(floats, spell, rhs)
  }

  predicate PrintableArgs(floats: FloatReader, spell: FloatSpeller, args: seq<Expr>)
    decreases args
  {
    args != [] ==> Printable(floats, spell, args[0]) && PrintableArgs(floats, spell, args[1..])
  }

  predicate PrintableDims(dims: seq<nat>) {
    dims != [] ==> dims[0] <= StorageSize.UINT64_MAX && PrintableDims(dims[1..])
  }

  predicate PrintableStatement(floats: FloatReader, spell: FloatSpeller, s: Stmt)
    decreases s
  {
    match s
    case TensorDecl(_, ty) => ty.shape != [] && PrintableDims(ty.shape)
    case Assign(_, e) => Printable(floats, spell, e)
    case Return(e) => Printable(floats, spell, e)
    case If(c, thn, els) =>
      Printable(floats, spell, c) && PrintableProgram(floats, spell, thn) && PrintableProgram(floats, spell, els)
  }

  predicate PrintableProgram(floats: FloatReader, spell: FloatSpeller, p: Program)
    decreases p
  {
    p != [] ==> PrintableStatement(floats, spell, p[0]) && PrintableProgram(floats, spell, p[1..])
  }

  lemma {:induction false} ComparisonPrints(floats: FloatReader, spell: FloatSpeller, e: Expr)
    requires Printable(floats, spell, e)
    ensures GoodComparison(floats, ToComparison(spell, e)) && TreeComparison(floats, ToComparison(spell, e)) == e
    decreases e, (Level(e) + 4) % 4
  {
    if Level(e) == 0 {
      ComparisonPrints(floats, spell, e.lhs);
      AdditivePrints(floats, spell, e.rhs);
    } else {
      AdditivePrints(floats, spell, e);
    }
  }

  lemma {:induction false} AdditivePrints(floats: FloatReader, spell: FloatSpeller, e: Expr)
    requires Printable(floats, spell, e)
    ensures GoodAdditive(floats, ToAdditive(spell, e)) && TreeAdditive(floats, ToAdditive(spell, e)) == e
    decreases e, (Level(e) + 3) % 4
  {
    if Level(e) == 1 {
      AdditivePrints(floats, spell, e.lhs);
      MultiplicativePrints(floats, spell, e.rhs);
    } else {
      MultiplicativePrints(floats, spell, e);
    }
  }

  lemma {:induction false} MultiplicativePrints(floats: FloatReader, spell: FloatSpeller, e: Expr)
    requires Printable(floats, spell, e)
    ensures GoodMultiplicative(floats, ToMultiplicative(spell, e))
      && TreeMultiplicative(floats, ToMultiplicative(spell, e)) == e
    decreases e, (Level(e) + 2) % 4
  {
    if Level(e) == 2 {
      MultiplicativePrints(floats, spell, e.lhs);
      PrimaryPrints(floats, spell, e.rhs);
    } else {
      PrimaryPrints(floats, spell, e);
    }
  }

  lemma {:induction false} PrimaryPrints(floats: FloatReader, spell: FloatSpeller, e: Expr)
    requires Printable(floats, spell, e)
    ensures GoodPrimary(floats, ToPrimary(spell, e)) && TreePrimary(floats, ToPrimary(spell, e)) == e
    decreases e, (Level(e) + 1) % 4
  {
    match e
    case Ident(_) =>
    case FloatLit(_) =>
    case IntLit(value) => DecimalReads(value);
    case Call(_, args) => ArgsPrint(floats, spell, args);
    case Binary(_, _, _) => ComparisonPrints(floats, spell, e);
  }

  lemma {:induction false} ArgsPrint(floats: FloatReader, spell: FloatSpeller, args: seq<Expr>)
    requires PrintableArgs(floats, spell, args)
    ensures GoodArgs(floats, ToArgs(spell, args)) && TreeArgs(floats, ToArgs(spell, args)) == args
    decreases args, 0
  {
    if args != [] {
      ComparisonPrints(floats, spell, args[0]);
      ArgsPrint(floats, spell, args[1..]);
      assert ToArgs(spell, args)[1..] == ToArgs(spell, args[1..]);
    }
  }

  lemma {:induction false} DimsPrint(dims: seq<nat>)
    requires PrintableDims(dims)
    ensures GoodDims(ToDims(dims)) && TreeDims(ToDims(dims)) == dims
    decreases |dims|
  {
    if dims != [] {
      DecimalReads(dims[0]);
      DimsPrint(dims[1..]);
      assert ToDims(dims)[1..] == ToDims(dims[1..]);
    }
  }

  lemma {:induction false} StatementPrints(floats: FloatReader, spell: FloatSpeller, s: Stmt)
    requires PrintableStatement(floats, spell, s)
    ensures GoodStatement(floats, ToStatement(spell, s)) && TreeStatement(floats, ToStatement(spell, s)) == s
    decreases s
  {
    match s
    case TensorDecl(_, ty) => DimsPrint(ty.shape);
    case Assign(_, e) => ComparisonPrints(floats, spell, e);
    case Return(e) => ComparisonPrints(floats, spell, e);
    case If(c, thn, els) =>
      ComparisonPrints(floats, spell, c);
      StatementsPrint(floats, spell, thn);
      StatementsPrint(floats, spell, els);
  }

  lemma {:induction false} StatementsPrint(floats: FloatReader, spell: FloatSpeller, ss: seq<Stmt>)
    requires PrintableProgram(floats, spell, ss)
    ensures GoodStatements(floats, ToStatements(spell, ss)) && TreeStatements(floats, ToStatements(spell, ss)) == ss
    decreases ss
  {
    if ss != [] {
      StatementPrints(floats, spell, ss[0]);
      StatementsPrint(floats, spell, ss[1..]);
      assert ToStatements(spell, ss)[1..] == ToStatements(spell, ss[1..]);
    }
  }

  /** Parsing what was printed gives the same program. */
  lemma PrintParses(floats: FloatReader, spell: FloatSpeller, p: Program)
    requires PrintableProgram(floats, spell, p)
    ensures Ended(Print(spell, p)) && ParseProgram(floats, Print(spell, p)) == Some(p)
  {
    hide WriteStatements, TreeStatements, GoodStatements, ProgramLoop, ToStatements, PrintableProgram;
    StatementsPrint(floats, spell, p);
    ProgramComplete(floats, ToStatements(spell, p), Tok(EndOfFile));
  }
}
