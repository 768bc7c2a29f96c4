/** Which programs parsing can return: exactly the printable ones. */
module ParserRange {
  import opened Prelude
  import opened Ast
  import opened Tokens
  import opened ParserSpec
  import opened Grammar
  import opened ParserSound
  import opened Printer

  /** `spell` finds a spelling of every float that some literal denotes. */
  ghost predicate SpellsAll(floats: FloatReader, spell: FloatSpeller) {
    forall s :: floats(s).Some? ==> floats(spell(floats(s).value)) == floats(s)
  }

  lemma {:induction false} PrimaryPrintable(floats: FloatReader, spell: FloatSpeller, p: Primary)
    requires GoodPrimary(floats, p) && SpellsAll(floats, spell)
    ensures Printable(floats, spell, TreePrimary(floats, p))
    decreases p
  {
    match p
    case CallOf(_, args) => ArgsPrintable(floats, spell, args);
    case Paren(inner) => ComparisonPrintable(floats, spell, inner);
    case _ =>
  }

  lemma {:induction false} ArgsPrintable(floats: FloatReader, spell: FloatSpeller, args: seq<Comparison>)
    requires GoodArgs(floats, args) && SpellsAll(floats, spell)
    ensures PrintableArgs(floats, spell, TreeArgs(floats, args))
    decreases args
  {
    if args != [] {
      ComparisonPrintable(floats, spell, args[0]);
      ArgsPrintable(floats, spell, args[1..]);
      assert TreeArgs(floats, args)[1..] == TreeArgs(floats, args[1..]);
    }
  }

  lemma {:induction false} MultiplicativePrintable(floats: FloatReader, spell: FloatSpeller, m: Multiplicative)
    requires GoodMultiplicative(floats, m) && SpellsAll(floats, spell)
    ensures Printable(floats, spell, TreeMultiplicative(floats, m))
    decreases m
  {
    match m
    case OnePrimary(p) => PrimaryPrintable(floats, spell, p);
    case Times(l, op, p) =>
      MultiplicativePrintable(floats, spell, l);
      PrimaryPrintable(floats, spell, p);
  }

  lemma {:induction false} AdditivePrintable(floats: FloatReader, spell: FloatSpeller, a: Additive)
    requires GoodAdditive(floats, a) && SpellsAll(floats, spell)
    ensures Printable(floats, spell, TreeAdditive(floats, a))
    decreases a
  {
    match a
    case OneMultiplicative(m) => MultiplicativePrintable(floats, spell, m);
    case Sum(l, op, m) =>
      AdditivePrintable(floats, spell, l);
      MultiplicativePrintable(floats, spell, m);
  }

  lemma {:induction false} ComparisonPrintable(floats: FloatReader, spell: FloatSpeller, c: Comparison)
    requires GoodComparison(floats, c) && SpellsAll(floats, spell)
    ensures Printable(floats, spell, TreeComparison(floats, c))
    decreases c
  {
    match c
    case OneAdditive(a) => AdditivePrintable(floats, spell, a);
    case Compare(l, op, a) =>
      ComparisonPrintable(floats, spell, l);
      AdditivePrintable(floats, spell, a);
  }

  lemma {:induction false} DimsPrintable(dims: seq<string>)
    requires GoodDims(dims)
    ensures PrintableDims(TreeDims(dims))
    decreases |dims|
  {
    if dims != [] {
      DimsPrintable(dims[1..]);
      assert TreeDims(dims)[1..] == TreeDims(dims[1..]);
    }
  }

  lemma {:induction false} StatementPrintable(floats: FloatReader, spell: FloatSpeller, s: Statement)
    requires GoodStatement(floats, s) && SpellsAll(floats, spell)
    ensures PrintableStatement(floats, spell, TreeStatement(floats, s))
    decreases s
  {
    match s
    case Declaration(_, _, first, more) =>
      DimsPrintable([first] + more);
      assert ([first] + more)[1..] == more;
    case Assignment(_, e) => ComparisonPrintable(floats, spell, e);
    case Returning(e) => ComparisonPrintable(floats, spell, e);
    case Conditional(c, thn, els) =>
      ComparisonPrintable(floats, spell, c);
      StatementsPrintable(floats, spell, thn);
      StatementsPrintable(floats, spell, els);
  }

  lemma {:induction false} StatementsPrintable(floats: FloatReader, spell: FloatSpeller, ss: seq<Statement>)
    requires GoodStatements(floats, ss) && SpellsAll(floats, spell)
    ensures PrintableProgram(floats, spell, TreeStatements(floats, ss))
    decreases ss
  {
    if ss != [] {
      StatementPrintable(floats, spell, ss[0]);
      StatementsPrintable(floats, spell, ss[1..]);
      assert TreeStatements(floats, ss)[1..] == TreeStatements(floats, ss[1..]);
    }
  }

  /** The programs that parsing can return are exactly the printable ones. */
  lemma ParserRange(floats: FloatReader, spell: FloatSpeller, ts: seq<Lexeme>, p: Program)
    requires SpellsAll(floats, spell) && Stream(ts) && ParseProgram(floats, ts) == Some(p)
    ensures PrintableProgram(floats, spell, p) && Ended(Print(spell, p))
      && ParseProgram(floats, Print(spell, p)) == Some(p)
  {
    hide WriteStatements, TreeStatements, GoodStatements, ProgramLoop, PrintableProgram, Print, AllPlaced, SpellsAll;
    ParserExact(floats, ts, p);
    var ss :| Derives(floats, ss, ts, p);
    StatementsPrintable(floats, spell, ss);
    PrintParses(floats, spell, p);
  }
}
