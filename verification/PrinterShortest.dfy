/** The printer's output is the shortest of all streams that parse to the program. */
module PrinterShortest {
  import opened Prelude
  import opened Ast
  import opened Tokens
  import opened ParserSpec
  import opened Grammar
  import opened ParserSound
  import opened Printer

  /** The number of lexemes of a derivation. */
  function CountPrimary(p: Primary): nat
    decreases p
  {
    match p
    case CallOf(_, args) => 3 + CountMore(args) - (if args == [] then 0 else 1)
    case Paren(inner) => 2 + CountComparison(inner)
    case _ => 1
  }

  function CountMore(args: seq<Comparison>): (n: nat)
    ensures n >= |args|
    decreases args
  {
    if args == [] then 0 else 1 + CountComparison(args[0]) + CountMore(args[1..])
  }

  function CountMultiplicative(m: Multiplicative): nat {
    match m
    case OnePrimary(p) => CountPrimary(p)
    case Times(l, _, p) => CountMultiplicative(l) + 1 + CountPrimary(p)
  }

  function CountAdditive(a: Additive): nat {
    match a
    case OneMultiplicative(m) => CountMultiplicative(m)
    case Sum(l, _, m) => CountAdditive(l) + 1 + CountMultiplicative(m)
  }

  function CountComparison(c: Comparison): nat {
    match c
    case OneAdditive(a) => CountAdditive(a)
    case Compare(l, _, a) => CountComparison(l) + 1 + CountAdditive(a)
  }

  function CountStatement(s: Statement): nat
    decreases s
  {
    match s
    case Declaration(_, _, _, more) => 7 + 2 * |more|
    case Assignment(_, e) => 2 + CountComparison(e)
    case Returning(e) => 1 + CountComparison(e)
    case Conditional(c, thn, els) => 6 + CountComparison(c) + CountStatements(thn) + CountStatements(els)
  }

  function CountStatements(ss: seq<Statement>): nat
    decreases ss
  {
    if ss == [] then 0 else CountStatement(ss[0]) + CountStatements(ss[1..])
  }

  lemma {:induction false} PrimaryLength(p: Primary, ts: seq<Lexeme>)
    ensures |WritePrimary(p, ts)| == CountPrimary(p) + |ts|
    decreases p, 0
  {
    hide Then;
    match p
    case CallOf(_, args) =>
      if args != [] {
        var rest := Then(Tok(RightParen), ts);
        ComparisonLength(args[0], WriteMore(args[1..], rest));
        MoreLength(args[1..], rest);
      }
    case Paren(inner) => ComparisonLength(inner, Then(Tok(RightParen), ts));
    case _ =>
  }

  lemma {:induction false} MoreLength(args: seq<Comparison>, ts: seq<Lexeme>)
    ensures |WriteMore(args, ts)| == CountMore(args) + |ts|
    decreases args
  {
    if args != [] {
      ComparisonLength(args[0], WriteMore(args[1..], ts));
      MoreLength(args[1..], ts);
    }
  }

  lemma {:induction false} MultiplicativeLength(m: Multiplicative, ts: seq<Lexeme>)
    ensures |WriteMultiplicative(m, ts)| == CountMultiplicative(m) + |ts|
    decreases m
  {
    match m
    case OnePrimary(p) => PrimaryLength(p, ts);
    case Times(l, op, p) =>
      PrimaryLength(p, ts);
      MultiplicativeLength(l, Then(Tok(op), WritePrimary(p, ts)));
  }

  lemma {:induction false} AdditiveLength(a: Additive, ts: seq<Lexeme>)
    ensures |WriteAdditive(a, ts)| == CountAdditive(a) + |ts|
    decreases a
  {
    match a
    case OneMultiplicative(m) => MultiplicativeLength(m, ts);
    case Sum(l, op, m) =>
      MultiplicativeLength(m, ts);
      AdditiveLength(l, Then(Tok(op), WriteMultiplicative(m, ts)));
  }

  lemma {:induction false} ComparisonLength(c: Comparison, ts: seq<Lexeme>)
    ensures |WriteComparison(c, ts)| == CountComparison(c) + |ts|
    decreases c
  {
    match c
    case OneAdditive(a) => AdditiveLength(a, ts);
    case Compare(l, op, a) =>
      AdditiveLength(a, ts);
      ComparisonLength(l, Then(Tok(op), WriteAdditive(a, ts)));
  }

  lemma {:induction false} DimsLength(dims: seq<string>, ts: seq<Lexeme>)
    ensures |WriteDims(dims, ts)| == 2 * |dims| + |ts|
    decreases |dims|
  {
    if dims != [] {
      DimsLength(dims[1..], ts);
    }
  }

  lemma {:induction false} StatementLength(s: Statement, ts: seq<Lexeme>)
    ensures |WriteStatement(s, ts)| == CountStatement(s) + |ts|
    decreases s, 0
  {
    hide Then, WriteComparison, CountComparison;
    match s
    case Declaration(_, _, _, more) => DimsLength(more, Then(Tok(RightBracket), ts));
    case Assignment(_, e) => ComparisonLength(e, ts);
    case Returning(e) => ComparisonLength(e, ts);
    case Conditional(c, thn, els) =>
      var rest := Then(Tok(KwElse), WriteBlock(els, ts));
      StatementsLength(els, Then(Tok(RightBrace), ts));
      StatementsLength(thn, Then(Tok(RightBrace), rest));
      ComparisonLength(c, WriteBlock(thn, rest));
  }

  lemma {:induction false} StatementsLength(ss: seq<Statement>, ts: seq<Lexeme>)
    ensures |WriteStatements(ss, ts)| == CountStatements(ss) + |ts|
    decreases ss
  {
    if ss != [] {
      StatementLength(ss[0], WriteStatements(ss[1..], ts));
      StatementsLength(ss[1..], ts);
    }
  }

  /** Standing where only a primary can costs at most one pair of parentheses. */
  lemma Levels(spell: FloatSpeller, e: Expr)
    ensures CountComparison(ToComparison(spell, e)) <= CountAdditive(ToAdditive(spell, e))
            <= CountMultiplicative(ToMultiplicative(spell, e)) <= CountPrimary(ToPrimary(spell, e))
            <= CountComparison(ToComparison(spell, e)) + 2
  {
  }

  lemma {:induction false} PrimaryShortest(floats: FloatReader, spell: FloatSpeller, p: Primary)
    requires GoodPrimary(floats, p)
    ensures CountPrimary(ToPrimary(spell, TreePrimary(floats, p))) <= CountPrimary(p)
    decreases p
  {
    match p
    case CallOf(_, args) => MoreShortest(floats, spell, args);
    case Paren(inner) =>
      ComparisonShortest(floats, spell, inner);
      Levels(spell, TreeComparison(floats, inner));
    case _ =>
  }

  lemma {:induction false} MoreShortest(floats: FloatReader, spell: FloatSpeller, args: seq<Comparison>)
    requires GoodArgs(floats, args)
    ensures CountMore(ToArgs(spell, TreeArgs(floats, args))) <= CountMore(args)
    ensures ToArgs(spell, TreeArgs(floats, args)) == [] <==> args == []
    decreases args
  {
    if args != [] {
      ComparisonShortest(floats, spell, args[0]);
      MoreShortest(floats, spell, args[1..]);
      var trees := TreeArgs(floats, args);
      assert trees[1..] == TreeArgs(floats, args[1..]);
      assert ToArgs(spell, trees)[1..] == ToArgs(spell, trees[1..]);
    }
  }

  lemma {:induction false} MultiplicativeShortest(floats: FloatReader, spell: FloatSpeller, m: Multiplicative)
    requires GoodMultiplicative(floats, m)
    ensures CountMultiplicative(ToMultiplicative(spell, TreeMultiplicative(floats, m))) <= CountMultiplicative(m)
    decreases m
  {
    Levels(spell, TreeMultiplicative(floats, m));
    match m
    case OnePrimary(p) => PrimaryShortest(floats, spell, p);
    case Times(l, op, p) =>
      MultiplicativeShortest(floats, spell, l);
      PrimaryShortest(floats, spell, p);
  }

  lemma {:induction false} AdditiveShortest(floats: FloatReader, spell: FloatSpeller, a: Additive)
    requires GoodAdditive(floats, a)
    ensures CountAdditive(ToAdditive(spell, TreeAdditive(floats, a))) <= CountAdditive(a)
    decreases a
  {
    Levels(spell, TreeAdditive(floats, a));
    match a
    case OneMultiplicative(m) => MultiplicativeShortest(floats, spell, m);
    case Sum(l, op, m) =>
      AdditiveShortest(floats, spell, l);
      MultiplicativeShortest(floats, spell, m);
  }

  lemma {:induction false} ComparisonShortest(floats: FloatReader, spell: FloatSpeller, c: Comparison)
    requires GoodComparison(floats, c)
    ensures CountComparison(ToComparison(spell, TreeComparison(floats, c))) <= CountComparison(c)
    decreases c
  {
    hide CountAdditive, ToAdditive, TreeAdditive, GoodAdditive;
    Levels(spell, TreeComparison(floats, c));
    match c
    case OneAdditive(a) => AdditiveShortest(floats, spell, a);
    case Compare(l, op, a) =>
      ComparisonShortest(floats, spell, l);
      AdditiveShortest(floats, spell, a);
  }

  lemma {:induction false} DimsSize(dims: seq<string>)
    requires GoodDims(dims)
    ensures |ToDims(TreeDims(dims))| == |dims|
    decreases |dims|
  {
    if dims != [] {
      DimsSize(dims[1..]);
      assert TreeDims(dims)[1..] == TreeDims(dims[1..]);
    }
  }

  lemma {:induction false} StatementShortest(floats: FloatReader, spell: FloatSpeller, s: Statement)
    requires GoodStatement(floats, s)
    ensures CountStatement(ToStatement(spell, TreeStatement(floats, s))) <= CountStatement(s)
    decreases s
  {
    match s
    case Declaration(_, _, first, more) =>
      DimsSize([first] + more);
      assert ([first] + more)[1..] == more;
    case Assignment(_, e) => ComparisonShortest(floats, spell, e);
    case Returning(e) => ComparisonShortest(floats, spell, e);
    case Conditional(c, thn, els) =>
      ComparisonShortest(floats, spell, c);
      StatementsShortest(floats, spell, thn);
      StatementsShortest(floats, spell, els);
  }

  lemma {:induction false} StatementsShortest(floats: FloatReader, spell: FloatSpeller, ss: seq<Statement>)
    requires GoodStatements(floats, ss)
    ensures CountStatements(ToStatements(spell, TreeStatements(floats, ss))) <= CountStatements(ss)
    decreases ss
  {
    if ss != [] {
      StatementShortest(floats, spell, ss[0]);
      StatementsShortest(floats, spell, ss[1..]);
      var trees := TreeStatements(floats, ss);
      assert trees[1..] == TreeStatements(floats, ss[1..]);
      assert ToStatements(spell, trees)[1..] == ToStatements(spell, trees[1..]);
    }
  }

  /** No stream that parses to `p` has fewer lexemes than the printed one: no parenthesis is spare. */
  lemma PrintShortest(floats: FloatReader, spell: FloatSpeller, ts: seq<Lexeme>, p: Program)
    requires Stream(ts) && ParseProgram(floats, ts) == Some(p)
    ensures |Print(spell, p)| <= |ts|
  {
    hide WriteStatements, TreeStatements, GoodStatements, ProgramLoop, ToStatements, CountStatements, AllPlaced;
    ParserExact(floats, ts, p);
    var ss :| Derives(floats, ss, ts, p);
    StatementsShortest(floats, spell, ss);
    StatementsLength(ss, [Tok(EndOfFile)]);
    StatementsLength(ToStatements(spell, p), [Tok(EndOfFile)]);
  }
}
