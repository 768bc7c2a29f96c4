/** The parser accepts everything the grammar derives, and builds the derivation's syntax tree. */
module ParserComplete {
  import opened Prelude
  import opened Ast
  import opened Tokens
  import opened ParserSpec
  import opened Grammar

  /** Where an expression ends: what follows neither continues it nor turns its last name into a call. */
  predicate Follows(ts: seq<Lexeme>) {
    Ended(ts) && !At(ts).LeftParen? && OperatorOf(At(ts)).None?
  }

  /** What is parsed starts like an expression. */
  lemma ExpressionStart(floats: FloatReader, ts: seq<Lexeme>)
    requires Ended(ts) && ParseComparison(floats, ts).Some?
    ensures At(ts).Identifier? || At(ts).IntegerLiteral? || At(ts).FloatLiteral? || At(ts).LeftParen?
  {
    hide ComparisonLoop, AdditiveLoop, MultiplicativeLoop, ParseIdentifierOrCall;
    assert ParseAdditive(floats, ts).Some?;
    assert ParseMultiplicative(floats, ts).Some?;
    assert ParsePrimary(floats, ts).Some?;
  }

  lemma {:induction false} PrimaryComplete(floats: FloatReader, p: Primary, ts: seq<Lexeme>)
    requires GoodPrimary(floats, p) && Ended(ts) && !At(ts).LeftParen?
    ensures Ended(WritePrimary(p, ts))
      && ParsePrimary(floats, WritePrimary(p, ts)) == Some((TreePrimary(floats, p), ts))
    decreases p, 0
  {
    hide Then, ParseComparison, WriteComparison, TreeComparison, TreeArgs, ArgumentLoop;
    match p
    case Name(_) =>
    case Integer(_) =>
    case Float(_) =>
    case Paren(inner) => ExpressionComplete(floats, inner, Then(Tok(RightParen), ts));
    case CallOf(callee, args) => CallComplete(floats, callee, args, ts);
  }

  lemma {:induction false} CallComplete(floats: FloatReader, callee: string, args: seq<Comparison>, ts: seq<Lexeme>)
    requires GoodArgs(floats, args) && Ended(ts)
    ensures var all := WritePrimary(CallOf(callee, args), ts);
      Ended(all) && ParsePrimary(floats, all) == Some((Call(callee, TreeArgs(floats, args)), ts))
    decreases args, 1
  {
    hide Then, ParseComparison, WriteComparison, TreeComparison, WriteMore, ArgumentLoop;
    var close := Then(Tok(RightParen), ts);
    if args != [] {
      var first := TreeComparison(floats, args[0]);
      ArgumentsComplete(floats, [first], args[1..], close);
      ExpressionComplete(floats, args[0], WriteMore(args[1..], close));
      ExpressionStart(floats, WriteArgs(args, close));
    }
  }

  lemma {:induction false} ArgumentsComplete(floats: FloatReader, done: seq<Expr>, args: seq<Comparison>,
                                             ts: seq<Lexeme>)
    requires GoodArgs(floats, args) && Ended(ts) && At(ts).RightParen?
    ensures Follows(WriteMore(args, ts))
      && ArgumentLoop(floats, done, WriteMore(args, ts)) == Some((done + TreeArgs(floats, args), ts))
    decreases args, 0
  {
    hide Then, ParseComparison, WriteComparison, TreeComparison;
    if args == [] {
      assert done + [] == done;
    } else {
      var first := TreeComparison(floats, args[0]);
      ArgumentsComplete(floats, done + [first], args[1..], ts);
      ExpressionComplete(floats, args[0], WriteMore(args[1..], ts));
      assert done + [first] + TreeArgs(floats, args[1..]) == done + ([first] + TreeArgs(floats, args[1..]));
    }
  }

  lemma {:induction false} MultiplicativeComplete(floats: FloatReader, m: Multiplicative, ts: seq<Lexeme>)
    requires GoodMultiplicative(floats, m) && Ended(ts) && !At(ts).LeftParen?
    ensures var all := WriteMultiplicative(m, ts);
      Ended(all) && ParseMultiplicative(floats, all) == MultiplicativeLoop(floats, TreeMultiplicative(floats, m), ts)
    decreases m, 1
  {
    hide Then, ParsePrimary, WritePrimary, TreePrimary, GoodPrimary;
    match m
    case OnePrimary(p) => PrimaryComplete(floats, p, ts);
    case Times(l, op, p) =>
      PrimaryComplete(floats, p, ts);
      MultiplicativeComplete(floats, l, Then(Tok(op), WritePrimary(p, ts)));
  }

  lemma {:induction false} AdditiveComplete(floats: FloatReader, a: Additive, ts: seq<Lexeme>)
    requires GoodAdditive(floats, a) && Ended(ts) && !At(ts).LeftParen? && !IsMultiplicative(At(ts))
    ensures var all := WriteAdditive(a, ts);
      Ended(all) && ParseAdditive(floats, all) == AdditiveLoop(floats, TreeAdditive(floats, a), ts)
    decreases a, 2
  {
    hide Then, ParseMultiplicative, WriteMultiplicative, TreeMultiplicative, GoodMultiplicative;
    match a
    case OneMultiplicative(m) => MultiplicativeComplete(floats, m, ts);
    case Sum(l, op, m) =>
      MultiplicativeComplete(floats, m, ts);
      AdditiveComplete(floats, l, Then(Tok(op), WriteMultiplicative(m, ts)));
  }

  lemma {:induction false} ComparisonComplete(floats: FloatReader, c: Comparison, ts: seq<Lexeme>)
    requires GoodComparison(floats, c) && Ended(ts) && !At(ts).LeftParen? && !IsMultiplicative(At(ts))
      && !IsAdditive(At(ts))
    ensures var all := WriteComparison(c, ts);
      Ended(all) && ParseComparison(floats, all) == ComparisonLoop(floats, TreeComparison(floats, c), ts)
    decreases c, 3
  {
    hide Then, ParseAdditive, WriteAdditive, TreeAdditive, GoodAdditive;
    match c
    case OneAdditive(a) => AdditiveComplete(floats, a, ts);
    case Compare(l, op, a) =>
      AdditiveComplete(floats, a, ts);
      ComparisonComplete(floats, l, Then(Tok(op), WriteAdditive(a, ts)));
  }

  lemma {:induction false} ExpressionComplete(floats: FloatReader, c: Comparison, ts: seq<Lexeme>)
    requires GoodComparison(floats, c) && Follows(ts)
    ensures Ended(WriteComparison(c, ts))
      && ParseComparison(floats, WriteComparison(c, ts)) == Some((TreeComparison(floats, c), ts))
    decreases c, 4
  {
    ComparisonComplete(floats, c, ts);
  }

  lemma {:induction false} DimensionsComplete(done: seq<nat>, dims: seq<string>, ts: seq<Lexeme>)
    requires Ended(ts) && !At(ts).Comma? && GoodDims(dims)
    ensures Ended(WriteDims(dims, ts)) && DimensionLoop(done, WriteDims(dims, ts)) == Some((done + TreeDims(dims), ts))
    decreases |dims|
  {
    hide Then, DecimalValue;
    if dims == [] {
      assert done + [] == done;
    } else {
      var d := DecimalValue(dims[0]);
      DimensionsComplete(done + [d], dims[1..], ts);
      assert done + [d] + TreeDims(dims[1..]) == done + ([d] + TreeDims(dims[1..]));
    }
  }

  lemma TypeComplete(element: string, first: string, more: seq<string>, ts: seq<Lexeme>)
    requires DecimalValue(first) < 0x1_0000_0000_0000_0000 && GoodDims(more) && Ended(ts)
    ensures Ended(WriteType(element, first, more, ts))
    ensures ParseTensorType(WriteType(element, first, more, ts)) ==
            Some((TensorType(element, [DecimalValue(first)] + TreeDims(more)), ts))
  {
    hide Then, DecimalValue, DimensionLoop, WriteDims, TreeDims, GoodDims;
    DimensionsComplete([DecimalValue(first)], more, Then(Tok(RightBracket), ts));
  }

  lemma {:induction false} StatementComplete(floats: FloatReader, s: Statement, ts: seq<Lexeme>)
    requires GoodStatement(floats, s) && Follows(ts)
    ensures Ended(WriteStatement(s, ts))
      && ParseStatement(floats, WriteStatement(s, ts)) == Some((TreeStatement(floats, s), ts))
    decreases s, 3
  {
    hide Then, ParseComparison, WriteComparison, TreeComparison, ParseTensorType, WriteType, ParseBlock, WriteBlock,
      GoodStatements;
    match s
    case Declaration(name, element, first, more) => TypeComplete(element, first, more, ts);
    case Assignment(target, e) => ExpressionComplete(floats, e, ts);
    case Returning(e) => ExpressionComplete(floats, e, ts);
    case Conditional(c, thn, els) =>
      var rest := Then(Tok(KwElse), WriteBlock(els, ts));
      BlockComplete(floats, els, ts);
      BlockComplete(floats, thn, rest);
      ExpressionComplete(floats, c, WriteBlock(thn, rest));
  }

  lemma {:induction false} BlockComplete(floats: FloatReader, ss: seq<Statement>, ts: seq<Lexeme>)
    requires GoodStatements(floats, ss) && Ended(ts)
    ensures Ended(WriteBlock(ss, ts)) && At(WriteBlock(ss, ts)).LeftBrace?
    ensures ParseBlock(floats, WriteBlock(ss, ts)) == Some((TreeStatements(floats, ss), ts))
    decreases ss, 2
  {
    hide Then, BlockLoop, WriteStatements, TreeStatements, GoodStatements;
    BlockLoopComplete(floats, [], ss, ts);
    assert [] + TreeStatements(floats, ss) == TreeStatements(floats, ss);
  }

  /** A statement never continues the expression before it, and does not close a block. */
  lemma StatementStart(s: Statement, ts: seq<Lexeme>)
    requires Ended(WriteStatement(s, ts))
    ensures Follows(WriteStatement(s, ts))
    ensures !At(WriteStatement(s, ts)).RightBrace? && !At(WriteStatement(s, ts)).EndOfFile?
  {
    hide Then, WriteComparison, WriteBlock, WriteType;
  }

  lemma {:induction false} BlockLoopComplete(floats: FloatReader, done: seq<Stmt>, ss: seq<Statement>, ts: seq<Lexeme>)
    requires GoodStatements(floats, ss) && Ended(ts)
    ensures var all := WriteStatements(ss, Then(Tok(RightBrace), ts));
      Follows(all) && BlockLoop(floats, done, all) == Some((done + TreeStatements(floats, ss), ts))
    decreases ss, 1
  {
    hide Then, ParseStatement, WriteStatement, TreeStatement, GoodStatement;
    if ss == [] {
      assert done + [] == done;
    } else {
      var s := TreeStatement(floats, ss[0]);
      var rest := WriteStatements(ss[1..], Then(Tok(RightBrace), ts));
      BlockLoopComplete(floats, done + [s], ss[1..], ts);
      StatementComplete(floats, ss[0], rest);
      StatementStart(ss[0], rest);
      assert done + [s] + TreeStatements(floats, ss[1..]) == done + ([s] + TreeStatements(floats, ss[1..]));
    }
  }

  lemma {:induction false} ProgramLoopComplete(floats: FloatReader, done: seq<Stmt>, ss: seq<Statement>, end: Lexeme)
    requires GoodStatements(floats, ss) && end.kind.EndOfFile?
    ensures var all := WriteStatements(ss, [end]);
      Follows(all) && ProgramLoop(floats, done, all) == Some(done + TreeStatements(floats, ss))
    decreases |ss|
  {
    hide Then, ParseStatement, WriteStatement, TreeStatement, GoodStatement;
    if ss == [] {
      assert done + [] == done;
    } else {
      var s := TreeStatement(floats, ss[0]);
      var rest := WriteStatements(ss[1..], [end]);
      ProgramLoopComplete(floats, done + [s], ss[1..], end);
      StatementComplete(floats, ss[0], rest);
      StatementStart(ss[0], rest);
      assert done + [s] + TreeStatements(floats, ss[1..]) == done + ([s] + TreeStatements(floats, ss[1..]));
    }
  }

  /** Completeness: every derivation with literals in range is parsed to its syntax tree. */
  lemma ProgramComplete(floats: FloatReader, ss: seq<Statement>, end: Lexeme)
    requires GoodStatements(floats, ss) && end.kind.EndOfFile?
    ensures Ended(WriteStatements(ss, [end]))
      && ParseProgram(floats, WriteStatements(ss, [end])) == Some(TreeStatements(floats, ss))
  {
    hide WriteStatements, TreeStatements, ProgramLoop;
    ProgramLoopComplete(floats, [], ss, end);
    assert [] + TreeStatements(floats, ss) == TreeStatements(floats, ss);
  }
}
