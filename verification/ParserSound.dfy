/** Whatever the parser accepts has a derivation in the grammar, with the returned syntax tree. */
module ParserSound {
  import opened Prelude
  import opened Ast
  import opened Tokens
  import opened ParserSpec
  import opened Grammar
  import opened ParserComplete

  /** Taking the first lexeme off a stream leaves a stream. */
  lemma Front(ts: seq<Lexeme>)
    requires Stream(ts) && !At(ts).EndOfFile?
    ensures Stream(ts[1..]) && ts == Then(Lexeme(At(ts), ts[0].text), ts[1..])
    ensures Spelling(At(ts)).Some? ==> ts == Then(Tok(At(ts)), ts[1..])
  {
    hide Spelling, Tok;
    var rest := ts[1..];
    assert Placed(ts[0], 0 == |ts| - 1);
    forall i | 0 <= i < |rest| ensures Placed(rest[i], i == |rest| - 1) {
      assert Placed(ts[i + 1], i + 1 == |ts| - 1);
    }
  }

  lemma {:induction false} PrimarySound(floats: FloatReader, ts: seq<Lexeme>) returns (p: Primary)
    requires Stream(ts) && ParsePrimary(floats, ts).Some?
    ensures var (e, rest) := ParsePrimary(floats, ts).value;
      GoodPrimary(floats, p) && TreePrimary(floats, p) == e && ts == WritePrimary(p, rest) && Stream(rest)
    decreases |ts|, 2
  {
    hide Then, AllPlaced, ParseComparison, WriteComparison, TreeComparison, GoodComparison, ParseIdentifierOrCall;
    Front(ts);
    match At(ts) {
      case IntegerLiteral => p := Integer(ts[0].text);
      case FloatLiteral => p := Float(ts[0].text);
      case LeftParen =>
        var inner := ComparisonSound(floats, ts[1..]);
        Front(ParseComparison(floats, ts[1..]).value.1);
        p := Paren(inner);
      case Identifier => p := CallSound(floats, ts);
    }
  }

  lemma {:induction false} CallSound(floats: FloatReader, ts: seq<Lexeme>) returns (p: Primary)
    requires Stream(ts) && At(ts).Identifier? && ParseIdentifierOrCall(floats, ts).Some?
    ensures var (e, rest) := ParseIdentifierOrCall(floats, ts).value;
      GoodPrimary(floats, p) && TreePrimary(floats, p) == e && ts == WritePrimary(p, rest) && Stream(rest)
    decreases |ts|, 1
  {
    hide Then, AllPlaced, ParseComparison, WriteComparison, TreeComparison, GoodComparison, ArgumentLoop, WriteArgs,
      TreeArgs;
    Front(ts);
    var rest := ts[1..];
    if !At(rest).LeftParen? {
      return Name(ts[0].text);
    }
    Front(rest);
    if At(rest[1..]).RightParen? {
      Front(rest[1..]);
      NoArguments(floats, rest[1..]);
      return CallOf(ts[0].text, []);
    }
    var args := ArgumentListSound(floats, rest[1..]);
    var (e, rest1) := ParseComparison(floats, rest[1..]).value;
    Front(ArgumentLoop(floats, [e], rest1).value.1);
    p := CallOf(ts[0].text, args);
  }

  lemma NoArguments(floats: FloatReader, ts: seq<Lexeme>)
    ensures GoodArgs(floats, []) && TreeArgs(floats, []) == [] && WriteArgs([], ts) == ts
  {
  }

  /** One argument or more, before the closing parenthesis. */
  lemma {:induction false} ArgumentListSound(floats: FloatReader, ts: seq<Lexeme>) returns (args: seq<Comparison>)
    requires Stream(ts) && ParseComparison(floats, ts).Some?
    requires var (e, rest) := ParseComparison(floats, ts).value; ArgumentLoop(floats, [e], rest).Some?
    ensures var (e, rest) := ParseComparison(floats, ts).value;
      var (es, after) := ArgumentLoop(floats, [e], rest).value;
      GoodArgs(floats, args) && TreeArgs(floats, args) == es && ts == WriteArgs(args, after) && Stream(after)
    decreases |ts|, 9
  {
    hide Then, AllPlaced, ParseComparison, WriteComparison, TreeComparison, GoodComparison, ArgumentLoop, WriteMore;
    var c := ComparisonSound(floats, ts);
    var (e, rest) := ParseComparison(floats, ts).value;
    var more := ArgumentsSound(floats, [e], rest);
    args := [c] + more;
    assert args[1..] == more;
  }

  lemma {:induction false} ArgumentsSound(floats: FloatReader, done: seq<Expr>, ts: seq<Lexeme>)
    returns (more: seq<Comparison>)
    requires Stream(ts) && ArgumentLoop(floats, done, ts).Some?
    ensures var (args, rest) := ArgumentLoop(floats, done, ts).value;
      GoodArgs(floats, more) && args == done + TreeArgs(floats, more) && ts == WriteMore(more, rest) && Stream(rest)
    decreases |ts|, 0
  {
    hide Then, AllPlaced, ParseComparison, WriteComparison, TreeComparison, GoodComparison;
    if !At(ts).Comma? {
      more := [];
    } else {
      Front(ts);
      var c := ComparisonSound(floats, ts[1..]);
      var (e, rest) := ParseComparison(floats, ts[1..]).value;
      var tail := ArgumentsSound(floats, done + [e], rest);
      more := [c] + tail;
      assert more[1..] == tail;
      assert done + [e] + TreeArgs(floats, tail) == done + ([e] + TreeArgs(floats, tail));
    }
  }

  lemma {:induction false} MultiplicativeSound(floats: FloatReader, ts: seq<Lexeme>) returns (m: Multiplicative)
    requires Stream(ts) && ParseMultiplicative(floats, ts).Some?
    ensures var (e, rest) := ParseMultiplicative(floats, ts).value;
      GoodMultiplicative(floats, m) && TreeMultiplicative(floats, m) == e && ts == WriteMultiplicative(m, rest)
        && Stream(rest)
    decreases |ts|, 4
  {
    hide Then, AllPlaced, ParsePrimary, WritePrimary, TreePrimary, GoodPrimary, MultiplicativeLoop;
    var p := PrimarySound(floats, ts);
    var (e, rest) := ParsePrimary(floats, ts).value;
    m := MultiplicativeLoopSound(floats, OnePrimary(p), rest);
  }

  /** The loop extends the derivation on the left. */
  lemma {:induction false} MultiplicativeLoopSound(floats: FloatReader, left: Multiplicative, ts: seq<Lexeme>)
    returns (m: Multiplicative)
    requires Stream(ts) && GoodMultiplicative(floats, left)
      && MultiplicativeLoop(floats, TreeMultiplicative(floats, left), ts).Some?
    ensures var (e, rest) := MultiplicativeLoop(floats, TreeMultiplicative(floats, left), ts).value;
      && GoodMultiplicative(floats, m) && TreeMultiplicative(floats, m) == e
      && WriteMultiplicative(left, ts) == WriteMultiplicative(m, rest) && Stream(rest)
    decreases |ts|, 3
  {
    hide Then, AllPlaced, ParsePrimary, WritePrimary, TreePrimary, GoodPrimary;
    if !IsMultiplicative(At(ts)) {
      m := left;
    } else {
      Front(ts);
      var p := PrimarySound(floats, ts[1..]);
      m := MultiplicativeLoopSound(floats, Times(left, At(ts), p), ParsePrimary(floats, ts[1..]).value.1);
    }
  }

  lemma {:induction false} AdditiveSound(floats: FloatReader, ts: seq<Lexeme>) returns (a: Additive)
    requires Stream(ts) && ParseAdditive(floats, ts).Some?
    ensures var (e, rest) := ParseAdditive(floats, ts).value;
      GoodAdditive(floats, a) && TreeAdditive(floats, a) == e && ts == WriteAdditive(a, rest) && Stream(rest)
    decreases |ts|, 6
  {
    hide Then, AllPlaced, ParseMultiplicative, WriteMultiplicative, TreeMultiplicative, GoodMultiplicative,
      AdditiveLoop;
    var m := MultiplicativeSound(floats, ts);
    a := AdditiveLoopSound(floats, OneMultiplicative(m), ParseMultiplicative(floats, ts).value.1);
  }

  lemma {:induction false} AdditiveLoopSound(floats: FloatReader, left: Additive, ts: seq<Lexeme>) returns (a: Additive)
    requires Stream(ts) && GoodAdditive(floats, left) && AdditiveLoop(floats, TreeAdditive(floats, left), ts).Some?
    ensures var (e, rest) := AdditiveLoop(floats, TreeAdditive(floats, left), ts).value;
      && GoodAdditive(floats, a) && TreeAdditive(floats, a) == e
      && WriteAdditive(left, ts) == WriteAdditive(a, rest) && Stream(rest)
    decreases |ts|, 5
  {
    hide Then, AllPlaced, ParseMultiplicative, WriteMultiplicative, TreeMultiplicative, GoodMultiplicative;
    if !IsAdditive(At(ts)) {
      a := left;
    } else {
      Front(ts);
      var m := MultiplicativeSound(floats, ts[1..]);
      a := AdditiveLoopSound(floats, Sum(left, At(ts), m), ParseMultiplicative(floats, ts[1..]).value.1);
    }
  }

  lemma {:induction false} ComparisonSound(floats: FloatReader, ts: seq<Lexeme>) returns (c: Comparison)
    requires Stream(ts) && ParseComparison(floats, ts).Some?
    ensures var (e, rest) := ParseComparison(floats, ts).value;
      GoodComparison(floats, c) && TreeComparison(floats, c) == e && ts == WriteComparison(c, rest) && Stream(rest)
    decreases |ts|, 8
  {
    hide Then, AllPlaced, ParseAdditive, WriteAdditive, TreeAdditive, GoodAdditive, ComparisonLoop;
    var a := AdditiveSound(floats, ts);
    c := ComparisonLoopSound(floats, OneAdditive(a), ParseAdditive(floats, ts).value.1);
  }

  lemma {:induction false} ComparisonLoopSound(floats: FloatReader, left: Comparison, ts: seq<Lexeme>)
    returns (c: Comparison)
    requires Stream(ts) && GoodComparison(floats, left)
      && ComparisonLoop(floats, TreeComparison(floats, left), ts).Some?
    ensures var (e, rest) := ComparisonLoop(floats, TreeComparison(floats, left), ts).value;
      && GoodComparison(floats, c) && TreeComparison(floats, c) == e
      && WriteComparison(left, ts) == WriteComparison(c, rest) && Stream(rest)
    decreases |ts|, 7
  {
    hide Then, AllPlaced, ParseAdditive, WriteAdditive, TreeAdditive, GoodAdditive;
    if !IsComparison(At(ts)) {
      c := left;
    } else {
      Front(ts);
      var a := AdditiveSound(floats, ts[1..]);
      c := ComparisonLoopSound(floats, Compare(left, At(ts), a), ParseAdditive(floats, ts[1..]).value.1);
    }
  }

  lemma {:induction false} DimensionsSound(done: seq<nat>, ts: seq<Lexeme>) returns (more: seq<string>)
    requires Stream(ts) && DimensionLoop(done, ts).Some?
    ensures var (shape, rest) := DimensionLoop(done, ts).value;
      GoodDims(more) && shape == done + TreeDims(more) && ts == WriteDims(more, rest) && Stream(rest)
    decreases |ts|
  {
    hide Then, AllPlaced, DecimalValue;
    if !At(ts).Comma? {
      more := [];
    } else {
      Front(ts);
      Front(ts[1..]);
      var (text, rest) := Expect(IntegerLiteral, ts[1..]).value;
      var d := ReadDimension(text).value;
      var tail := DimensionsSound(done + [d], rest);
      more := [text] + tail;
      assert more[1..] == tail;
      assert done + [d] + TreeDims(tail) == done + ([d] + TreeDims(tail));
    }
  }

  lemma TypeSound(ts: seq<Lexeme>) returns (element: string, first: string, more: seq<string>)
    requires Stream(ts) && ParseTensorType(ts).Some?
    ensures var (ty, rest) := ParseTensorType(ts).value;
      && DecimalValue(first) < 0x1_0000_0000_0000_0000 && GoodDims(more)
        && ty == TensorType(element, [DecimalValue(first)] + TreeDims(more))
      && ts == WriteType(element, first, more, rest) && Stream(rest)
  {
    hide Then, AllPlaced, DecimalValue, DimensionLoop, WriteDims, TreeDims, GoodDims;
    Front(ts);
    Front(ts[1..]);
    Front(ts[1..][1..]);
    element, first := ts[0].text, ts[1..][1..][0].text;
    var d, rest := ReadDimension(first).value, ts[1..][1..][1..];
    more := DimensionsSound([d], rest);
    Front(DimensionLoop([d], rest).value.1);
  }

  lemma DeclarationSound(floats: FloatReader, ts: seq<Lexeme>) returns (s: Statement)
    requires Stream(ts) && At(ts).KwTensor? && ParseStatement(floats, ts).Some?
    ensures var (t, rest) := ParseStatement(floats, ts).value;
      GoodStatement(floats, s) && TreeStatement(floats, s) == t && ts == WriteStatement(s, rest) && Stream(rest)
  {
    hide Then, AllPlaced, ParseComparison, ParseTensorType, WriteType, ParseBlock, GoodDims, TreeDims;
    Front(ts);
    Front(ts[1..]);
    Front(ts[1..][1..]);
    var element, first, more := TypeSound(ts[1..][1..][1..]);
    s := Declaration(ts[1..][0].text, element, first, more);
  }

  lemma {:induction false} StatementSound(floats: FloatReader, ts: seq<Lexeme>) returns (s: Statement)
    requires Stream(ts) && ParseStatement(floats, ts).Some?
    ensures var (t, rest) := ParseStatement(floats, ts).value;
      GoodStatement(floats, s) && TreeStatement(floats, s) == t && ts == WriteStatement(s, rest) && Stream(rest)
    decreases |ts|, 1
  {
    hide Then, AllPlaced, ParseComparison, WriteComparison, TreeComparison, ParseTensorType, WriteType, ParseBlock,
      WriteBlock,
         GoodStatements, GoodComparison, GoodDims, TreeDims, TreeStatements;
    Front(ts);
    match At(ts) {
      case KwTensor => s := DeclarationSound(floats, ts);
      case KwReturn =>
        var c := ComparisonSound(floats, ts[1..]);
        s := Returning(c);
      case KwIf => s := ConditionalSound(floats, ts);
      case Identifier =>
        Front(ts[1..]);
        var c := ComparisonSound(floats, ts[1..][1..]);
        s := Assignment(ts[0].text, c);
    }
  }

  lemma {:induction false} ConditionalSound(floats: FloatReader, ts: seq<Lexeme>) returns (s: Statement)
    requires Stream(ts) && At(ts).KwIf? && ParseStatement(floats, ts).Some?
    ensures var (t, rest) := ParseStatement(floats, ts).value;
      GoodStatement(floats, s) && TreeStatement(floats, s) == t && ts == WriteStatement(s, rest) && Stream(rest)
    decreases |ts|, 0
  {
    hide Then, AllPlaced, ParseComparison, WriteComparison, TreeComparison, ParseBlock, WriteBlock,
         GoodStatements, GoodComparison, TreeStatements;
    Front(ts);
    var c := ComparisonSound(floats, ts[1..]);
    var ts1 := ParseComparison(floats, ts[1..]).value.1;
    var thn := BlockSound(floats, ts1);
    var ts2 := ParseBlock(floats, ts1).value.1;
    Front(ts2);
    var els := BlockSound(floats, ts2[1..]);
    s := Conditional(c, thn, els);
  }

  lemma {:induction false} BlockSound(floats: FloatReader, ts: seq<Lexeme>) returns (ss: seq<Statement>)
    requires Stream(ts) && ParseBlock(floats, ts).Some?
    ensures var (t, rest) := ParseBlock(floats, ts).value;
      GoodStatements(floats, ss) && TreeStatements(floats, ss) == t && ts == WriteBlock(ss, rest) && Stream(rest)
    decreases |ts|, 0
  {
    hide Then, AllPlaced, BlockLoop, WriteStatements, GoodStatements, TreeStatements;
    Front(ts);
    ss := BlockLoopSound(floats, [], ts[1..]);
    assert [] + TreeStatements(floats, ss) == TreeStatements(floats, ss);
  }

  lemma {:induction false} BlockLoopSound(floats: FloatReader, done: seq<Stmt>, ts: seq<Lexeme>)
    returns (ss: seq<Statement>)
    requires Stream(ts) && BlockLoop(floats, done, ts).Some?
    ensures var (all, rest) := BlockLoop(floats, done, ts).value;
      && GoodStatements(floats, ss) && all == done + TreeStatements(floats, ss)
      && ts == WriteStatements(ss, Then(Tok(RightBrace), rest)) && Stream(rest)
    decreases |ts|, 2
  {
    hide Then, AllPlaced, ParseStatement, WriteStatement, TreeStatement, GoodStatement;
    if At(ts).RightBrace? {
      Front(ts);
      ss := [];
    } else {
      var s := StatementSound(floats, ts);
      var (t, rest) := ParseStatement(floats, ts).value;
      var tail := BlockLoopSound(floats, done + [t], rest);
      ss := [s] + tail;
      assert ss[1..] == tail;
      assert done + [t] + TreeStatements(floats, tail) == done + ([t] + TreeStatements(floats, tail));
    }
  }

  lemma {:induction false} ProgramLoopSound(floats: FloatReader, done: seq<Stmt>, ts: seq<Lexeme>)
    returns (ss: seq<Statement>)
    requires Stream(ts) && ProgramLoop(floats, done, ts).Some?
    ensures GoodStatements(floats, ss) && ProgramLoop(floats, done, ts).value == done + TreeStatements(floats, ss)
    ensures ts == WriteStatements(ss, [Tok(EndOfFile)])
    decreases |ts|
  {
    hide Then, ParseStatement, WriteStatement, TreeStatement, GoodStatement;
    if At(ts).EndOfFile? {
      assert Placed(ts[0], 0 == |ts| - 1);
      ss := [];
    } else {
      var s := StatementSound(floats, ts);
      var (t, rest) := ParseStatement(floats, ts).value;
      var tail := ProgramLoopSound(floats, done + [t], rest);
      ss := [s] + tail;
      assert ss[1..] == tail;
      assert done + [t] + TreeStatements(floats, tail) == done + ([t] + TreeStatements(floats, tail));
    }
  }

  /** `ss` is a derivation of the whole stream, with syntax tree `p`. */
  ghost predicate Derives(floats: FloatReader, ss: seq<Statement>, ts: seq<Lexeme>, p: Program) {
    ts == WriteStatements(ss, [Tok(EndOfFile)]) && GoodStatements(floats, ss) && TreeStatements(floats, ss) == p
  }

  /** The parser is exact: it returns a program if and only if the grammar derives the stream with that syntax
      tree, every literal in range. In particular it consumes the whole stream. */
  lemma ParserExact(floats: FloatReader, ts: seq<Lexeme>, p: Program)
    requires Stream(ts)
    ensures ParseProgram(floats, ts) == Some(p) <==> exists ss :: Derives(floats, ss, ts, p)
  {
    hide WriteStatements, TreeStatements, GoodStatements, ProgramLoop, AllPlaced;
    if ParseProgram(floats, ts) == Some(p) {
      var ss := ProgramLoopSound(floats, [], ts);
      assert [] + TreeStatements(floats, ss) == TreeStatements(floats, ss);
      assert Derives(floats, ss, ts, p);
    }
    forall ss | Derives(floats, ss, ts, p) ensures ParseProgram(floats, ts) == Some(p) {
      ProgramComplete(floats, ss, Tok(EndOfFile));
    }
  }

  /** The grammar is unambiguous: a stream has at most one syntax tree. */
  lemma Unambiguous(floats: FloatReader, ts: seq<Lexeme>, p: Program, q: Program, ss: seq<Statement>,
                    tt: seq<Statement>)
    requires Derives(floats, ss, ts, p) && Derives(floats, tt, ts, q)
    ensures p == q
  {
    hide WriteStatements, TreeStatements, GoodStatements, ProgramLoop;
    ProgramComplete(floats, ss, Tok(EndOfFile));
    ProgramComplete(floats, tt, Tok(EndOfFile));
  }
}
