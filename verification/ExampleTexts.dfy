/** Two of the compiler's example programs, character by character: how they parse, and what compiling them gives. */
module ExampleTexts {
  import opened Prelude
  import opened Ast
  import opened Tokens
  import opened LexerSpec
  import opened ParserSpec
  import opened Grammar
  import opened ParserComplete
  import opened SourceText
  import opened PrintedText
  import Lexer

  /** A source text in pieces: blanks and the lexeme after them, the last being the end of the file. */
  type Pieces = seq<(string, Lexeme)>

  function Text(pieces: Pieces): string {
    if pieces == [] then "" else pieces[0].0 + pieces[0].1.text + Text(pieces[1..])
  }

  function Stream(pieces: Pieces): seq<Lexeme> {
    if pieces == [] then [] else Then(pieces[0].1, Stream(pieces[1..]))
  }

  ghost predicate LaidOut(pieces: Pieces) {
    && pieces != [] && Blank(pieces[0].0)
    && if pieces[0].1.kind.EndOfFile? then |pieces| == 1 && pieces[0].1.text == ""
       else
         && KindOf(pieces[0].1.text) == Some(pieces[0].1.kind) && Separate(pieces[0].1.text, Text(pieces[1..]))
         && LaidOut(pieces[1..])
  }

  /** A text laid out in pieces is lexed into them. */
  lemma {:induction false} LaidLexes(before: string, pieces: Pieces)
    requires LaidOut(pieces)
    ensures Lexemes(before + Text(pieces), |before|) == Stream(pieces)
    decreases |pieces|
  {
    hide KindOf, NextToken, Lexemes, Longest, Separate;
    var source := before + Text(pieces);
    LexemesUnfold(source, |before|);
    var (gap, l) := pieces[0];
    if l.kind.EndOfFile? {
      assert Text(pieces) == gap;
      EndLaid(before, gap);
    } else {
      var after := Text(pieces[1..]);
      assert source == before + gap + l.text + after;
      NextLaid(before, gap, l.text, after);
      var next := before + gap + l.text;
      assert source == next + after;
      LaidLexes(next, pieces[1..]);
    }
  }

  lemma EndLaid(before: string, gap: string)
    requires Blank(gap)
    ensures NextToken(before + gap, |before|).0.lexeme == Lexeme(EndOfFile, "")
  {
    var source := before + gap;
    assert forall i :: |before| <= i < |source| ==> source[i] == gap[i - |before|];
  }

  /** One more piece in front. */
  lemma Put(gap: string, text: string, kind: TokenKind, rest: Pieces) returns (pieces: Pieces)
    requires Blank(gap) && text != "" && KindOf(text) == Some(kind) && LaidOut(rest)
    requires Text(rest) != "" ==> Apart(text, Text(rest)[0])
    ensures LaidOut(pieces) && Text(pieces) == gap + text + Text(rest)
    ensures Stream(pieces) == Then(Lexeme(kind, text), Stream(rest))
  {
    hide KindOf, Apart;
    KindNotEnd(text);
    ApartSeparate(text, Text(rest));
    pieces := [(gap, Lexeme(kind, text))] + rest;
    assert pieces[1..] == rest;
  }

  /** A name, or a number in digits, as an expression at each level. */
  function NameFactor(name: string): Multiplicative {
    OnePrimary(Name(name))
  }

  function NumberFactor(digits: string): Multiplicative {
    OnePrimary(Integer(digits))
  }

  function Plain(m: Multiplicative): Comparison {
    OneAdditive(OneMultiplicative(m))
  }

  function Added(name: string, op: TokenKind, digits: string): Comparison {
    OneAdditive(Sum(OneMultiplicative(NameFactor(name)), op, NumberFactor(digits)))
  }

  function Compared(name: string, op: TokenKind, digits: string): Comparison {
    Compare(Plain(NameFactor(name)), op, OneMultiplicative(NumberFactor(digits)))
  }

  /** How they are written. */
  lemma Written(name: string, op: TokenKind, digits: string, ts: seq<Lexeme>)
    ensures WriteComparison(Plain(NameFactor(name)), ts) == Then(Lexeme(Identifier, name), ts)
    ensures WriteComparison(Plain(NumberFactor(digits)), ts) == Then(Lexeme(IntegerLiteral, digits), ts)
    ensures WriteComparison(Added(name, op, digits), ts) ==
      Then(Lexeme(Identifier, name), Then(Tok(op), Then(Lexeme(IntegerLiteral, digits), ts)))
    ensures WriteComparison(Compared(name, op, digits), ts) ==
      Then(Lexeme(Identifier, name), Then(Tok(op), Then(Lexeme(IntegerLiteral, digits), ts)))
  {
    hide Then;
    var number := Then(Lexeme(IntegerLiteral, digits), ts);
    assert WriteMultiplicative(NumberFactor(digits), ts) == number;
    assert WriteMultiplicative(NameFactor(name), ts) == Then(Lexeme(Identifier, name), ts);
    var after := Then(Tok(op), number);
    assert WriteMultiplicative(NameFactor(name), after) == Then(Lexeme(Identifier, name), after);
    assert WriteAdditive(OneMultiplicative(NameFactor(name)), after) == Then(Lexeme(Identifier, name), after);
    assert WriteAdditive(OneMultiplicative(NumberFactor(digits)), ts) == number;
    assert WriteComparison(Plain(NameFactor(name)), after) == Then(Lexeme(Identifier, name), after);
  }

  predicate Words(gap: string, rest: Pieces) {
    Blank(gap) && (Text(rest) != "" ==> IsSpace(Text(rest)[0]))
  }

  /** A lexeme between blanks. */
  lemma Word(gap: string, text: string, kind: TokenKind, rest: Pieces) returns (pieces: Pieces)
    requires Words(gap, rest) && text != "" && KindOf(text) == Some(kind) && LaidOut(rest)
    ensures LaidOut(pieces) && Text(pieces) == gap + text + Text(rest) && (gap != "" ==> IsSpace(Text(pieces)[0]))
    ensures Stream(pieces) == Then(Lexeme(kind, text), Stream(rest))
  {
    hide KindOf;
    pieces := Put(gap, text, kind, rest);
    assert gap != "" ==> Text(pieces)[0] == gap[0];
  }

  /** A keyword or a symbol between blanks. */
  lemma Fixed(gap: string, kind: TokenKind, rest: Pieces) returns (pieces: Pieces)
    requires gap != "" && Words(gap, rest) && Spelling(kind).Some? && !kind.EndOfFile? && LaidOut(rest)
    ensures var text := Spelling(kind).value;
      LaidOut(pieces) && Text(pieces) == gap + text + Text(rest) && IsSpace(Text(pieces)[0])
    ensures Stream(pieces) == Then(Tok(kind), Stream(rest))
  {
    FixedKind(kind);
    hide KindOf, Spelling;
    pieces := Word(gap, Spelling(kind).value, kind, rest);
  }

  lemma FixedKind(kind: TokenKind)
    requires Spelling(kind).Some? && !kind.EndOfFile?
    ensures Spelling(kind).value != "" && KindOf(Spelling(kind).value) == Some(kind)
  {
    hide Lexical;
    var text := Spelling(kind).value;
    if kind.KwTensor? || kind.KwReturn? || kind.KwIf? || kind.KwElse? {
      assert IsName(text);
    } else {
      Lexer.SymbolText(text, text[0]);
    }
  }

  /** name = number */
  lemma AssignsNumber(gap: string, target: string, digits: string, rest: Pieces) returns (pieces: Pieces)
    requires Words(gap, rest) && LaidOut(rest)
    requires KindOf(target) == Some(Identifier) && target != "" && KindOf(digits) == Some(IntegerLiteral)
      && digits != ""
    ensures LaidOut(pieces) && Text(pieces) == gap + target + " = " + digits + Text(rest)
    ensures Stream(pieces) == WriteStatement(Assignment(target, Plain(NumberFactor(digits))), Stream(rest))
  {
    hide KindOf, LaidOut, Text, Stream, Then, WriteComparison, Plain, NumberFactor;
    Written(target, Plus, digits, Stream(rest));
    var p1 := Word(" ", digits, IntegerLiteral, rest);
    var p2 := Fixed(" ", TokenKind.Equal, p1);
    pieces := Word(gap, target, Identifier, p2);
    assert Text(p2) == " = " + digits + Text(rest);
  }

  /** op number */
  lemma OperatorNumber(op: TokenKind, digits: string, rest: Pieces) returns (pieces: Pieces)
    requires Words(" ", rest) && LaidOut(rest) && (op.Plus? || op.Minus?)
    requires KindOf(digits) == Some(IntegerLiteral) && digits != ""
    ensures LaidOut(pieces) && Text(pieces) != "" && IsSpace(Text(pieces)[0])
    ensures Text(pieces) == (if op.Plus? then " + " else " - ") + digits + Text(rest)
    ensures Stream(pieces) == Then(Tok(op), Then(Lexeme(IntegerLiteral, digits), Stream(rest)))
  {
    hide KindOf, LaidOut, Text, Stream, Then;
    var p := Word(" ", digits, IntegerLiteral, rest);
    pieces := Fixed(" ", op, p);
  }

  /** name = name op number */
  lemma AssignsSum(gap: string, target: string, name: string, op: TokenKind, digits: string, rest: Pieces)
    returns (pieces: Pieces)
    requires gap != "" && Words(gap, rest) && LaidOut(rest) && (op.Plus? || op.Minus?)
    requires KindOf(target) == Some(Identifier) && target != "" && KindOf(name) == Some(Identifier) && name != ""
    requires KindOf(digits) == Some(IntegerLiteral) && digits != ""
    ensures LaidOut(pieces) && Text(pieces) != "" && IsSpace(Text(pieces)[0])
    ensures Text(pieces) == gap + target + " = " + name + (if op.Plus? then " + " else " - ") + digits + Text(rest)
    ensures Stream(pieces) == WriteStatement(Assignment(target, Added(name, op, digits)), Stream(rest))
  {
    hide KindOf, LaidOut, Text, Stream, Then, Added, WriteComparison;
    Written(name, op, digits, Stream(rest));
    var p2 := OperatorNumber(op, digits, rest);
    var p3 := Word(" ", name, Identifier, p2);
    var p4 := Fixed(" ", TokenKind.Equal, p3);
    assert Text(p4) == " = " + name + Text(p2);
    pieces := Word(gap, target, Identifier, p4);
  }

  const FILE_END: Pieces := [("\n", Tok(EndOfFile))]

  lemma EndOfText()
    ensures LaidOut(FILE_END) && Text(FILE_END) == "\n" && Stream(FILE_END) == [Tok(EndOfFile)]
  {
    assert FILE_END[1..] == [];
  }

  /** examples/control_flow.oc */
  const CONTROL_FLOW := "X = 12\n" + ("if X > 10 {\n" + FROM_THEN)
  const FROM_THEN := "    Y = X + 1\n" + ("} else {\n" + FROM_ELSE)
  const FROM_ELSE := "    Y = X - 1\n" + ("}\n" + FROM_RETURN)
  const FROM_RETURN := "return Y\n"

  const INCREMENT := Assignment("Y", Added("X", Plus, "1"))
  const DECREMENT := Assignment("Y", Added("X", Minus, "1"))
  const CONDITIONAL := Conditional(Compared("X", TokenKind.Greater, "10"), [INCREMENT], [DECREMENT])
  const RESULT := Returning(Plain(NameFactor("Y")))

  lemma ReturnLaid() returns (pieces: Pieces)
    ensures LaidOut(pieces) && Text(pieces) == "\n" + FROM_RETURN
      && Stream(pieces) == WriteStatement(RESULT, [Tok(EndOfFile)])
  {
    hide LaidOut, Text, Stream, Then, WriteComparison;
    EndOfText();
    Written("Y", Plus, "1", [Tok(EndOfFile)]);
    var p := Word(" ", "Y", Identifier, FILE_END);
    pieces := Fixed("\n", KwReturn, p);
  }

  lemma OneStatement(st: Statement, ts: seq<Lexeme>)
    ensures WriteBlock([st], ts) == Then(Tok(LeftBrace), WriteStatement(st, Then(Tok(RightBrace), ts)))
  {
    hide Then, WriteStatement;
    var after := Then(Tok(RightBrace), ts);
    assert [st][0] == st && [st][1..] == [] && WriteStatements([], after) == after;
    assert WriteStatements([st], after) == WriteStatement(st, after);
  }

  /** A block that assigns a sum. */
  lemma BlockLaid(op: TokenKind, rest: Pieces) returns (pieces: Pieces)
    requires LaidOut(rest) && Words("\n", rest) && (op.Plus? || op.Minus?)
    ensures LaidOut(pieces) && Text(pieces) != "" && IsSpace(Text(pieces)[0])
    ensures Text(pieces) == BlockText(if op.Plus? then " + " else " - ", Text(rest))
    ensures Stream(pieces) == WriteBlock([Assignment("Y", Added("X", op, "1"))], Stream(rest))
  {
    hide LaidOut, Text, Stream, Then, WriteStatement, Added;
    OneStatement(Assignment("Y", Added("X", op, "1")), Stream(rest));
    var p1 := Fixed("\n", RightBrace, rest);
    var p2 := AssignsSum("\n    ", "Y", "X", op, "1", p1);
    pieces := Fixed(" ", LeftBrace, p2);
  }

  function BlockText(op: string, rest: string): string {
    " " + "{" + ("\n    " + "Y" + " = " + "X" + op + "1" + ("\n" + "}" + rest))
  }

  lemma ElseText(rest: string)
    ensures " " + "else" + BlockText(" - ", "\n" + rest) == " else {\n" + ("    Y = X - 1\n" + ("}\n" + rest))
  {
    SumText(" - ", "\n" + rest);
    assert "}" + ("\n" + rest) == "}\n" + rest;
    assert "    Y = X" + " - " + "1" + "\n" == "    Y = X - 1\n";
    var tail := "    Y = X - 1\n" + ("}\n" + rest);
    assert " " + "else" + (" {\n" + tail) == " else {\n" + tail;
  }

  lemma ThenText(rest: string)
    ensures BlockText(" + ", " else {\n" + rest) == " {\n" + ("    Y = X + 1\n" + ("} else {\n" + rest))
  {
    SumText(" + ", " else {\n" + rest);
    assert "}" + (" else {\n" + rest) == "} else {\n" + rest;
    assert "    Y = X" + " + " + "1" + "\n" == "    Y = X + 1\n";
  }

  lemma SumText(op: string, t: string)
    ensures BlockText(op, t) == " {\n" + (("    Y = X" + op + "1" + "\n") + ("}" + t))
  {
  }

  lemma IfLaid(rest: Pieces) returns (pieces: Pieces)
    requires LaidOut(rest) && Text(rest) != "" && IsSpace(Text(rest)[0])
    ensures LaidOut(pieces) && Text(pieces) == "\n" + ("if X > 10" + Text(rest))
    ensures Stream(pieces) == Then(Tok(KwIf), WriteComparison(Compared("X", TokenKind.Greater, "10"), Stream(rest)))
  {
    hide LaidOut, Text, Stream, Then, WriteComparison;
    Written("X", TokenKind.Greater, "10", Stream(rest));
    var p1 := Word(" ", "10", IntegerLiteral, rest);
    var p2 := Fixed(" ", TokenKind.Greater, p1);
    var p3 := Word(" ", "X", Identifier, p2);
    pieces := Fixed("\n", KwIf, p3);
    ConditionText(Text(rest));
  }

  lemma ConditionText(rest: string)
    ensures "\n" + "if" + (" " + "X" + (" " + ">" + (" " + "10" + rest))) == "\n" + ("if X > 10" + rest)
  {
  }

  lemma FirstText(rest: string)
    ensures "" + "X" + " = " + "12" + ("\n" + ("if X > 10" + (" {\n" + rest))) == "X = 12\n" + ("if X > 10 {\n" + rest)
  {
    assert "if X > 10" + (" {\n" + rest) == "if X > 10 {\n" + rest;
    var tail := "if X > 10 {\n" + rest;
    assert "" + "X" + " = " + "12" + ("\n" + tail) == "X = 12\n" + tail;
  }

  lemma ElseLaid() returns (pieces: Pieces)
    ensures LaidOut(pieces) && Text(pieces) == " else {\n" + FROM_ELSE && IsSpace(Text(pieces)[0])
    ensures Stream(pieces) == Then(Tok(KwElse), WriteBlock([DECREMENT], WriteStatement(RESULT, [Tok(EndOfFile)])))
  {
    hide LaidOut, Text, Stream, Then, WriteComparison, WriteBlock, RESULT, FROM_RETURN, BlockText;
    var p1 := ReturnLaid();
    var p2 := BlockLaid(Minus, p1);
    pieces := Fixed(" ", KwElse, p2);
    ElseText(FROM_RETURN);
  }

  /** The conditional and what follows it. */
  lemma ConditionalLaid() returns (pieces: Pieces)
    ensures LaidOut(pieces) && Text(pieces) == "\n" + ("if X > 10" + (" {\n" + FROM_THEN))
    ensures Stream(pieces) == WriteStatement(CONDITIONAL, WriteStatement(RESULT, [Tok(EndOfFile)]))
  {
    hide LaidOut, Text, Stream, Then, WriteComparison, WriteBlock, RESULT, Compared, FROM_ELSE, BlockText;
    var p1 := ElseLaid();
    var p2 := BlockLaid(Plus, p1);
    ThenText(FROM_ELSE);
    pieces := IfLaid(p2);
  }

  lemma ControlFlowLaid() returns (pieces: Pieces)
    ensures LaidOut(pieces) && Text(pieces) == CONTROL_FLOW
    ensures Stream(pieces) ==
      WriteStatement(Assignment("X", Plain(NumberFactor("12"))),
                     WriteStatement(CONDITIONAL, WriteStatement(RESULT, [Tok(EndOfFile)])))
  {
    hide LaidOut, Text, Stream, Then, WriteStatement, FROM_THEN;
    var p := ConditionalLaid();
    pieces := AssignsNumber("", "X", "12", p);
    FirstText(FROM_THEN);
  }

  const CONTROL_FLOW_PROGRAM: Program := [
    Assign("X", IntLit(12)),
    If(Binary(BinaryOperator.Greater, Ident("X"), IntLit(10)),
       [Assign("Y", Binary(Add, Ident("X"), IntLit(1)))],
       [Assign("Y", Binary(Subtract, Ident("X"), IntLit(1)))]),
    Return(Ident("Y"))]

  lemma Numbers()
    ensures ReadInteger("1") == Some(1) && ReadInteger("7") == Some(7)
    ensures ReadInteger("10") == Some(10) && ReadInteger("12") == Some(12) && ReadDimension("4") == Some(4)
  {
    assert DecimalValue("") == 0;
    assert "1"[..0] == "" && "7"[..0] == "" && "4"[..0] == "";
    assert "10"[..1] == "1" && "12"[..1] == "1";
    assert DecimalValue("1") == 1 && DecimalValue("7") == 7 && DecimalValue("4") == 4;
    assert DecimalValue("10") == 10 && DecimalValue("12") == 12;
  }

  /** The trees of the expressions. */
  lemma Trees(floats: FloatReader, name: string, op: TokenKind, digits: string, n: Int64)
    requires ReadInteger(digits) == Some(n)
    ensures GoodComparison(floats, Plain(NameFactor(name)))
      && TreeComparison(floats, Plain(NameFactor(name))) == Ident(name)
    ensures GoodComparison(floats, Plain(NumberFactor(digits)))
      && TreeComparison(floats, Plain(NumberFactor(digits))) == IntLit(n)
    ensures op.Plus? ==>
      && GoodComparison(floats, Added(name, op, digits))
      && TreeComparison(floats, Added(name, op, digits)) == Binary(Add, Ident(name), IntLit(n))
    ensures op.Minus? ==>
      && GoodComparison(floats, Added(name, op, digits))
      && TreeComparison(floats, Added(name, op, digits)) == Binary(Subtract, Ident(name), IntLit(n))
    ensures op.Greater? ==>
      && GoodComparison(floats, Compared(name, op, digits))
      && TreeComparison(floats, Compared(name, op, digits)) == Binary(BinaryOperator.Greater, Ident(name), IntLit(n))
  {
    hide DecimalValue;
    var x, k := NameFactor(name), NumberFactor(digits);
    assert GoodMultiplicative(floats, x) && TreeMultiplicative(floats, x) == Ident(name);
    assert GoodMultiplicative(floats, k) && TreeMultiplicative(floats, k) == IntLit(n);
    assert GoodAdditive(floats, OneMultiplicative(x)) && TreeAdditive(floats, OneMultiplicative(x)) == Ident(name);
    assert GoodAdditive(floats, OneMultiplicative(k)) && TreeAdditive(floats, OneMultiplicative(k)) == IntLit(n);
    assert GoodComparison(floats, Plain(x)) && TreeComparison(floats, Plain(x)) == Ident(name);
    assert GoodComparison(floats, Plain(k)) && TreeComparison(floats, Plain(k)) == IntLit(n);
  }

  const CONTROL_FLOW_DERIVATION := [Assignment("X", Plain(NumberFactor("12"))), CONDITIONAL, RESULT]

  lemma ControlFlowTree(floats: FloatReader)
    ensures GoodStatements(floats, CONTROL_FLOW_DERIVATION)
    ensures TreeStatements(floats, CONTROL_FLOW_DERIVATION) == CONTROL_FLOW_PROGRAM
  {
    hide GoodComparison, TreeComparison, ReadInteger, Plain, NumberFactor, NameFactor, Added, Compared;
    Numbers();
    Trees(floats, "X", Plus, "12", 12);
    Trees(floats, "X", Plus, "1", 1);
    Trees(floats, "X", Minus, "1", 1);
    Trees(floats, "X", TokenKind.Greater, "10", 10);
    Trees(floats, "Y", Plus, "1", 1);
    var d := CONTROL_FLOW_DERIVATION;
    assert d[1..] == [CONDITIONAL, RESULT] && d[1..][1..] == [RESULT] && d[1..][1..][1..] == [];
    OneTree(floats, INCREMENT);
    OneTree(floats, DECREMENT);
    OneTree(floats, RESULT);
    assert GoodStatement(floats, CONDITIONAL) && GoodStatements(floats, d[1..]);
    assert TreeStatements(floats, d[1..]) == CONTROL_FLOW_PROGRAM[1..];
  }

  lemma OneTree(floats: FloatReader, st: Statement)
    requires GoodStatement(floats, st)
    ensures GoodStatements(floats, [st]) && TreeStatements(floats, [st]) == [TreeStatement(floats, st)]
  {
    hide GoodStatement, TreeStatement;
    assert [st][1..] == [];
  }

  /** The text of examples/control_flow.oc parses to its program. */
  lemma ControlFlowParses(floats: FloatReader)
    ensures ParseSource(floats, CONTROL_FLOW) == Some(CONTROL_FLOW_PROGRAM)
  {
    hide LaidOut, Text, Stream, Then, WriteStatement, GoodStatements, TreeStatements, ProgramLoop, Lexemes,
      CONTROL_FLOW;
    var pieces := ControlFlowLaid();
    LaidLexes("", pieces);
    assert "" + Text(pieces) == Text(pieces);
    ControlFlowTree(floats);
    var d := CONTROL_FLOW_DERIVATION;
    ThreeWritten(d, [Tok(EndOfFile)]);
    ProgramComplete(floats, d, Tok(EndOfFile));
  }

  lemma ThreeWritten(d: seq<Statement>, ts: seq<Lexeme>)
    requires |d| == 3
    ensures WriteStatements(d, ts) == WriteStatement(d[0], WriteStatement(d[1], WriteStatement(d[2], ts)))
  {
    hide WriteStatement;
    assert d[1..][1..] == d[2..] && d[2..][1..] == [];
    assert WriteStatements(d[2..], ts) == WriteStatement(d[2], WriteStatements([], ts));
    assert WriteStatements(d[1..], ts) == WriteStatement(d[1], WriteStatements(d[2..], ts));
  }

  /** examples/runtime_allocation.oc */
  const RUNTIME_ALLOCATION := "tensor Scratch: f64[4,4]\nreturn 7\n"

  const SCRATCH := Declaration("Scratch", "f64", "4", ["4"])
  const SEVEN := Returning(Plain(NumberFactor("7")))

  /** A symbol or a keyword, where nothing after it can belong to it. */
  lemma Tight(gap: string, kind: TokenKind, rest: Pieces) returns (pieces: Pieces)
    requires Blank(gap) && Spelling(kind).Some? && !kind.EndOfFile? && LaidOut(rest)
    requires Spelling(kind).value != "" && (Text(rest) != "" ==> Apart(Spelling(kind).value, Text(rest)[0]))
    ensures LaidOut(pieces) && Text(pieces) == gap + Spelling(kind).value + Text(rest)
    ensures Stream(pieces) == Then(Tok(kind), Stream(rest))
  {
    FixedKind(kind);
    hide KindOf, Spelling, Apart;
    pieces := Put(gap, Spelling(kind).value, kind, rest);
  }

  lemma SevenLaid() returns (pieces: Pieces)
    ensures LaidOut(pieces) && Text(pieces) == "\n" + "return 7\n"
      && Stream(pieces) == WriteStatement(SEVEN, [Tok(EndOfFile)])
  {
    hide LaidOut, Text, Stream, Then, WriteComparison;
    EndOfText();
    Written("Y", Plus, "7", [Tok(EndOfFile)]);
    var p := Word(" ", "7", IntegerLiteral, FILE_END);
    pieces := Fixed("\n", KwReturn, p);
  }

  lemma DimensionsLaid(rest: Pieces) returns (pieces: Pieces)
    requires LaidOut(rest) && Text(rest) != "" && IsSpace(Text(rest)[0])
    ensures LaidOut(pieces) && Text(pieces) == "[4,4]" + Text(rest)
    ensures Stream(pieces) == Then(Tok(LeftBracket),
      Then(Lexeme(IntegerLiteral, "4"), WriteDims(["4"], Then(Tok(RightBracket), Stream(rest)))))
  {
    hide LaidOut, Text, Stream, Then;
    var p1 := Tight("", RightBracket, rest);
    var p2 := FourLaid(p1);
    var p3 := Tight("", Comma, p2);
    var p4 := FourLaid(p3);
    pieces := Tight("", LeftBracket, p4);
    assert ["4"][1..] == [] && WriteDims([], Stream(p1)) == Stream(p1);
    DimensionsText(Text(rest));
  }

  lemma DimensionsText(rest: string)
    ensures "" + "[" + ("4" + ("" + "," + ("4" + ("" + "]" + rest)))) == "[4,4]" + rest
  {
  }

  lemma FourLaid(rest: Pieces) returns (pieces: Pieces)
    requires LaidOut(rest) && Text(rest) != "" && Text(rest)[0] in {',', ']'}
    ensures LaidOut(pieces) && Text(pieces) == "4" + Text(rest)
    ensures Stream(pieces) == Then(Lexeme(IntegerLiteral, "4"), Stream(rest))
  {
    hide LaidOut, Text, Stream, Then;
    pieces := Put("", "4", IntegerLiteral, rest);
  }

  lemma TypeLaid(rest: Pieces) returns (pieces: Pieces)
    requires LaidOut(rest) && Text(rest) != "" && IsSpace(Text(rest)[0])
    ensures LaidOut(pieces) && Text(pieces) == ": " + ("f64[4,4]" + Text(rest))
    ensures Stream(pieces) == Then(Tok(Colon), WriteType("f64", "4", ["4"], Stream(rest)))
  {
    hide LaidOut, Text, Stream, Then, WriteDims;
    var p1 := DimensionsLaid(rest);
    assert Text(p1)[0] == '[';
    var p2 := Put(" ", "f64", Identifier, p1);
    pieces := Tight("", Colon, p2);
    assert "" + ":" + (" " + "f64" + ("[4,4]" + Text(rest))) == ": " + ("f64[4,4]" + Text(rest));
  }

  lemma ScratchLaid(rest: Pieces) returns (pieces: Pieces)
    requires LaidOut(rest) && Text(rest) != "" && IsSpace(Text(rest)[0])
    ensures LaidOut(pieces) && Text(pieces) == "tensor Scratch: " + ("f64[4,4]" + Text(rest))
    ensures Stream(pieces) == WriteStatement(SCRATCH, Stream(rest))
  {
    hide LaidOut, Text, Stream, Then, WriteType;
    var p1 := TypeLaid(rest);
    assert Text(p1)[0] == ':';
    var p2 := Put(" ", "Scratch", Identifier, p1);
    assert Text(p2)[0] == ' ';
    pieces := Tight("", KwTensor, p2);
    ScratchText("f64[4,4]" + Text(rest));
  }

  lemma ScratchText(rest: string)
    ensures "" + "tensor" + (" " + "Scratch" + (": " + rest)) == "tensor Scratch: " + rest
  {
  }

  const ALLOCATING: Program := [TensorDecl("Scratch", TensorType("f64", [4, 4])), Return(IntLit(7))]

  lemma AllocatingTree(floats: FloatReader)
    ensures GoodStatements(floats, [SCRATCH, SEVEN]) && TreeStatements(floats, [SCRATCH, SEVEN]) == ALLOCATING
  {
    hide GoodComparison, TreeComparison, ReadInteger, ReadDimension, Plain, NumberFactor;
    Numbers();
    Trees(floats, "Y", Plus, "7", 7);
    assert ["4"][1..] == [] && TreeDims(["4"]) == [4] && [4] + [4] == [4, 4];
    assert [SCRATCH, SEVEN][1..] == [SEVEN];
    OneTree(floats, SEVEN);
    OneTree(floats, SCRATCH);
  }

  /** The text of examples/runtime_allocation.oc parses to its program. */
  lemma AllocatingParses(floats: FloatReader)
    ensures ParseSource(floats, RUNTIME_ALLOCATION) == Some(ALLOCATING)
  {
    hide LaidOut, Text, Stream, Then, WriteStatement, GoodStatements, TreeStatements, ProgramLoop, Lexemes;
    var p := SevenLaid();
    var pieces := ScratchLaid(p);
    assert "tensor Scratch: " + ("f64[4,4]" + ("\n" + "return 7\n")) == RUNTIME_ALLOCATION;
    LaidLexes("", pieces);
    assert "" + Text(pieces) == Text(pieces);
    AllocatingTree(floats);
    TwoWritten([SCRATCH, SEVEN], [Tok(EndOfFile)]);
    ProgramComplete(floats, [SCRATCH, SEVEN], Tok(EndOfFile));
  }

  lemma TwoWritten(d: seq<Statement>, ts: seq<Lexeme>)
    requires |d| == 2
    ensures WriteStatements(d, ts) == WriteStatement(d[0], WriteStatement(d[1], ts))
  {
    hide WriteStatement;
    assert d[1..][1..] == [];
    assert WriteStatements(d[1..], ts) == WriteStatement(d[1], WriteStatements([], ts));
  }
}
