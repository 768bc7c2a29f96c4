/** Printed programs as text: each lexeme after a space, and the whole way back through lexer and parser. */
module PrintedText {
  import opened Prelude
  import opened Ast
  import opened Tokens
  import opened LexerSpec
  import opened Lexer
  import opened ParserSpec
  import opened Grammar
  import opened Printer
  import opened SourceText

  /** The text of a stream, each lexeme after a space. */
  function Render(ts: seq<Lexeme>): string {
    if ts == [] || ts[0].kind.EndOfFile? then "" else " " + ts[0].text + Render(ts[1..])
  }

  /** Lexemes whose texts the lexer would give their kinds, then the end of the file. */
  ghost predicate Lexical(ts: seq<Lexeme>) {
    && ts != []
    && if ts[0].kind.EndOfFile? then ts == [Tok(EndOfFile)]
       else KindOf(ts[0].text) == Some(ts[0].kind) && Lexical(ts[1..])
  }

  /** A lexeme is not empty and contains no white space. */
  lemma NoSpaceInside(text: string)
    requires KindOf(text).Some?
    ensures text != "" && forall i :: 0 <= i < |text| ==> !IsSpace(text[i])
  {
    hide SymbolKind;
    SymbolStart(text);
    if !IsName(text) && !IsInteger(text) && IsFloat(text) {
      var dot :| 0 <= dot < |text| && IsFloatAt(text, dot);
      assert forall i :: 0 <= i < |text| && i != dot ==> IsDigit(text[i]);
    }
  }

  /** `text` and what follows have no longer lexeme in common. */
  ghost predicate Separate(text: string, after: string) {
    forall m :: 0 < m <= |after| ==> KindOf(text + after[..m]).None?
  }

  /** White space separates. */
  lemma SpaceSeparates(text: string, after: string)
    requires text != "" && (after != "" ==> IsSpace(after[0]))
    ensures Separate(text, after)
  {
    hide KindOf;
    forall m | 0 < m <= |after| ensures KindOf(text + after[..m]).None? {
      assert (text + after[..m])[|text|] == after[0];
      if KindOf(text + after[..m]).Some? {
        NoSpaceInside(text + after[..m]);
      }
    }
  }

  /** Characters separate when the second cannot continue what the first began. */
  predicate Apart(text: string, next: char)
    requires text != ""
  {
    || IsSpace(next)
    || (IsNameStart(text[0]) && !IsNameChar(next))
    || (IsDigit(text[0]) && !IsDigit(next) && next != '.')
    || (!IsNameChar(text[0]) && next != '=')
  }

  lemma ApartSeparate(text: string, after: string)
    requires KindOf(text).Some? && text != "" && (after != "" ==> Apart(text, after[0]))
    ensures Separate(text, after)
  {
    if after != "" && !IsSpace(after[0]) {
      forall m | 0 < m <= |after| ensures KindOf(text + after[..m]).None? {
        ApartNone(text, after[0], text + after[..m]);
      }
    } else {
      SpaceSeparates(text, after);
    }
  }

  lemma ApartNone(text: string, next: char, longer: string)
    requires KindOf(text).Some? && text != "" && Apart(text, next) && !IsSpace(next)
    requires |text| < |longer| && longer[0] == text[0] && longer[|text|] == next
    ensures KindOf(longer).None?
  {
    hide SymbolKind;
    SymbolStart(longer);
    assert !IsName(longer) || IsNameChar(next);
    assert !IsInteger(longer) || IsDigit(next);
    if IsFloat(longer) {
      FloatCharacters(longer, |text|);
    }
  }

  lemma FloatCharacters(s: string, k: nat)
    requires IsFloat(s) && k < |s|
    ensures IsDigit(s[0]) && (IsDigit(s[k]) || s[k] == '.')
  {
    var dot :| 0 <= dot < |s| && IsFloatAt(s, dot);
  }

  /** A lexeme after blanks, with nothing after it that could belong to it, is the next token. */
  lemma NextLaid(before: string, gap: string, text: string, after: string)
    requires Blank(gap) && KindOf(text).Some? && Separate(text, after)
    ensures var source := before + gap + text + after;
      var (t, m) := NextToken(source, |before|);
      t.lexeme == Lexeme(KindOf(text).value, text) && m == |before| + |gap| + |text|
  {
    hide KindOf, LexemeEnd, LexemeKind, NextToken, LocationAt;
    var source := before + gap + text + after;
    var (t, m) := NextToken(source, |before|);
    LongestMatch(source, |before|);
    NextTokenAt(source, |before|);
    NoSpaceInside(text);
    var n := |before| + |gap|;
    var start := t.location.offset;
    assert source[n] == text[0];
    assert forall i :: |before| <= i < n ==> source[i] == gap[i - |before|];
    assert start == n;
    NothingLonger(before + gap, text, after);
    assert source == before + gap + text + after;
  }

  lemma NothingLonger(before: string, text: string, after: string)
    requires Separate(text, after)
    ensures var source := before + text + after;
      && source[|before|..|before| + |text|] == text
      && forall e :: |before| + |text| < e <= |source| ==> KindOf(source[|before|..e]).None?
  {
    hide KindOf;
    var source, start, end := before + text + after, |before|, |before| + |text|;
    forall e | end < e <= |source| ensures KindOf(source[start..e]).None? {
      assert source[start..e] == text + after[..e - end];
    }
  }

  /** A lexeme between a space and the end or another space is the next token. */
  lemma NextRendered(before: string, text: string, after: string)
    requires KindOf(text).Some? && (after != "" ==> IsSpace(after[0]))
    ensures var source := before + " " + text + after;
      var (t, m) := NextToken(source, |before|);
      t.lexeme == Lexeme(KindOf(text).value, text) && m == |before| + 1 + |text|
  {
    hide KindOf, NextToken;
    NoSpaceInside(text);
    SpaceSeparates(text, after);
    NextLaid(before, " ", text, after);
  }

  /** Rendered lexemes are read back. */
  lemma {:induction false} RenderLexes(before: string, ts: seq<Lexeme>)
    requires Lexical(ts)
    ensures Lexemes(before + Render(ts), |before|) == ts
    decreases |ts|
  {
    hide KindOf, NextToken, Lexemes, Longest;
    var source := before + Render(ts);
    LexemesUnfold(source, |before|);
    if ts[0].kind.EndOfFile? {
      LongestMatch(source, |before|);
    } else {
      var text, after := ts[0].text, Render(ts[1..]);
      assert source == before + " " + text + after;
      NextRendered(before, text, after);
      KindNotEnd(text);
      var next := before + " " + text;
      assert source == next + after;
      RenderLexes(next, ts[1..]);
    }
  }

  /** Letters, digits and underscores, not a digit first, and no keyword. */
  predicate IsIdentifier(s: string) {
    && s != "" && !('0' <= s[0] <= '9')
    && (forall i :: 0 <= i < |s| ==>
          'a' <= s[i] <= 'z' || 'A' <= s[i] <= 'Z' || '0' <= s[i] <= '9' || s[i] == '_')
    && s !in {"tensor", "return", "if", "else"}
  }

  lemma IdentifierKind(s: string)
    requires IsIdentifier(s)
    ensures KindOf(s) == Some(Identifier)
  {
  }

  /** Every name is an identifier and no keyword, and floats are spelled as float lexemes. */
  predicate Named(spell: FloatSpeller, e: Expr)
    decreases e
  {
    match e
    case Ident(name) => IsIdentifier(name)
    case IntLit(_) => true
    case FloatLit(code) => IsFloat(spell(code))
    case Call(callee, args) => IsIdentifier(callee) && NamedArgs(spell, args)
    case Binary(_, lhs, rhs) => Named(spell, lhs) && Named(spell, rhs)
  }

  predicate NamedArgs(spell: FloatSpeller, args: seq<Expr>)
    decreases args
  {
    args != [] ==> Named(spell, args[0]) && NamedArgs(spell, args[1..])
  }

  predicate NamedStatement(spell: FloatSpeller, s: Stmt)
    decreases s
  {
    match s
    case TensorDecl(name, ty) => IsIdentifier(name) && IsIdentifier(ty.elementType)
    case Assign(target, e) => IsIdentifier(target) && Named(spell, e)
    case Return(e) => Named(spell, e)
    case If(c, thn, els) => Named(spell, c) && NamedProgram(spell, thn) && NamedProgram(spell, els)
  }

  predicate NamedProgram(spell: FloatSpeller, p: Program)
    decreases p
  {
    p != [] ==> NamedStatement(spell, p[0]) && NamedProgram(spell, p[1..])
  }

  lemma ThenLexical(l: Lexeme, ts: seq<Lexeme>)
    requires Lexical(ts) && KindOf(l.text) == Some(l.kind)
    ensures Lexical(Then(l, ts))
  {
    hide KindOf;
    KindNotEnd(l.text);
  }

  lemma NameLexical(name: string, ts: seq<Lexeme>)
    requires Lexical(ts) && IsIdentifier(name)
    ensures Lexical(Then(Lexeme(Identifier, name), ts))
  {
    hide Lexical, Then, KindOf;
    IdentifierKind(name);
    ThenLexical(Lexeme(Identifier, name), ts);
  }

  /** Keywords and symbols are lexemes of their kinds. */
  lemma TokLexical(kind: TokenKind, ts: seq<Lexeme>)
    requires Lexical(ts) && Spelling(kind).Some? && !kind.EndOfFile?
    ensures Lexical(Then(Tok(kind), ts))
  {
    hide Lexical, Then;
    if kind.KwTensor? || kind.KwReturn? || kind.KwIf? || kind.KwElse? {
      assert IsName(Spelling(kind).value);
    } else {
      SymbolText(Spelling(kind).value, Spelling(kind).value[0]);
    }
    ThenLexical(Tok(kind), ts);
  }

  lemma DecimalLexical(n: nat, ts: seq<Lexeme>)
    requires Lexical(ts)
    ensures Lexical(Then(Lexeme(IntegerLiteral, Decimal(n)), ts))
  {
    hide Lexical, Then, KindOf;
    DecimalReads(n);
    IntegerText(Decimal(n));
    ThenLexical(Lexeme(IntegerLiteral, Decimal(n)), ts);
  }

  lemma {:induction false} ComparisonLexical(spell: FloatSpeller, e: Expr, ts: seq<Lexeme>)
    requires Named(spell, e) && Lexical(ts)
    ensures Lexical(WriteComparison(ToComparison(spell, e), ts))
    decreases e, (Level(e) + 4) % 4
  {
    hide Lexical, Then, KindOf;
    if Level(e) == 0 {
      AdditiveLexical(spell, e.rhs, ts);
      var rest := WriteAdditive(ToAdditive(spell, e.rhs), ts);
      TokLexical(OperatorToken(e.op), rest);
      ComparisonLexical(spell, e.lhs, Then(Tok(OperatorToken(e.op)), rest));
    } else {
      AdditiveLexical(spell, e, ts);
    }
  }

  lemma {:induction false} AdditiveLexical(spell: FloatSpeller, e: Expr, ts: seq<Lexeme>)
    requires Named(spell, e) && Lexical(ts)
    ensures Lexical(WriteAdditive(ToAdditive(spell, e), ts))
    decreases e, (Level(e) + 3) % 4
  {
    hide Lexical, Then, KindOf;
    if Level(e) == 1 {
      MultiplicativeLexical(spell, e.rhs, ts);
      var rest := WriteMultiplicative(ToMultiplicative(spell, e.rhs), ts);
      TokLexical(OperatorToken(e.op), rest);
      AdditiveLexical(spell, e.lhs, Then(Tok(OperatorToken(e.op)), rest));
    } else {
      MultiplicativeLexical(spell, e, ts);
    }
  }

  lemma {:induction false} MultiplicativeLexical(spell: FloatSpeller, e: Expr, ts: seq<Lexeme>)
    requires Named(spell, e) && Lexical(ts)
    ensures Lexical(WriteMultiplicative(ToMultiplicative(spell, e), ts))
    decreases e, (Level(e) + 2) % 4
  {
    hide Lexical, Then, KindOf;
    if Level(e) == 2 {
      PrimaryLexical(spell, e.rhs, ts);
      var rest := WritePrimary(ToPrimary(spell, e.rhs), ts);
      TokLexical(OperatorToken(e.op), rest);
      MultiplicativeLexical(spell, e.lhs, Then(Tok(OperatorToken(e.op)), rest));
    } else {
      PrimaryLexical(spell, e, ts);
    }
  }

  lemma {:induction false} PrimaryLexical(spell: FloatSpeller, e: Expr, ts: seq<Lexeme>)
    requires Named(spell, e) && Lexical(ts)
    ensures Lexical(WritePrimary(ToPrimary(spell, e), ts))
    decreases e, (Level(e) + 1) % 4
  {
    hide Lexical, Then, KindOf, WriteComparison, ToComparison, WriteArgs, ToArgs, Decimal, IsFloatAt, IsIdentifier;
    match e
    case Ident(name) => NameLexical(name, ts);
    case IntLit(value) => DecimalLexical(if value < 0 then 0 else value, ts);
    case FloatLit(code) =>
      var dot :| 0 <= dot < |spell(code)| && IsFloatAt(spell(code), dot);
      FloatText(spell(code), dot);
      ThenLexical(Lexeme(FloatLiteral, spell(code)), ts);
    case Call(callee, args) =>
      TokLexical(RightParen, ts);
      var rest := Then(Tok(RightParen), ts);
      ArgsLexical(spell, args, rest);
      TokLexical(LeftParen, WriteArgs(ToArgs(spell, args), rest));
      NameLexical(callee, Then(Tok(LeftParen), WriteArgs(ToArgs(spell, args), rest)));
    case Binary(_, _, _) =>
      TokLexical(RightParen, ts);
      ComparisonLexical(spell, e, Then(Tok(RightParen), ts));
      TokLexical(LeftParen, WriteComparison(ToComparison(spell, e), Then(Tok(RightParen), ts)));
  }

  lemma {:induction false} ArgsLexical(spell: FloatSpeller, args: seq<Expr>, ts: seq<Lexeme>)
    requires NamedArgs(spell, args) && Lexical(ts)
    ensures Lexical(WriteArgs(ToArgs(spell, args), ts)) && Lexical(WriteMore(ToArgs(spell, args), ts))
    decreases args, 0
  {
    hide Lexical, Then, KindOf;
    if args != [] {
      var all := ToArgs(spell, args);
      assert all[1..] == ToArgs(spell, args[1..]);
      ArgsLexical(spell, args[1..], ts);
      ComparisonLexical(spell, args[0], WriteMore(all[1..], ts));
      TokLexical(Comma, WriteComparison(all[0], WriteMore(all[1..], ts)));
    }
  }

  lemma {:induction false} DimsLexical(dims: seq<nat>, ts: seq<Lexeme>)
    requires Lexical(ts)
    ensures Lexical(WriteDims(ToDims(dims), ts))
    decreases |dims|
  {
    hide Lexical, Then, KindOf;
    if dims != [] {
      var all := ToDims(dims);
      assert all[1..] == ToDims(dims[1..]);
      DimsLexical(dims[1..], ts);
      DecimalLexical(dims[0], WriteDims(all[1..], ts));
      TokLexical(Comma, Then(Lexeme(IntegerLiteral, all[0]), WriteDims(all[1..], ts)));
    }
  }

  lemma DeclarationLexical(spell: FloatSpeller, name: string, ty: TensorType, ts: seq<Lexeme>)
    requires ty.shape != [] && NamedStatement(spell, TensorDecl(name, ty)) && Lexical(ts)
    ensures Lexical(WriteStatement(ToStatement(spell, TensorDecl(name, ty)), ts))
  {
    hide Lexical, Then, KindOf, WriteDims, IsIdentifier;
    var dims := ToDims(ty.shape);
    assert dims[0] == Decimal(ty.shape[0]) && dims[1..] == ToDims(ty.shape[1..]);
    TokLexical(RightBracket, ts);
    DimsLexical(ty.shape[1..], Then(Tok(RightBracket), ts));
    var ts1 := WriteDims(dims[1..], Then(Tok(RightBracket), ts));
    DecimalLexical(ty.shape[0], ts1);
    var ts2 := Then(Lexeme(IntegerLiteral, dims[0]), ts1);
    TokLexical(LeftBracket, ts2);
    NameLexical(ty.elementType, Then(Tok(LeftBracket), ts2));
    var ts3 := Then(Lexeme(Identifier, ty.elementType), Then(Tok(LeftBracket), ts2));
    TokLexical(Colon, ts3);
    NameLexical(name, Then(Tok(Colon), ts3));
    TokLexical(KwTensor, Then(Lexeme(Identifier, name), Then(Tok(Colon), ts3)));
  }

  lemma {:induction false} StatementLexical(floats: FloatReader, spell: FloatSpeller, s: Stmt, ts: seq<Lexeme>)
    requires PrintableStatement(floats, spell, s) && NamedStatement(spell, s) && Lexical(ts)
    ensures Lexical(WriteStatement(ToStatement(spell, s), ts))
    decreases s, 0
  {
    hide Lexical, Then, KindOf, WriteComparison, ToComparison, Printable, Named, IsIdentifier;
    match s
    case TensorDecl(name, ty) => DeclarationLexical(spell, name, ty, ts);
    case Assign(target, e) =>
      ComparisonLexical(spell, e, ts);
      var rest := WriteComparison(ToComparison(spell, e), ts);
      TokLexical(TokenKind.Equal, rest);
      NameLexical(target, Then(Tok(TokenKind.Equal), rest));
    case Return(e) =>
      ComparisonLexical(spell, e, ts);
      TokLexical(KwReturn, WriteComparison(ToComparison(spell, e), ts));
    case If(c, thn, els) =>
      BlockLexical(floats, spell, els, ts);
      var ts1 := WriteBlock(ToStatements(spell, els), ts);
      TokLexical(KwElse, ts1);
      BlockLexical(floats, spell, thn, Then(Tok(KwElse), ts1));
      var ts2 := WriteBlock(ToStatements(spell, thn), Then(Tok(KwElse), ts1));
      ComparisonLexical(spell, c, ts2);
      TokLexical(KwIf, WriteComparison(ToComparison(spell, c), ts2));
  }

  lemma {:induction false} BlockLexical(floats: FloatReader, spell: FloatSpeller, ss: seq<Stmt>, ts: seq<Lexeme>)
    requires PrintableProgram(floats, spell, ss) && NamedProgram(spell, ss) && Lexical(ts)
    ensures Lexical(WriteBlock(ToStatements(spell, ss), ts))
    decreases ss, 1
  {
    hide Lexical, Then, KindOf, ToStatements, WriteStatements;
    TokLexical(RightBrace, ts);
    StatementsLexical(floats, spell, ss, Then(Tok(RightBrace), ts));
    TokLexical(LeftBrace, WriteStatements(ToStatements(spell, ss), Then(Tok(RightBrace), ts)));
  }

  lemma {:induction false} StatementsLexical(floats: FloatReader, spell: FloatSpeller, ss: seq<Stmt>, ts: seq<Lexeme>)
    requires PrintableProgram(floats, spell, ss) && NamedProgram(spell, ss) && Lexical(ts)
    ensures Lexical(WriteStatements(ToStatements(spell, ss), ts))
    decreases ss, 0
  {
    hide Lexical, KindOf;
    if ss != [] {
      var all := ToStatements(spell, ss);
      assert all[1..] == ToStatements(spell, ss[1..]);
      StatementsLexical(floats, spell, ss[1..], ts);
      StatementLexical(floats, spell, ss[0], WriteStatements(all[1..], ts));
    }
  }

  /** Printing a program as text, lexing it and parsing it gives the program back. */
  lemma PrintedTextParses(floats: FloatReader, spell: FloatSpeller, p: Program)
    requires PrintableProgram(floats, spell, p) && NamedProgram(spell, p)
    ensures ParseSource(floats, Render(Print(spell, p))) == Some(p)
  {
    hide Lexemes, PrintableProgram, NamedProgram, WriteStatements, ToStatements, ProgramLoop;
    PrintParses(floats, spell, p);
    StatementsLexical(floats, spell, p, [Tok(EndOfFile)]);
    RenderLexes("", Print(spell, p));
    assert "" + Render(Print(spell, p)) == Render(Print(spell, p));
  }
}
