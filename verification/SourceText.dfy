/** From the text of a source file to its lexemes and back. */
module SourceText {
  import opened Prelude
  import opened Ast
  import opened Tokens
  import opened LexerSpec
  import opened ParserSpec
  import opened Grammar
  import opened ParserSound

  function Lexemes(source: string, n: nat): (ts: seq<Lexeme>)
    requires n <= |source|
    ensures Ended(ts)
  {
    Strip(Tokenize(source, n))
  }

  lemma LexemesUnfold(source: string, n: nat)
    requires n <= |source|
    ensures var (t, m) := NextToken(source, n);
      Lexemes(source, n) == if t.lexeme.kind.EndOfFile? then [t.lexeme] else [t.lexeme] + Lexemes(source, m)
  {
    hide NextToken, Ended;
    var (t, m) := NextToken(source, n);
    if !t.lexeme.kind.EndOfFile? {
      assert Tokenize(source, n)[1..] == Tokenize(source, m);
    }
  }

  /** Parsing a whole source file. */
  function ParseSource(floats: FloatReader, source: string): Option<Program> {
    ParseProgram(floats, Lexemes(source, 0))
  }

  /** A keyword or symbol token has the one text that its kind allows. */
  lemma KindSpelled(text: string)
    requires KindOf(text).Some? && Spelling(KindOf(text).value).Some?
    ensures Some(text) == Spelling(KindOf(text).value)
  {
  }

  /** What the lexer produces is a stream in the parser's sense, whatever the source. */
  lemma {:induction false} LexemesStream(source: string, n: nat)
    requires n <= |source|
    ensures Stream(Lexemes(source, n))
    decreases |source| - n
  {
    hide Longest, KindOf, Spelling, NextToken, Lexemes;
    var (t, m) := NextToken(source, n);
    var ts := Lexemes(source, n);
    LexemesUnfold(source, n);
    LongestMatch(source, n);
    LexemePlaced(t.lexeme);
    if !t.lexeme.kind.EndOfFile? {
      LexemesStream(source, m);
      forall i | 0 <= i < |ts| ensures Placed(ts[i], i == |ts| - 1) {
        if 0 < i {
          assert ts[i] == Lexemes(source, m)[i - 1];
          assert Placed(Lexemes(source, m)[i - 1], i - 1 == |Lexemes(source, m)| - 1);
        }
      }
    }
  }

  lemma LexemePlaced(l: Lexeme)
    requires (l.kind.EndOfFile? && l.text == "") || KindOf(l.text) == Some(l.kind) || l.kind.Unknown?
    ensures Placed(l, l.kind.EndOfFile?)
  {
    hide KindOf;
    if KindOf(l.text) == Some(l.kind) {
      KindNotEnd(l.text);
      if Spelling(l.kind).Some? {
        KindSpelled(l.text);
      }
    }
  }

  /** A source file parses if and only if the grammar derives its lexemes, every literal in range. */
  lemma SourceExact(floats: FloatReader, source: string, p: Program)
    ensures ParseSource(floats, source) == Some(p) <==> exists ss :: Derives(floats, ss, Lexemes(source, 0), p)
  {
    hide Derives, Lexemes, ParseProgram, AllPlaced;
    LexemesStream(source, 0);
    ParserExact(floats, Lexemes(source, 0), p);
  }
}
