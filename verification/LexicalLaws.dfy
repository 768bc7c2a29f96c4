/** Which characters make which tokens, character by character. */
module LexicalLaws {
  import opened Tokens
  import opened LexerSpec
  import Lexer

  /** What is skipped before a token is blanks, tabs, carriage returns and line feeds, all there are of them; the end of
      the file comes only after the last character. */
  lemma BlanksExact(source: string, n: nat)
    requires n <= |source|
    ensures var t := NextToken(source, n).0;
      var start := t.location.offset;
      && n <= start <= |source|
      && (forall i :: n <= i < start ==> source[i] in {' ', '\t', '\r', '\n'})
      && (start < |source| ==> source[start] !in {' ', '\t', '\r', '\n'})
      && (t.lexeme.kind.EndOfFile? <==> start == |source|)
  {
    LocationExact(source, SpanEnd(source, n, IsSpace));
    LongestMatch(source, n);
  }

  /** A token that starts with a letter or an underscore takes all the letters, digits and underscores there are, and is
      a keyword or an identifier. */
  lemma NamesExact(source: string, n: nat)
    requires n <= |source| && NextToken(source, n).0.location.offset < |source|
    requires var c := source[NextToken(source, n).0.location.offset];
      'a' <= c <= 'z' || 'A' <= c <= 'Z' || c == '_'
    ensures var (t, end) := NextToken(source, n);
      var start := t.location.offset;
      && start < end <= |source| && t.lexeme.text == source[start..end]
      && (forall i :: start <= i < end ==>
            'a' <= source[i] <= 'z' || 'A' <= source[i] <= 'Z' || '0' <= source[i] <= '9' || source[i] == '_')
      && (end < |source| ==>
            !('a' <= source[end] <= 'z' || 'A' <= source[end] <= 'Z' || '0' <= source[end] <= '9'
              || source[end] == '_'))
      && t.lexeme.kind == match t.lexeme.text
         case "tensor" => KwTensor
         case "return" => KwReturn
         case "if" => KwIf
         case "else" => KwElse
         case _ => Identifier
  {
    hide LocationAt;
    StartsAt(source, n);
    var (t, end) := NextToken(source, n);
    var start := t.location.offset;
    assert IsNameStart(source[start]);
    assert t.lexeme.text[0] == source[start] && IsName(t.lexeme.text);
  }

  /** Where a token starts is where the blanks end. */
  lemma StartsAt(source: string, n: nat)
    requires n <= |source|
    ensures NextToken(source, n).0.location.offset == SpanEnd(source, n, IsSpace)
  {
    LocationExact(source, SpanEnd(source, n, IsSpace));
  }

  /** A token that starts with a digit takes all the digits there are, and a point and all the digits after it if there
      is at least one. */
  lemma NumbersExact(source: string, n: nat) returns (dot: nat)
    requires n <= |source| && NextToken(source, n).0.location.offset < |source|
    requires '0' <= source[NextToken(source, n).0.location.offset] <= '9'
    ensures var (t, end) := NextToken(source, n);
      var start := t.location.offset;
      && start < dot <= end <= |source| && t.lexeme.text == source[start..end]
      && (forall i :: start <= i < dot ==> '0' <= source[i] <= '9')
      && if t.lexeme.kind.IntegerLiteral? then
           && dot == end
           && (end < |source| ==> !('0' <= source[end] <= '9'))
           && (end + 1 < |source| && source[end] == '.' ==> !('0' <= source[end + 1] <= '9'))
         else
           && t.lexeme.kind.FloatLiteral? && dot + 1 < end && source[dot] == '.'
           && (forall i :: dot < i < end ==> '0' <= source[i] <= '9')
           && (end < |source| ==> !('0' <= source[end] <= '9'))
  {
    hide LocationAt;
    StartsAt(source, n);
    var (t, end) := NextToken(source, n);
    var start := t.location.offset;
    dot := SpanEnd(source, start, IsDigit);
    var text := t.lexeme.text;
    assert IsDigit(source[start]) && text[0] == source[start];
    if dot == end {
      assert IsInteger(text);
    } else {
      assert text[dot - start] == source[dot] == '.';
      assert IsFloatAt(text, dot - start);
    }
  }

  /** Anything else is a symbol of one or two characters, or a character that nothing starts with, alone and unknown. */
  lemma SymbolsExact(source: string, n: nat)
    requires n <= |source| && NextToken(source, n).0.location.offset < |source|
    requires var c := source[NextToken(source, n).0.location.offset];
      !('a' <= c <= 'z' || 'A' <= c <= 'Z' || c == '_' || '0' <= c <= '9')
    ensures var (t, end) := NextToken(source, n);
      var start := t.location.offset;
      var c := source[start];
      var equals := start + 1 < |source| && source[start + 1] == '=';
      && start < end <= |source| && t.lexeme.text == source[start..end]
      && end == start + (if equals && c in {'=', '!', '<', '>'} then 2 else 1)
      && t.lexeme.kind == match c
         case ':' => Colon
         case ',' => Comma
         case '=' => (if equals then EqualEqual else Equal)
         case '!' => (if equals then BangEqual else Unknown)
         case '+' => Plus
         case '-' => Minus
         case '*' => Star
         case '/' => Slash
         case '<' => (if equals then LessEqual else Less)
         case '>' => (if equals then GreaterEqual else Greater)
         case '[' => LeftBracket
         case ']' => RightBracket
         case '(' => LeftParen
         case ')' => RightParen
         case '{' => LeftBrace
         case '}' => RightBrace
         case _ => Unknown
  {
    hide LocationAt;
    StartsAt(source, n);
    var (t, end) := NextToken(source, n);
    var start := t.location.offset;
    var text := t.lexeme.text;
    assert text[0] == source[start] && !IsNameStart(source[start]) && !IsDigit(source[start]);
    assert text == if |text| == 1 then [source[start]] else [source[start], '='];
    Lexer.SymbolText(text, source[start]);
  }
}
