/** The lexer: a position and a location that advance through the source. */
module Lexer {
  import opened Prelude
  import opened Tokens
  import opened LexerSpec

  class Scanner {
    const source: string
    var current: nat
    var location: Location

    constructor (source: string)
      ensures this.source == source && Valid() && current == 0
    {
      this.source := source;
      current, location := 0, Location(1, 1, 0);
    }

    /** The location is that of the position. */
    predicate Valid()
      reads this
    {
      current <= |source| && location == LocationAt(source, current)
    }

    predicate IsAtEnd()
      reads this
    {
      current >= |source|
    }

    /** The current character, or NUL at the end. */
    function Peek(): char
      reads this
    {
      if IsAtEnd() then '\0' else source[current]
    }

    function PeekNext(): char
      reads this
    {
      if current + 1 >= |source| then '\0' else source[current + 1]
    }

    method Advance()
      requires Valid() && !IsAtEnd()
      modifies this
      ensures Valid() && current == old(current) + 1
    {
      var c := source[current];
      current := current + 1;
      if c == '\n' {
        location := Location(location.line + 1, 1, location.offset + 1);
      } else {
        location := Location(location.line, location.column + 1, location.offset + 1);
      }
    }

    method SkipWhitespace()
      requires Valid()
      modifies this
      ensures Valid() && current == SpanEnd(source, old(current), IsSpace)
    {
      while !IsAtEnd() && IsSpace(Peek())
        invariant Valid() && SpanEnd(source, old(current), IsSpace) == SpanEnd(source, current, IsSpace)
        decreases |source| - current
      {
        Advance();
      }
    }

    method SkipDigits()
      requires Valid()
      modifies this
      ensures Valid() && current == SpanEnd(source, old(current), IsDigit)
    {
      while IsDigit(Peek())
        invariant Valid() && SpanEnd(source, old(current), IsDigit) == SpanEnd(source, current, IsDigit)
        decreases |source| - current
      {
        Advance();
      }
    }

    function MakeToken(kind: TokenKind, start: nat, startLocation: Location): Token
      requires Valid() && start <= current
      reads this
    {
      Token(Lexeme(kind, source[start..current]), startLocation)
    }

    method LexIdentifierOrKeyword() returns (t: Token)
      requires Valid() && !IsAtEnd() && IsNameStart(Peek())
      modifies this
      ensures Valid() && current == LexemeEnd(source, old(current))
      ensures t == Token(Lexeme(LexemeKind(source[old(current)..current]), source[old(current)..current]),
                         old(location))
    {
      var start, startLocation := current, location;
      while IsNameChar(Peek())
        invariant Valid() && start <= current
          && SpanEnd(source, start, IsNameChar) == SpanEnd(source, current, IsNameChar)
        decreases |source| - current
      {
        Advance();
      }
      var lexeme := source[start..current];
      var kind := Identifier;
      if lexeme == "tensor" {
        kind := KwTensor;
      } else if lexeme == "return" {
        kind := KwReturn;
      } else if lexeme == "if" {
        kind := KwIf;
      } else if lexeme == "else" {
        kind := KwElse;
      }
      assert lexeme[0] == source[start] && IsName(lexeme);
      t := MakeToken(kind, start, startLocation);
    }

    method LexNumber() returns (t: Token)
      requires Valid() && !IsAtEnd() && IsDigit(Peek())
      modifies this
      ensures Valid() && current == LexemeEnd(source, old(current))
      ensures t == Token(Lexeme(LexemeKind(source[old(current)..current]), source[old(current)..current]),
                         old(location))
    {
      hide KindOf, LocationAt;
      var start, startLocation := current, location;
      SkipDigits();
      var kind := IntegerLiteral;
      ghost var dot := current - start;
      if Peek() == '.' && IsDigit(PeekNext()) {
        kind := FloatLiteral;
        Advance();
        SkipDigits();
        FloatText(source[start..current], dot);
      } else {
        IntegerText(source[start..current]);
      }
      t := MakeToken(kind, start, startLocation);
    }

    /** A symbol that may be followed by an equals sign. */
    method Pair(single: TokenKind, double: TokenKind) returns (kind: TokenKind)
      requires Valid()
      modifies this
      ensures Valid()
      ensures if old(current) < |source| && source[old(current)] == '=' then kind == double
        && current == old(current) + 1
              else kind == single && current == old(current)
    {
      kind := single;
      if Peek() == '=' {
        Advance();
        kind := double;
      }
    }

    method LexSymbol() returns (t: Token)
      requires Valid() && !IsAtEnd() && !IsNameStart(Peek()) && !IsDigit(Peek())
      modifies this
      ensures Valid() && current == LexemeEnd(source, old(current))
      ensures t == Token(Lexeme(LexemeKind(source[old(current)..current]), source[old(current)..current]),
                         old(location))
    {
      hide KindOf, LocationAt, SpanEnd, IsName;
      var start, startLocation, c := current, location, Peek();
      var kind;
      Advance();
      match c {
        case ':' => kind := Colon;
        case ',' => kind := Comma;
        case '=' => kind := Pair(Equal, EqualEqual);
        case '!' => kind := Pair(Unknown, BangEqual);
        case '+' => kind := Plus;
        case '-' => kind := Minus;
        case '*' => kind := Star;
        case '/' => kind := Slash;
        case '<' => kind := Pair(Less, LessEqual);
        case '>' => kind := Pair(Greater, GreaterEqual);
        case '[' => kind := LeftBracket;
        case ']' => kind := RightBracket;
        case '(' => kind := LeftParen;
        case ')' => kind := RightParen;
        case '{' => kind := LeftBrace;
        case '}' => kind := RightBrace;
        case _ => kind := Unknown;
      }
      SymbolText(source[start..current], c);
      t := MakeToken(kind, start, startLocation);
    }

    method NextToken() returns (t: Token)
      requires Valid()
      modifies this
      ensures Valid() && (t, current) == LexerSpec.NextToken(source, old(current))
    {
      SkipWhitespace();
      if IsAtEnd() {
        return Token(Lexeme(EndOfFile, ""), location);
      }
      if IsNameStart(Peek()) {
        t := LexIdentifierOrKeyword();
      } else if IsDigit(Peek()) {
        t := LexNumber();
      } else {
        t := LexSymbol();
      }
    }
  }

  /** A short text that starts like a symbol is classified by its characters alone. */
  lemma SymbolText(s: string, c: char)
    requires 0 < |s| <= 2 && s[0] == c && !IsNameStart(c) && !IsDigit(c)
    ensures s == if |s| == 1 then [c] else [c, s[1]]
    ensures KindOf(s) == SymbolKind(s)
  {
    assert forall dot :: 0 <= dot < |s| && IsFloatAt(s, dot) ==> IsDigit(s[0]);
  }

  lemma IntegerText(s: string)
    requires IsInteger(s)
    ensures KindOf(s) == Some(IntegerLiteral)
  {
    assert IsDigit(s[0]);
  }

  lemma FloatText(s: string, dot: nat)
    requires IsFloatAt(s, dot)
    ensures KindOf(s) == Some(FloatLiteral)
  {
    assert IsDigit(s[0]) && s[dot] == '.';
  }
}
