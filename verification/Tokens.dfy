/** Tokens, and which strings are lexemes of which kind. */
module Tokens {
  import opened Prelude

  datatype TokenKind =
    | EndOfFile
    | Identifier | IntegerLiteral | FloatLiteral
    | KwTensor | KwReturn | KwIf | KwElse
    | Colon | Comma | Equal | EqualEqual | BangEqual
    | Plus | Minus | Star | Slash | Less | LessEqual | Greater | GreaterEqual
    | LeftBracket | RightBracket | LeftParen | RightParen | LeftBrace | RightBrace
    | Unknown

  /** A token without its position, which is all that parsing depends on. */
  datatype Lexeme = Lexeme(kind: TokenKind, text: string)

  datatype Location = Location(line: nat, column: nat, offset: nat)

  datatype Token = Token(lexeme: Lexeme, location: Location)

  predicate IsDigit(c: char) {
    '0' <= c <= '9'
  }

  predicate IsLetter(c: char) {
    'a' <= c <= 'z' || 'A' <= c <= 'Z'
  }

  predicate IsNameStart(c: char) {
    IsLetter(c) || c == '_'
  }

  predicate IsNameChar(c: char) {
    IsLetter(c) || IsDigit(c) || c == '_'
  }

  predicate IsSpace(c: char) {
    c == ' ' || c == '\t' || c == '\r' || c == '\n'
  }

  predicate IsName(s: string) {
    s != "" && IsNameStart(s[0]) && forall i :: 0 <= i < |s| ==> IsNameChar(s[i])
  }

  predicate IsInteger(s: string) {
    s != "" && forall i :: 0 <= i < |s| ==> IsDigit(s[i])
  }

  /** Digits, a point at `dot`, and digits. */
  predicate IsFloatAt(s: string, dot: nat) {
    && 0 < dot < |s| - 1 && s[dot] == '.'
    && forall i :: 0 <= i < |s| && i != dot ==> IsDigit(s[i])
  }

  predicate IsFloat(s: string) {
    exists dot :: 0 <= dot < |s| && IsFloatAt(s, dot)
  }

  function NameKind(s: string): TokenKind {
    if s == "tensor" then KwTensor
    else if s == "return" then KwReturn
    else if s == "if" then KwIf
    else if s == "else" then KwElse
    else Identifier
  }

  function SymbolKind(s: string): Option<TokenKind> {
    match s
    case ":" => Some(Colon)
    case "," => Some(Comma)
    case "=" => Some(Equal)
    case "==" => Some(EqualEqual)
    case "!=" => Some(BangEqual)
    case "+" => Some(Plus)
    case "-" => Some(Minus)
    case "*" => Some(Star)
    case "/" => Some(Slash)
    case "<" => Some(Less)
    case "<=" => Some(LessEqual)
    case ">" => Some(Greater)
    case ">=" => Some(GreaterEqual)
    case "[" => Some(LeftBracket)
    case "]" => Some(RightBracket)
    case "(" => Some(LeftParen)
    case ")" => Some(RightParen)
    case "{" => Some(LeftBrace)
    case "}" => Some(RightBrace)
    case _ => None
  }

  /** The kind of a complete lexeme, if the string is one. */
  function KindOf(s: string): Option<TokenKind> {
    if IsName(s) then Some(NameKind(s))
    else if IsInteger(s) then Some(IntegerLiteral)
    else if IsFloat(s) then Some(FloatLiteral)
    else SymbolKind(s)
  }
}
