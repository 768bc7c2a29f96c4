/** The recursive-descent parser: one token of lookahead over the scanner, both moving forward in place. */
module Parser {
  import opened Prelude
  import opened Ast
  import opened Tokens
  import opened ParserSpec
  import opened SourceText
  import Lexer

  class Parser {
    const lexer: Lexer.Scanner
    const floats: FloatReader
    var current: Token

    constructor (floats: FloatReader, source: string)
      ensures Valid() && fresh(lexer) && Rest() == Lexemes(source, 0)
      ensures this.floats == floats
    {
      var scanner := new Lexer.Scanner(source);
      this.floats := floats;
      lexer := scanner;
      LexemesUnfold(source, 0);
      var first := scanner.NextToken();
      current := first;
    }

    predicate Valid()
      reads this, lexer
    {
      lexer.Valid()
    }

    /** What is still to be parsed: the current token and everything the scanner has ahead of it. */
    ghost function Rest(): (ts: seq<Lexeme>)
      requires Valid()
      reads this, lexer
      ensures Ended(ts) && At(ts) == current.lexeme.kind && ts[0] == current.lexeme
    {
      if current.lexeme.kind.EndOfFile? then [current.lexeme]
        else [current.lexeme] + Lexemes(lexer.source, lexer.current)
    }

    /** `r` is what the specification returns, and the parser stands where it says. */
    ghost predicate Agrees<T>(r: Option<T>, spec: Parsed<T>)
      reads this, lexer
    {
      Valid() && match spec { case None => r.None? case Some((v, rest)) => r == Some(v) && Rest() == rest }
    }

    predicate Check(kind: TokenKind)
      reads this
    {
      current.lexeme.kind == kind
    }

    predicate CheckComparison()
      reads this
      ensures CheckComparison() <==> IsComparison(current.lexeme.kind)
    {
      Check(EqualEqual) || Check(BangEqual) || Check(TokenKind.Less) || Check(TokenKind.LessEqual)
      || Check(TokenKind.Greater) || Check(TokenKind.GreaterEqual)
    }

    method Advance()
      requires Valid() && !Check(EndOfFile)
      modifies this, lexer
      ensures Valid() && Rest() == old(Rest())[1..]
    {
      LexemesUnfold(lexer.source, lexer.current);
      current := lexer.NextToken();
    }

    method Consume(kind: TokenKind) returns (r: Option<string>)
      requires Valid() && !kind.EndOfFile?
      modifies this, lexer
      ensures Agrees(r, Expect(kind, old(Rest())))
    {
      if !Check(kind) {
        return None;
      }
      var token := current;
      Advance();
      r := Some(token.lexeme.text);
    }

    method ParseProgram() returns (r: Option<Program>)
      requires Valid()
      modifies this, lexer
      ensures r == ParserSpec.ParseProgram(floats, old(Rest()))
    {
      hide ParserSpec.ParseStatement, Rest;
      var statements := [];
      while !Check(EndOfFile)
        invariant Valid() && ParserSpec.ParseProgram(floats, old(Rest())) == ProgramLoop(floats, statements, Rest())
        decreases |Rest()|
      {
        var s := ParseStatement();
        if s.None? {
          return None;
        }
        statements := statements + [s.value];
      }
      r := Some(statements);
    }

    method ParseStatement() returns (r: Option<Stmt>)
      requires Valid()
      modifies this, lexer
      ensures Agrees(r, ParserSpec.ParseStatement(floats, old(Rest())))
      decreases |Rest()|, 10
    {
      hide Rest;
      match current.lexeme.kind {
        case KwTensor => r := ParseTensorDeclaration();
        case KwReturn => r := ParseReturnStatement();
        case KwIf => r := ParseIfStatement();
        case Identifier => r := ParseAssignment();
        case _ => r := None;
      }
    }

    method ParseTensorDeclaration() returns (r: Option<Stmt>)
      requires Valid() && Check(KwTensor)
      modifies this, lexer
      ensures Agrees(r, ParserSpec.ParseStatement(floats, old(Rest())))
    {
      hide ParserSpec.ParseTensorType, ParserSpec.ParseComparison, ParserSpec.ParseBlock, Rest;
      var keyword := Consume(KwTensor);
      var name := Consume(Identifier);
      if name.None? {
        return None;
      }
      var colon := Consume(Colon);
      if colon.None? {
        return None;
      }
      var ty := ParseTensorType();
      if ty.None? {
        return None;
      }
      r := Some(TensorDecl(name.value, ty.value));
    }

    method ParseTensorType() returns (r: Option<TensorType>)
      requires Valid()
      modifies this, lexer
      ensures Agrees(r, ParserSpec.ParseTensorType(old(Rest())))
    {
      hide ReadDimension, DimensionLoop, Rest;
      var element := Consume(Identifier);
      if element.None? {
        return None;
      }
      var bracket := Consume(LeftBracket);
      if bracket.None? {
        return None;
      }
      var first := Consume(IntegerLiteral);
      if first.None? || ReadDimension(first.value).None? {
        return None;
      }
      var shape := ParseMoreDimensions([ReadDimension(first.value).value]);
      if shape.None? {
        return None;
      }
      var close := Consume(RightBracket);
      if close.None? {
        return None;
      }
      r := Some(TensorType(element.value, shape.value));
    }

    method ParseMoreDimensions(first: seq<nat>) returns (r: Option<seq<nat>>)
      requires Valid()
      modifies this, lexer
      ensures Agrees(r, DimensionLoop(first, old(Rest())))
    {
      hide ReadDimension, Rest;
      var dimensions := first;
      while Check(Comma)
        invariant Valid() && DimensionLoop(first, old(Rest())) == DimensionLoop(dimensions, Rest())
        decreases |Rest()|
      {
        Advance();
        var text := Consume(IntegerLiteral);
        if text.None? || ReadDimension(text.value).None? {
          return None;
        }
        dimensions := dimensions + [ReadDimension(text.value).value];
      }
      r := Some(dimensions);
    }

    method ParseAssignment() returns (r: Option<Stmt>)
      requires Valid() && Check(Identifier)
      modifies this, lexer
      ensures Agrees(r, ParserSpec.ParseStatement(floats, old(Rest())))
      decreases |Rest()|, 9
    {
      hide ParserSpec.ParseComparison, ParserSpec.ParseTensorType, ParserSpec.ParseBlock, Rest;
      var target := Consume(Identifier);
      var equal := Consume(TokenKind.Equal);
      if equal.None? {
        return None;
      }
      var value := ParseExpression();
      if value.None? {
        return None;
      }
      r := Some(Assign(target.value, value.value));
    }

    method ParseReturnStatement() returns (r: Option<Stmt>)
      requires Valid() && Check(KwReturn)
      modifies this, lexer
      ensures Agrees(r, ParserSpec.ParseStatement(floats, old(Rest())))
      decreases |Rest()|, 9
    {
      hide ParserSpec.ParseComparison, ParserSpec.ParseTensorType, ParserSpec.ParseBlock, Rest;
      var keyword := Consume(KwReturn);
      var value := ParseExpression();
      if value.None? {
        return None;
      }
      r := Some(Return(value.value));
    }

    method ParseIfStatement() returns (r: Option<Stmt>)
      requires Valid() && Check(KwIf)
      modifies this, lexer
      ensures Agrees(r, ParserSpec.ParseStatement(floats, old(Rest())))
      decreases |Rest()|, 9
    {
      hide ParserSpec.ParseComparison, ParserSpec.ParseTensorType, ParserSpec.ParseBlock, Rest;
      var keyword := Consume(KwIf);
      var condition := ParseExpression();
      if condition.None? {
        return None;
      }
      var thn := ParseBlock();
      if thn.None? {
        return None;
      }
      var otherwise := Consume(KwElse);
      if otherwise.None? {
        return None;
      }
      var els := ParseBlock();
      if els.None? {
        return None;
      }
      r := Some(If(condition.value, thn.value, els.value));
    }

    method ParseBlock() returns (r: Option<seq<Stmt>>)
      requires Valid()
      modifies this, lexer
      ensures Agrees(r, ParserSpec.ParseBlock(floats, old(Rest())))
      decreases |Rest()|, 8
    {
      hide ParserSpec.ParseStatement, Rest;
      var brace := Consume(LeftBrace);
      if brace.None? {
        return None;
      }
      var statements := [];
      while !Check(RightBrace)
        invariant Valid() && |Rest()| < |old(Rest())|
        invariant ParserSpec.ParseBlock(floats, old(Rest())) == BlockLoop(floats, statements, Rest())
        decreases |Rest()|
      {
        if Check(EndOfFile) {
          return None;
        }
        var s := ParseStatement();
        if s.None? {
          return None;
        }
        statements := statements + [s.value];
      }
      var close := Consume(RightBrace);
      r := Some(statements);
    }

    method ParseExpression() returns (r: Option<Expr>)
      requires Valid()
      modifies this, lexer
      ensures Agrees(r, ParserSpec.ParseComparison(floats, old(Rest())))
      decreases |Rest()|, 7
    {
      r := ParseComparison();
    }

    method ParseComparison() returns (r: Option<Expr>)
      requires Valid()
      modifies this, lexer
      ensures Agrees(r, ParserSpec.ParseComparison(floats, old(Rest())))
      decreases |Rest()|, 6
    {
      hide ParserSpec.ParseAdditive, Rest, IsComparison, OperatorOf;
      var first := ParseAdditive();
      if first.None? {
        return None;
      }
      var expression := first.value;
      while CheckComparison()
        invariant Valid() && |Rest()| < |old(Rest())|
        invariant ParserSpec.ParseComparison(floats, old(Rest())) == ComparisonLoop(floats, expression, Rest())
        decreases |Rest()|
      {
        var operatorKind := current.lexeme.kind;
        ComparisonOperator(operatorKind);
        Advance();
        var rhs := ParseAdditive();
        if rhs.None? {
          return None;
        }
        expression := MakeBinary(expression, operatorKind, rhs.value);
      }
      r := Some(expression);
    }

    method ParseAdditive() returns (r: Option<Expr>)
      requires Valid()
      modifies this, lexer
      ensures Agrees(r, ParserSpec.ParseAdditive(floats, old(Rest())))
      decreases |Rest()|, 5
    {
      hide ParserSpec.ParseMultiplicative, Rest;
      var first := ParseMultiplicative();
      if first.None? {
        return None;
      }
      var expression := first.value;
      while Check(Plus) || Check(Minus)
        invariant Valid() && |Rest()| < |old(Rest())|
        invariant ParserSpec.ParseAdditive(floats, old(Rest())) == AdditiveLoop(floats, expression, Rest())
        decreases |Rest()|
      {
        var operatorKind := current.lexeme.kind;
        Advance();
        var rhs := ParseMultiplicative();
        if rhs.None? {
          return None;
        }
        expression := MakeBinary(expression, operatorKind, rhs.value);
      }
      r := Some(expression);
    }

    method ParseMultiplicative() returns (r: Option<Expr>)
      requires Valid()
      modifies this, lexer
      ensures Agrees(r, ParserSpec.ParseMultiplicative(floats, old(Rest())))
      decreases |Rest()|, 4
    {
      hide ParserSpec.ParsePrimary, Rest;
      var first := ParsePrimary();
      if first.None? {
        return None;
      }
      var expression := first.value;
      while Check(Star) || Check(Slash)
        invariant Valid() && |Rest()| < |old(Rest())|
        invariant ParserSpec.ParseMultiplicative(floats, old(Rest())) == MultiplicativeLoop(floats, expression, Rest())
        decreases |Rest()|
      {
        var operatorKind := current.lexeme.kind;
        Advance();
        var rhs := ParsePrimary();
        if rhs.None? {
          return None;
        }
        expression := MakeBinary(expression, operatorKind, rhs.value);
      }
      r := Some(expression);
    }

    method ParsePrimary() returns (r: Option<Expr>)
      requires Valid()
      modifies this, lexer
      ensures Agrees(r, ParserSpec.ParsePrimary(floats, old(Rest())))
      decreases |Rest()|, 3
    {
      hide ParserSpec.ParseComparison, ParserSpec.ParseIdentifierOrCall, ReadInteger, Rest;
      var text := current.lexeme.text;
      match current.lexeme.kind {
        case Identifier => r := ParseIdentifierOrCall();
        case IntegerLiteral =>
          Advance();
          var value := ReadInteger(text);
          r := if value.Some? then Some(IntLit(value.value)) else None;
        case FloatLiteral =>
          Advance();
          var value := floats(text);
          r := if value.Some? then Some(FloatLit(value.value)) else None;
        case LeftParen =>
          Advance();
          r := ParseExpression();
          if r.Some? {
            var close := Consume(RightParen);
            if close.None? {
              r := None;
            }
          }
        case _ => r := None;
      }
    }

    method ParseIdentifierOrCall() returns (r: Option<Expr>)
      requires Valid() && Check(Identifier)
      modifies this, lexer
      ensures Agrees(r, ParserSpec.ParseIdentifierOrCall(floats, old(Rest())))
      decreases |Rest()|, 2
    {
      hide ParserSpec.ParseComparison, ArgumentLoop, Rest;
      var identifier := Consume(Identifier);
      if !Check(LeftParen) {
        return Some(Ident(identifier.value));
      }
      Advance();
      var arguments := [];
      if !Check(RightParen) {
        var list := ParseArguments();
        if list.None? {
          return None;
        }
        arguments := list.value;
      }
      var close := Consume(RightParen);
      r := if close.Some? then Some(Call(identifier.value, arguments)) else None;
    }

    /** One argument, and more after commas. */
    method ParseArguments() returns (r: Option<seq<Expr>>)
      requires Valid()
      modifies this, lexer
      ensures Agrees(r, match ParserSpec.ParseComparison(floats, old(Rest()))
                        case None => None
                        case Some((e, rest)) => ArgumentLoop(floats, [e], rest))
      decreases |Rest()|, 8
    {
      hide ParserSpec.ParseComparison, Rest;
      var e := ParseExpression();
      if e.None? {
        return None;
      }
      ghost var list := ArgumentLoop(floats, [e.value], Rest());
      var arguments := [e.value];
      while Check(Comma)
        invariant Valid() && |Rest()| < |old(Rest())| && list == ArgumentLoop(floats, arguments, Rest())
        decreases |Rest()|
      {
        Advance();
        e := ParseExpression();
        if e.None? {
          return None;
        }
        arguments := arguments + [e.value];
      }
      r := Some(arguments);
    }
  }

  lemma ComparisonOperator(kind: TokenKind)
    requires IsComparison(kind)
    ensures OperatorOf(kind).Some?
  {
  }

  function MakeBinary(lhs: Expr, kind: TokenKind, rhs: Expr): Expr
    requires OperatorOf(kind).Some?
  {
    Binary(OperatorOf(kind).value, lhs, rhs)
  }

  /** The parser on a whole source file. */
  method Parse(floats: FloatReader, source: string) returns (r: Option<Program>)
    ensures r == ParseSource(floats, source)
  {
    var parser := new Parser(floats, source);
    r := parser.ParseProgram();
  }
}
