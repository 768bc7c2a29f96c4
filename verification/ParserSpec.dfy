/** Parsing as functions on the remaining lexemes. The class in Parser.dfy is proved to compute exactly these. */
module ParserSpec {
  import opened Prelude
  import opened Ast
  import opened Tokens
  import opened StorageSize

  /** How floating-point literals are read; nothing where the conversion throws. */
  type FloatReader = string -> Option<int>

  /** A lexeme sequence ends with the end of the file. */
  predicate Ended(ts: seq<Lexeme>) {
    ts != [] && ts[|ts| - 1].kind.EndOfFile?
  }

  function At(ts: seq<Lexeme>): TokenKind
    requires ts != []
  {
    ts[0].kind
  }

  /** The value of a digit string. */
  function DecimalValue(s: string): nat {
    if s == "" then 0
    else
      var last := s[|s| - 1];
      10 * DecimalValue(s[..|s| - 1]) + if IsDigit(last) then (last - '0') as nat else 0
  }

  function ReadInteger(s: string): Option<Int64> {
    if DecimalValue(s) <= INT64_MAX then Some(DecimalValue(s)) else None
  }

  function ReadDimension(s: string): Option<nat> {
    if DecimalValue(s) <= UINT64_MAX then Some(DecimalValue(s)) else None
  }

  function OperatorOf(kind: TokenKind): Option<BinaryOperator> {
    match kind
    case Plus => Some(Add)
    case Minus => Some(Subtract)
    case Star => Some(Multiply)
    case Slash => Some(Divide)
    case EqualEqual => Some(BinaryOperator.Equal)
    case BangEqual => Some(NotEqual)
    case Less => Some(BinaryOperator.Less)
    case LessEqual => Some(BinaryOperator.LessEqual)
    case Greater => Some(BinaryOperator.Greater)
    case GreaterEqual => Some(BinaryOperator.GreaterEqual)
    case _ => None
  }

  predicate IsMultiplicative(kind: TokenKind) {
    kind.Star? || kind.Slash?
  }

  predicate IsAdditive(kind: TokenKind) {
    kind.Plus? || kind.Minus?
  }

  predicate IsComparison(kind: TokenKind) {
    kind.EqualEqual? || kind.BangEqual? || kind.Less? || kind.LessEqual? || kind.Greater? || kind.GreaterEqual?
  }

  type Parsed<T> = Option<(T, seq<Lexeme>)>

  /** Parsing consumed something, and the end of the file is still there. */
  predicate Shorter<T>(r: Parsed<T>, ts: seq<Lexeme>) {
    r.Some? ==> Ended(r.value.1) && |r.value.1| < |ts|
  }

  function ParseComparison(floats: FloatReader, ts: seq<Lexeme>): (r: Parsed<Expr>)
    requires Ended(ts)
    ensures Shorter(r, ts)
    decreases |ts|, 8
  {
    match ParseAdditive(floats, ts)
    case None => None
    case Some((e, rest)) => ComparisonLoop(floats, e, rest)
  }

  function ComparisonLoop(floats: FloatReader, e: Expr, ts: seq<Lexeme>): (r: Parsed<Expr>)
    requires Ended(ts)
    ensures r.Some? ==> Ended(r.value.1) && |r.value.1| <= |ts|
    decreases |ts|, 7
  {
    if !IsComparison(At(ts)) then Some((e, ts))
    else
      match ParseAdditive(floats, ts[1..])
      case None => None
      case Some((rhs, rest)) => ComparisonLoop(floats, Binary(OperatorOf(At(ts)).value, e, rhs), rest)
  }

  function ParseAdditive(floats: FloatReader, ts: seq<Lexeme>): (r: Parsed<Expr>)
    requires Ended(ts)
    ensures Shorter(r, ts)
    decreases |ts|, 6
  {
    match ParseMultiplicative(floats, ts)
    case None => None
    case Some((e, rest)) => AdditiveLoop(floats, e, rest)
  }

  function AdditiveLoop(floats: FloatReader, e: Expr, ts: seq<Lexeme>): (r: Parsed<Expr>)
    requires Ended(ts)
    ensures r.Some? ==> Ended(r.value.1) && |r.value.1| <= |ts|
    decreases |ts|, 5
  {
    if !IsAdditive(At(ts)) then Some((e, ts))
    else
      match ParseMultiplicative(floats, ts[1..])
      case None => None
      case Some((rhs, rest)) => AdditiveLoop(floats, Binary(OperatorOf(At(ts)).value, e, rhs), rest)
  }

  function ParseMultiplicative(floats: FloatReader, ts: seq<Lexeme>): (r: Parsed<Expr>)
    requires Ended(ts)
    ensures Shorter(r, ts)
    decreases |ts|, 4
  {
    match ParsePrimary(floats, ts)
    case None => None
    case Some((e, rest)) => MultiplicativeLoop(floats, e, rest)
  }

  function MultiplicativeLoop(floats: FloatReader, e: Expr, ts: seq<Lexeme>): (r: Parsed<Expr>)
    requires Ended(ts)
    ensures r.Some? ==> Ended(r.value.1) && |r.value.1| <= |ts|
    decreases |ts|, 3
  {
    if !IsMultiplicative(At(ts)) then Some((e, ts))
    else
      match ParsePrimary(floats, ts[1..])
      case None => None
      case Some((rhs, rest)) => MultiplicativeLoop(floats, Binary(OperatorOf(At(ts)).value, e, rhs), rest)
  }

  function ParsePrimary(floats: FloatReader, ts: seq<Lexeme>): (r: Parsed<Expr>)
    requires Ended(ts)
    ensures Shorter(r, ts)
    decreases |ts|, 2
  {
    match At(ts)
    case Identifier => ParseIdentifierOrCall(floats, ts)
    case IntegerLiteral =>
      (match ReadInteger(ts[0].text)
       case None => None
       case Some(n) => Some((IntLit(n), ts[1..])))
    case FloatLiteral =>
      (match floats(ts[0].text)
       case None => None
       case Some(code) => Some((FloatLit(code), ts[1..])))
    case LeftParen =>
      (match ParseComparison(floats, ts[1..])
       case None => None
       case Some((e, rest)) => if At(rest).RightParen? then Some((e, rest[1..])) else None)
    case _ => None
  }

  function ParseIdentifierOrCall(floats: FloatReader, ts: seq<Lexeme>): (r: Parsed<Expr>)
    requires Ended(ts) && At(ts).Identifier?
    ensures Shorter(r, ts)
    decreases |ts|, 1
  {
    var rest := ts[1..];
    if !At(rest).LeftParen? then Some((Ident(ts[0].text), rest))
    else if At(rest[1..]).RightParen? then Some((Call(ts[0].text, []), rest[1..][1..]))
    else
      match ParseComparison(floats, rest[1..])
      case None => None
      case Some((e, rest1)) =>
        match ArgumentLoop(floats, [e], rest1)
        case None => None
        case Some((args, rest2)) => if At(rest2).RightParen? then Some((Call(ts[0].text, args), rest2[1..])) else None
  }

  function ArgumentLoop(floats: FloatReader, args: seq<Expr>, ts: seq<Lexeme>): (r: Parsed<seq<Expr>>)
    requires Ended(ts)
    ensures r.Some? ==> Ended(r.value.1) && |r.value.1| <= |ts|
    decreases |ts|, 0
  {
    if !At(ts).Comma? then Some((args, ts))
    else
      match ParseComparison(floats, ts[1..])
      case None => None
      case Some((e, rest)) => ArgumentLoop(floats, args + [e], rest)
  }

  function Expect(kind: TokenKind, ts: seq<Lexeme>): (r: Parsed<string>)
    requires Ended(ts) && !kind.EndOfFile?
    ensures Shorter(r, ts)
  {
    if At(ts) == kind then Some((ts[0].text, ts[1..])) else None
  }

  function ParseTensorType(ts: seq<Lexeme>): (r: Parsed<TensorType>)
    requires Ended(ts)
    ensures Shorter(r, ts)
  {
    match Expect(Identifier, ts)
    case None => None
    case Some((element, ts1)) =>
      match Expect(LeftBracket, ts1)
      case None => None
      case Some((_, ts2)) =>
        match Expect(IntegerLiteral, ts2)
        case None => None
        case Some((first, ts3)) =>
          match ReadDimension(first)
          case None => None
          case Some(d) =>
            match DimensionLoop([d], ts3)
            case None => None
            case Some((shape, ts4)) =>
              match Expect(RightBracket, ts4)
              case None => None
              case Some((_, ts5)) => Some((TensorType(element, shape), ts5))
  }

  function DimensionLoop(shape: seq<nat>, ts: seq<Lexeme>): (r: Parsed<seq<nat>>)
    requires Ended(ts)
    ensures r.Some? ==> Ended(r.value.1) && |r.value.1| <= |ts| && |shape| <= |r.value.0|
    decreases |ts|
  {
    if !At(ts).Comma? then Some((shape, ts))
    else
      match Expect(IntegerLiteral, ts[1..])
      case None => None
      case Some((text, rest)) =>
        match ReadDimension(text)
        case None => None
        case Some(d) => DimensionLoop(shape + [d], rest)
  }

  function ParseStatement(floats: FloatReader, ts: seq<Lexeme>): (r: Parsed<Stmt>)
    requires Ended(ts)
    ensures Shorter(r, ts)
    decreases |ts|, 1
  {
    match At(ts)
    case KwTensor =>
      (match Expect(Identifier, ts[1..])
       case None => None
       case Some((name, ts1)) =>
         match Expect(Colon, ts1)
         case None => None
         case Some((_, ts2)) =>
           match ParseTensorType(ts2)
           case None => None
           case Some((ty, ts3)) => Some((TensorDecl(name, ty), ts3)))
    case KwReturn =>
      (match ParseComparison(floats, ts[1..])
       case None => None
       case Some((e, rest)) => Some((Return(e), rest)))
    case KwIf =>
      (match ParseComparison(floats, ts[1..])
       case None => None
       case Some((c, ts1)) =>
         match ParseBlock(floats, ts1)
         case None => None
         case Some((thn, ts2)) =>
           match Expect(KwElse, ts2)
           case None => None
           case Some((_, ts3)) =>
             match ParseBlock(floats, ts3)
             case None => None
             case Some((els, ts4)) => Some((If(c, thn, els), ts4)))
    case Identifier =>
      (match Expect(TokenKind.Equal, ts[1..])
       case None => None
       case Some((_, ts1)) =>
         match ParseComparison(floats, ts1)
         case None => None
         case Some((e, rest)) => Some((Assign(ts[0].text, e), rest)))
    case _ => None
  }

  function ParseBlock(floats: FloatReader, ts: seq<Lexeme>): (r: Parsed<seq<Stmt>>)
    requires Ended(ts)
    ensures Shorter(r, ts)
    decreases |ts|, 0
  {
    match Expect(LeftBrace, ts)
    case None => None
    case Some((_, rest)) => BlockLoop(floats, [], rest)
  }

  function BlockLoop(floats: FloatReader, ss: seq<Stmt>, ts: seq<Lexeme>): (r: Parsed<seq<Stmt>>)
    requires Ended(ts)
    ensures Shorter(r, ts)
    decreases |ts|, 2
  {
    if At(ts).RightBrace? then Some((ss, ts[1..]))
    else if At(ts).EndOfFile? then None
    else
      match ParseStatement(floats, ts)
      case None => None
      case Some((s, rest)) => BlockLoop(floats, ss + [s], rest)
  }

  function ProgramLoop(floats: FloatReader, ss: seq<Stmt>, ts: seq<Lexeme>): Option<Program>
    requires Ended(ts)
    decreases |ts|
  {
    if At(ts).EndOfFile? then Some(ss)
    else
      match ParseStatement(floats, ts)
      case None => None
      case Some((s, rest)) => ProgramLoop(floats, ss + [s], rest)
  }

  function ParseProgram(floats: FloatReader, ts: seq<Lexeme>): Option<Program>
    requires Ended(ts)
  {
    ProgramLoop(floats, [], ts)
  }
}
