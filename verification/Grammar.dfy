/** The grammar of docs/language.md with calls and tensor declarations, as derivation trees. */
module Grammar {
  import opened Prelude
  import opened Ast
  import opened Tokens
  import opened ParserSpec

  /** How a keyword, a symbol or the end of the file is written. */
  function Spelling(kind: TokenKind): Option<string> {
    match kind
    case EndOfFile => Some("")
    case KwTensor => Some("tensor")
    case KwReturn => Some("return")
    case KwIf => Some("if")
    case KwElse => Some("else")
    case Colon => Some(":")
    case Comma => Some(",")
    case Equal => Some("=")
    case EqualEqual => Some("==")
    case BangEqual => Some("!=")
    case Plus => Some("+")
    case Minus => Some("-")
    case Star => Some("*")
    case Slash => Some("/")
    case Less => Some("<")
    case LessEqual => Some("<=")
    case Greater => Some(">")
    case GreaterEqual => Some(">=")
    case LeftBracket => Some("[")
    case RightBracket => Some("]")
    case LeftParen => Some("(")
    case RightParen => Some(")")
    case LeftBrace => Some("{")
    case RightBrace => Some("}")
    case _ => None
  }

  function Tok(kind: TokenKind): Lexeme {
    Lexeme(kind, if Spelling(kind).Some? then Spelling(kind).value else "")
  }

  /** What lexing yields: keywords and symbols are spelled right, and only the last lexeme ends the file. */
  ghost predicate Stream(ts: seq<Lexeme>) {
    Ended(ts) && AllPlaced(ts)
  }

  ghost predicate AllPlaced(ts: seq<Lexeme>) {
    forall i :: 0 <= i < |ts| ==> Placed(ts[i], i == |ts| - 1)
  }

  predicate Placed(l: Lexeme, last: bool) {
    (Spelling(l.kind).Some? ==> l == Tok(l.kind)) && l.kind.EndOfFile? == last
  }

  /** primary := identifier | integer | float | identifier "(" (expression ("," expression)*)? ")" | "(" expression ")"
      */
  datatype Primary =
    | Name(text: string)
    | Integer(text: string)
    | Float(text: string)
    | CallOf(callee: string, args: seq<Comparison>)
    | Paren(inner: Comparison)

  /** multiplicative := primary (("*" | "/") primary)*, grouped to the left; likewise the next two. */
  datatype Multiplicative = OnePrimary(p: Primary) | Times(left: Multiplicative, op: TokenKind, p: Primary)

  datatype Additive = OneMultiplicative(m: Multiplicative) | Sum(left: Additive, op: TokenKind, m: Multiplicative)

  datatype Comparison = OneAdditive(a: Additive) | Compare(left: Comparison, op: TokenKind, a: Additive)

  datatype Statement =
    | Declaration(name: string, element: string, first: string, more: seq<string>)
    | Assignment(target: string, e: Comparison)
    | Returning(e: Comparison)
    | Conditional(c: Comparison, thn: seq<Statement>, els: seq<Statement>)

  /** `ts` with one more lexeme in front. */
  function Then(l: Lexeme, ts: seq<Lexeme>): (r: seq<Lexeme>)
    ensures |r| == |ts| + 1 && r[0] == l && r[1..] == ts && (Ended(ts) ==> Ended(r))
  {
    [l] + ts
  }

  /** The lexemes of a derivation, followed by `ts`. */
  function WritePrimary(p: Primary, ts: seq<Lexeme>): seq<Lexeme>
    decreases p
  {
    match p
    case Name(text) => Then(Lexeme(Identifier, text), ts)
    case Integer(text) => Then(Lexeme(IntegerLiteral, text), ts)
    case Float(text) => Then(Lexeme(FloatLiteral, text), ts)
    case CallOf(callee, args) =>
      Then(Lexeme(Identifier, callee), Then(Tok(LeftParen), WriteArgs(args, Then(Tok(RightParen), ts))))
    case Paren(inner) => Then(Tok(LeftParen), WriteComparison(inner, Then(Tok(RightParen), ts)))
  }

  function WriteArgs(args: seq<Comparison>, ts: seq<Lexeme>): seq<Lexeme>
    decreases args, 1
  {
    if args == [] then ts else WriteComparison(args[0], WriteMore(args[1..], ts))
  }

  function WriteMore(args: seq<Comparison>, ts: seq<Lexeme>): seq<Lexeme>
    decreases args, 0
  {
    if args == [] then ts else Then(Tok(Comma), WriteComparison(args[0], WriteMore(args[1..], ts)))
  }

  function WriteMultiplicative(m: Multiplicative, ts: seq<Lexeme>): seq<Lexeme>
    decreases m
  {
    match m
    case OnePrimary(p) => WritePrimary(p, ts)
    case Times(l, op, p) => WriteMultiplicative(l, Then(Tok(op), WritePrimary(p, ts)))
  }

  function WriteAdditive(a: Additive, ts: seq<Lexeme>): seq<Lexeme>
    decreases a
  {
    match a
    case OneMultiplicative(m) => WriteMultiplicative(m, ts)
    case Sum(l, op, m) => WriteAdditive(l, Then(Tok(op), WriteMultiplicative(m, ts)))
  }

  function WriteComparison(c: Comparison, ts: seq<Lexeme>): seq<Lexeme>
    decreases c
  {
    match c
    case OneAdditive(a) => WriteAdditive(a, ts)
    case Compare(l, op, a) => WriteComparison(l, Then(Tok(op), WriteAdditive(a, ts)))
  }

  function WriteDims(dims: seq<string>, ts: seq<Lexeme>): seq<Lexeme>
    decreases dims
  {
    if dims == [] then ts else Then(Tok(Comma), Then(Lexeme(IntegerLiteral, dims[0]), WriteDims(dims[1..], ts)))
  }

  function WriteType(element: string, first: string, more: seq<string>, ts: seq<Lexeme>): seq<Lexeme> {
    Then(Lexeme(Identifier, element), Then(Tok(LeftBracket),
      Then(Lexeme(IntegerLiteral, first), WriteDims(more, Then(Tok(RightBracket), ts)))))
  }

  function WriteStatement(s: Statement, ts: seq<Lexeme>): seq<Lexeme>
    decreases s
  {
    match s
    case Declaration(name, element, first, more) =>
      Then(Tok(KwTensor), Then(Lexeme(Identifier, name), Then(Tok(Colon), WriteType(element, first, more, ts))))
    case Assignment(target, e) => Then(Lexeme(Identifier, target), Then(Tok(TokenKind.Equal), WriteComparison(e, ts)))
    case Returning(e) => Then(Tok(KwReturn), WriteComparison(e, ts))
    case Conditional(c, thn, els) =>
      Then(Tok(KwIf), WriteComparison(c, WriteBlock(thn, Then(Tok(KwElse), WriteBlock(els, ts)))))
  }

  function WriteBlock(ss: seq<Statement>, ts: seq<Lexeme>): seq<Lexeme>
    decreases ss, 1
  {
    Then(Tok(LeftBrace), WriteStatements(ss, Then(Tok(RightBrace), ts)))
  }

  function WriteStatements(ss: seq<Statement>, ts: seq<Lexeme>): seq<Lexeme>
    decreases ss, 0
  {
    if ss == [] then ts else WriteStatement(ss[0], WriteStatements(ss[1..], ts))
  }

  /** The comparison symbols. */
  predicate Compares(op: TokenKind) {
    op in {EqualEqual, BangEqual, TokenKind.Less, TokenKind.LessEqual, TokenKind.Greater, TokenKind.GreaterEqual}
  }

  /** What an operator symbol stands for. */
  function Meaning(op: TokenKind): BinaryOperator
    requires op in {Star, Slash, Plus, Minus} || Compares(op)
  {
    if op == Star then Multiply
    else if op == Slash then Divide
    else if op == Plus then Add
    else if op == Minus then Subtract
    else if op == EqualEqual then BinaryOperator.Equal
    else if op == BangEqual then NotEqual
    else if op == TokenKind.Less then BinaryOperator.Less
    else if op == TokenKind.LessEqual then BinaryOperator.LessEqual
    else if op == TokenKind.Greater then BinaryOperator.Greater
    else BinaryOperator.GreaterEqual
  }

  /** Literals are in range, and operators stand at their own level. */
  predicate GoodPrimary(floats: FloatReader, p: Primary) {
    match p
    case Name(_) => true
    case Integer(text) => DecimalValue(text) < 0x8000_0000_0000_0000
    case Float(text) => floats(text).Some?
    case CallOf(_, args) => GoodArgs(floats, args)
    case Paren(inner) => GoodComparison(floats, inner)
  }

  predicate GoodArgs(floats: FloatReader, args: seq<Comparison>) {
    args != [] ==> GoodComparison(floats, args[0]) && GoodArgs(floats, args[1..])
  }

  predicate GoodMultiplicative(floats: FloatReader, m: Multiplicative) {
    match m
    case OnePrimary(p) => GoodPrimary(floats, p)
    case Times(l, op, p) => GoodMultiplicative(floats, l) && op in {Star, Slash} && GoodPrimary(floats, p)
  }

  predicate GoodAdditive(floats: FloatReader, a: Additive) {
    match a
    case OneMultiplicative(m) => GoodMultiplicative(floats, m)
    case Sum(l, op, m) => GoodAdditive(floats, l) && op in {Plus, Minus} && GoodMultiplicative(floats, m)
  }

  predicate GoodComparison(floats: FloatReader, c: Comparison) {
    match c
    case OneAdditive(a) => GoodAdditive(floats, a)
    case Compare(l, op, a) => GoodComparison(floats, l) && Compares(op) && GoodAdditive(floats, a)
  }

  predicate GoodDims(dims: seq<string>) {
    dims != [] ==> DecimalValue(dims[0]) < 0x1_0000_0000_0000_0000 && GoodDims(dims[1..])
  }

  predicate GoodStatement(floats: FloatReader, s: Statement)
    decreases s
  {
    match s
    case Declaration(_, _, first, more) => DecimalValue(first) < 0x1_0000_0000_0000_0000 && GoodDims(more)
    case Assignment(_, e) => GoodComparison(floats, e)
    case Returning(e) => GoodComparison(floats, e)
    case Conditional(c, thn, els) =>
      GoodComparison(floats, c) && GoodStatements(floats, thn) && GoodStatements(floats, els)
  }

  predicate GoodStatements(floats: FloatReader, ss: seq<Statement>)
    decreases ss
  {
    ss != [] ==> GoodStatement(floats, ss[0]) && GoodStatements(floats, ss[1..])
  }

  /** The syntax tree of a derivation. */
  function TreePrimary(floats: FloatReader, p: Primary): Expr
    requires GoodPrimary(floats, p)
  {
    match p
    case Name(text) => Ident(text)
    case Integer(text) => IntLit(DecimalValue(text))
    case Float(text) => FloatLit(floats(text).value)
    case CallOf(callee, args) => Call(callee, TreeArgs(floats, args))
    case Paren(inner) => TreeComparison(floats, inner)
  }

  function TreeArgs(floats: FloatReader, args: seq<Comparison>): seq<Expr>
    requires GoodArgs(floats, args)
  {
    if args == [] then [] else [TreeComparison(floats, args[0])] + TreeArgs(floats, args[1..])
  }

  function TreeMultiplicative(floats: FloatReader, m: Multiplicative): Expr
    requires GoodMultiplicative(floats, m)
  {
    match m
    case OnePrimary(p) => TreePrimary(floats, p)
    case Times(l, op, p) => Binary(Meaning(op), TreeMultiplicative(floats, l), TreePrimary(floats, p))
  }

  function TreeAdditive(floats: FloatReader, a: Additive): Expr
    requires GoodAdditive(floats, a)
  {
    match a
    case OneMultiplicative(m) => TreeMultiplicative(floats, m)
    case Sum(l, op, m) => Binary(Meaning(op), TreeAdditive(floats, l), TreeMultiplicative(floats, m))
  }

  function TreeComparison(floats: FloatReader, c: Comparison): Expr
    requires GoodComparison(floats, c)
  {
    match c
    case OneAdditive(a) => TreeAdditive(floats, a)
    case Compare(l, op, a) => Binary(Meaning(op), TreeComparison(floats, l), TreeAdditive(floats, a))
  }

  function TreeDims(dims: seq<string>): seq<nat>
    requires GoodDims(dims)
  {
    if dims == [] then [] else [DecimalValue(dims[0])] + TreeDims(dims[1..])
  }

  function TreeStatement(floats: FloatReader, s: Statement): Stmt
    requires GoodStatement(floats, s)
    decreases s
  {
    match s
    case Declaration(name, element, first, more) =>
      TensorDecl(name, TensorType(element, [DecimalValue(first)] + TreeDims(more)))
    case Assignment(target, e) => Assign(target, TreeComparison(floats, e))
    case Returning(e) => Return(TreeComparison(floats, e))
    case Conditional(c, thn, els) =>
      If(TreeComparison(floats, c), TreeStatements(floats, thn), TreeStatements(floats, els))
  }

  function TreeStatements(floats: FloatReader, ss: seq<Statement>): seq<Stmt>
    requires GoodStatements(floats, ss)
    decreases ss
  {
    if ss == [] then [] else [TreeStatement(floats, ss[0])] + TreeStatements(floats, ss[1..])
  }
}
