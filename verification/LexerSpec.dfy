/** Lexing as a function of the source and a position, and what it guarantees. */
module LexerSpec {
  import opened Prelude
  import opened Tokens

  /** The end of the longest run of characters of a class, starting at `n`. */
  function SpanEnd(source: string, n: nat, class_: char -> bool): (m: nat)
    requires n <= |source|
    ensures n <= m <= |source| && (forall i :: n <= i < m ==> class_(source[i]))
      && (m < |source| ==> !class_(source[m]))
    decreases |source| - n
  {
    if n < |source| && class_(source[n]) then SpanEnd(source, n + 1, class_) else n
  }

  function Bump(l: Location, c: char): Location {
    if c == '\n' then Location(l.line + 1, 1, l.offset + 1) else Location(l.line, l.column + 1, l.offset + 1)
  }

  function LocationAt(source: string, n: nat): Location
    requires n <= |source|
  {
    if n == 0 then Location(1, 1, 0) else Bump(LocationAt(source, n - 1), source[n - 1])
  }

  function Newlines(s: string): nat {
    if s == "" then 0 else Newlines(s[..|s| - 1]) + if s[|s| - 1] == '\n' then 1 else 0
  }

  /** Locations are exact: the offset is the position, the line is one more than the newlines before it, and
      the column counts from the last newline. */
  lemma {:induction false} LocationExact(source: string, n: nat)
    requires n <= |source|
    ensures var l := LocationAt(source, n);
      && l.offset == n && l.line == 1 + Newlines(source[..n]) && 1 <= l.column <= n + 1
      && (forall i :: n - (l.column - 1) <= i < n ==> source[i] != '\n')
      && (l.column == n + 1 || source[n - l.column] == '\n')
    decreases n
  {
    if 0 < n {
      LocationExact(source, n - 1);
      assert source[..n][..n - 1] == source[..n - 1];
    }
  }

  /** The length of a symbol lexeme; an unknown character stands alone. */
  function SymbolEnd(source: string, start: nat): nat
    requires start < |source|
  {
    if source[start] in "=!<>" && start + 1 < |source| && source[start + 1] == '=' then start + 2 else start + 1
  }

  function NumberEnd(source: string, start: nat): nat
    requires start <= |source|
  {
    var digits := SpanEnd(source, start, IsDigit);
    if digits + 1 < |source| && source[digits] == '.'
      && IsDigit(source[digits + 1]) then SpanEnd(source, digits + 1, IsDigit)
    else digits
  }

  function LexemeEnd(source: string, start: nat): nat
    requires start < |source|
  {
    if IsNameStart(source[start]) then SpanEnd(source, start, IsNameChar)
    else if IsDigit(source[start]) then NumberEnd(source, start)
    else SymbolEnd(source, start)
  }

  /** The kind the lexer gives to the text it has cut out. */
  function LexemeKind(text: string): TokenKind {
    match KindOf(text)
    case Some(kind) => kind
    case None => Unknown
  }

  /** The next token from position `n`, and the position after it. */
  function NextToken(source: string, n: nat): (r: (Token, nat))
    requires n <= |source|
    ensures n <= r.1 <= |source|
  {
    var start := SpanEnd(source, n, IsSpace);
    if start == |source| then (Token(Lexeme(EndOfFile, ""), LocationAt(source, start)), start)
    else
      var end := LexemeEnd(source, start);
      LexemeEndBounds(source, start);
      (Token(Lexeme(LexemeKind(source[start..end]), source[start..end]), LocationAt(source, start)), end)
  }

  lemma LexemeEndBounds(source: string, start: nat)
    requires start < |source|
    ensures start < LexemeEnd(source, start) <= |source|
  {
  }

  /** What a token at `start..end` promises: white space before it and the longest lexeme there is. */
  ghost predicate Longest(source: string, start: nat, end: nat)
    requires start < end <= |source|
  {
    && (KindOf(source[start..end]).None? ==> end == start + 1)
    && forall m :: end < m <= |source| ==> KindOf(source[start..m]).None?
  }

  lemma NameLongest(source: string, start: nat)
    requires start < |source| && IsNameStart(source[start])
    ensures Longest(source, start, LexemeEnd(source, start))
  {
    var end := LexemeEnd(source, start);
    assert source[start..end][0] == source[start];
    forall m | end < m <= |source| ensures KindOf(source[start..m]).None? {
      var s := source[start..m];
      assert s[0] == source[start] && s[end - start] == source[end];
      SymbolStart(s);
    }
  }

  /** No symbol starts with a letter, a digit or an underscore, and none is longer than two characters. */
  lemma SymbolStart(s: string)
    ensures SymbolKind(s).Some? ==>
      0 < |s| <= 2 && !IsNameChar(s[0]) && !IsSpace(s[0]) && (|s| == 2 ==> s[0] in "=!<>" && s[1] == '=')
  {
  }

  lemma NumberLongest(source: string, start: nat)
    requires start < |source| && IsDigit(source[start])
    ensures Longest(source, start, LexemeEnd(source, start))
  {
    var digits := SpanEnd(source, start, IsDigit);
    var end := LexemeEnd(source, start);
    var text := source[start..end];
    assert text[0] == source[start];
    if end == digits {
      assert IsInteger(text);
    } else {
      assert IsFloatAt(text, digits - start);
    }
    forall m | end < m <= |source| ensures KindOf(source[start..m]).None? {
      LongerNumber(source, start, m);
    }
  }

  lemma LongerNumber(source: string, start: nat, m: nat)
    requires start < |source| && IsDigit(source[start]) && NumberEnd(source, start) < m <= |source|
    ensures KindOf(source[start..m]).None?
  {
    var digits, end := SpanEnd(source, start, IsDigit), NumberEnd(source, start);
    var s := source[start..m];
    SymbolStart(s);
    assert s[0] == source[start];
    assert s[digits - start] == source[digits] && s[end - start] == source[end];
    forall dot | 0 <= dot < |s| ensures !IsFloatAt(s, dot) {
      if dot < digits - start {
        assert s[dot] == source[start + dot];
      } else if digits - start == dot && digits - start + 1 < |s| {
        assert s[digits - start + 1] == source[digits + 1];
      }
    }
  }

  lemma SymbolLongest(source: string, start: nat)
    requires start < |source| && !IsNameStart(source[start]) && !IsDigit(source[start])
    ensures Longest(source, start, LexemeEnd(source, start))
  {
    var end := LexemeEnd(source, start);
    if end == start + 2 {
      assert source[start..end] == [source[start], '='];
    }
    forall m | end < m <= |source| ensures KindOf(source[start..m]).None? {
      var s := source[start..m];
      assert s[0] == source[start] && s[1] == source[start + 1];
      SymbolStart(s);
      assert forall dot :: 0 <= dot < |s| && IsFloatAt(s, dot) ==> IsDigit(s[0]);
    }
  }

  lemma LexemeLongest(source: string, start: nat)
    requires start < |source|
    ensures start < LexemeEnd(source, start) <= |source| && Longest(source, start, LexemeEnd(source, start))
  {
    LexemeEndBounds(source, start);
    if IsNameStart(source[start]) {
      NameLongest(source, start);
    } else if IsDigit(source[start]) {
      NumberLongest(source, start);
    } else {
      SymbolLongest(source, start);
    }
  }

  lemma KindNotEnd(s: string)
    ensures KindOf(s) != Some(EndOfFile)
  {
  }

  /** Longest match: the text of a token is the longest lexeme at its start, and its kind is that lexeme's;
      a character that starts no lexeme is an unknown token on its own. */
  lemma LongestMatch(source: string, n: nat)
    requires n <= |source|
    ensures var (t, end) := NextToken(source, n);
      var start := t.location.offset;
      && n <= start <= end && (forall i :: n <= i < start ==> IsSpace(source[i]))
      && t.location == LocationAt(source, start)
      && if t.lexeme.kind.EndOfFile? then start == end == |source| && t.lexeme.text == ""
         else
           && start < end && !IsSpace(source[start]) && t.lexeme.text == source[start..end]
           && Longest(source, start, end)
           && (KindOf(t.lexeme.text) == Some(t.lexeme.kind)
               || (KindOf(t.lexeme.text).None? && t.lexeme.kind.Unknown?))
  {
    hide KindOf, Longest, LexemeEnd;
    var start := SpanEnd(source, n, IsSpace);
    LocationExact(source, start);
    if start < |source| {
      LexemeLongest(source, start);
      KindNotEnd(source[start..LexemeEnd(source, start)]);
    }
  }

  /** All tokens from position `n`, ending with the end-of-file token. */
  function Tokenize(source: string, n: nat): (ts: seq<Token>)
    requires n <= |source|
    ensures ts != [] && ts[|ts| - 1].lexeme.kind.EndOfFile?
    ensures forall i :: 0 <= i < |ts| - 1 ==> !ts[i].lexeme.kind.EndOfFile?
    decreases |source| - n
  {
    var (t, m) := NextToken(source, n);
    LongestMatch(source, n);
    if t.lexeme.kind.EndOfFile? then [t] else [t] + Tokenize(source, m)
  }

  predicate Blank(s: string) {
    forall i :: 0 <= i < |s| ==> IsSpace(s[i])
  }

  /** One token and the blank gap before it. */
  ghost predicate TokenAt(source: string, n: nat, t: Token)
    requires n <= |source|
  {
    && n <= t.location.offset && t.location.offset + |t.lexeme.text| <= |source|
    && Blank(source[n..t.location.offset])
    && source[t.location.offset..t.location.offset + |t.lexeme.text|] == t.lexeme.text
    && t.location == LocationAt(source, t.location.offset)
  }

  /** The tokens and blank gaps that tile `source[n..]`. */
  ghost predicate Tiles(source: string, n: nat, ts: seq<Token>)
    requires n <= |source|
    decreases |ts|
  {
    && ts != [] && TokenAt(source, n, ts[0])
    && if |ts| == 1 then ts[0].lexeme.text == "" && ts[0].location.offset == |source|
       else Tiles(source, ts[0].location.offset + |ts[0].lexeme.text|, ts[1..])
  }

  lemma NextTokenAt(source: string, n: nat)
    requires n <= |source|
    ensures var (t, m) := NextToken(source, n);
      TokenAt(source, n, t) && m == t.location.offset + |t.lexeme.text|
      && (t.lexeme.kind.EndOfFile? ==> t.lexeme.text == "" && t.location.offset == |source|)
  {
    hide KindOf, Longest, LexemeEnd, LexemeKind, SpanEnd, NextToken;
    LongestMatch(source, n);
  }

  /** Lexing loses nothing: the lexemes, in order, with blank gaps between them, are the source. */
  lemma {:induction false} TokenizeTiles(source: string, n: nat)
    requires n <= |source|
    ensures Tiles(source, n, Tokenize(source, n))
    decreases |source| - n
  {
    hide KindOf, LexemeEnd, LexemeKind, NextToken, LocationAt, Blank;
    NextTokenAt(source, n);
    var (t, m) := NextToken(source, n);
    if !t.lexeme.kind.EndOfFile? {
      LongestMatch(source, n);
      TokenizeTiles(source, m);
      assert Tokenize(source, n) == [t] + Tokenize(source, m);
    }
  }

  /** The tokens without their positions. */
  function Strip(ts: seq<Token>): (r: seq<Lexeme>)
    ensures |r| == |ts| && forall i :: 0 <= i < |ts| ==> r[i] == ts[i].lexeme
  {
    if ts == [] then [] else [ts[0].lexeme] + Strip(ts[1..])
  }
}
