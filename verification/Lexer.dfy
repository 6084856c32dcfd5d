// The lexer of src/lexer.cpp: a specification by recursion on the source, and the
// scanning loops proved to compute it.

module Lexer {
  import opened Ast
  import opened Source
  import opened Decimals

  predicate IsBlank(c: char) { c == ' ' || c == '\t' || c == '\r' || c == '\n' }

  predicate IsSymbolChar(c: char) {
    || 'A' <= c <= 'Z' || 'a' <= c <= 'z' || IsDigit(c)
    || c == '_' || c == '-' || c == '?' || c == '!' || c == '<' || c == '>'
    || c == '=' || c == '+' || c == '*' || c == '/' || c == '.'
  }

  // ---- integer words -----------------------------------------------------------------------

  const MAX_INT64 := 0x7fff_ffff_ffff_ffff

  function Digits(w: string): string {
    if w != [] && w[0] == '-' then w[1..] else w
  }

  /** An optional minus sign and at least one digit. */
  predicate IsIntegerWord(w: string) {
    Digits(w) != [] && AllDigits(Digits(w))
  }

  function SignedValue(w: string): int
    requires IsIntegerWord(w)
  {
    var v: int := Magnitude(Digits(w));
    if w[0] == '-' then -v else v
  }

  lemma {:induction false} MagnitudeGrows(digits: string, i: nat)
    requires AllDigits(digits) && i <= |digits|
    ensures Magnitude(digits[..i]) <= Magnitude(digits)
    decreases |digits| - i
  {
    if i < |digits| {
      assert digits[..i + 1][..i] == digits[..i];
      MagnitudeGrows(digits, i + 1);
    } else {
      assert digits[..i] == digits;
    }
  }

  method IsInteger(w: string) returns (yes: bool)
    ensures yes == IsIntegerWord(w)
  {
    var i := 0;
    if i < |w| && w[i] == '-' { i := i + 1; }
    if i >= |w| { return false; }
    var start := i;
    while i < |w|
      invariant start <= i <= |w|
      invariant forall k :: start <= k < i ==> IsDigit(w[k])
    {
      if !IsDigit(w[i]) {
        assert Digits(w)[i - start] == w[i];
        return false;
      }
      i := i + 1;
    }
    assert Digits(w) == w[start..i];
    return true;
  }

  /** Exact integer reading: the accumulator never leaves the 64-bit range, and the word is
      read exactly when its magnitude fits, leading zeros included. */
  method ParseInt(w: string) returns (ok: bool, out: int)
    requires IsIntegerWord(w)
    ensures ok <==> Magnitude(Digits(w)) <= MAX_INT64
    ensures ok ==> out == SignedValue(w)
  {
    var i := 0;
    var neg := w[i] == '-';
    if neg { i := i + 1; }
    ghost var start := i;
    ghost var digits := Digits(w);
    var v := 0;
    while i < |w|
      invariant start <= i <= |w| && digits == w[start..]
      invariant v == Magnitude(digits[..i - start]) && 0 <= v <= MAX_INT64
    {
      ghost var k := i - start;
      assert digits[k] == w[i];
      var d := DigitValue(w[i]);
      assert digits[..k + 1][..k] == digits[..k];
      assert Magnitude(digits[..k + 1]) == 10 * v + d;
      if v > (MAX_INT64 - d) / 10 {
        MagnitudeGrows(digits, k + 1);
        return false, 0;
      }
      v := v * 10 + d;
      i := i + 1;
    }
    assert digits[..i - start] == digits;
    return true, if neg then -v else v;
  }

  // ---- specification -----------------------------------------------------------------------------

  datatype TokenKind = LParen | RParen | Symbol | Integer | End

  datatype Token = Token(kind: TokenKind, span: Span, text: string, value: int)

  datatype Lexed = Lexed(tokens: seq<Token>, diags: seq<Diagnostic>)

  /** The first offset from `o` on at which the word stops. */
  function WordEnd(src: string, o: nat): (e: nat)
    requires o <= |src|
    ensures o <= e <= |src|
    decreases |src| - o
  {
    if o < |src| && IsSymbolChar(src[o]) then WordEnd(src, o + 1) else o
  }

  /** The first line end from `o` on, or the end of the source. */
  function LineEnd(src: string, o: nat): (e: nat)
    requires o <= |src|
    ensures o <= e <= |src|
    decreases |src| - o
  {
    if o < |src| && src[o] != '\n' then LineEnd(src, o + 1) else o
  }

  function WordToken(src: string, o: nat, e: nat): Token
    requires o < e <= |src|
  {
    var w := src[o..e];
    if IsIntegerWord(w) then
      Token(Integer, SpanOf(src, o, e), w, if Magnitude(Digits(w)) <= MAX_INT64 then SignedValue(w) else 0)
    else Token(Symbol, SpanOf(src, o, e), w, 0)
  }

  function WordProblems(src: string, o: nat, e: nat): seq<Diagnostic>
    requires o < e <= |src|
  {
    var w := src[o..e];
    if IsIntegerWord(w) then
      if Magnitude(Digits(w)) <= MAX_INT64 then [] else [Diagnostic(SpanOf(src, o, e), IntegerOutOfRange)]
    else if IsDigit(w[0]) then [Diagnostic(SpanOf(src, o, e), InvalidWord)]
    else []
  }

  function EndToken(src: string): Token {
    Token(End, SpanOf(src, |src|, |src|), "", 0)
  }

  /** What the lexer makes of the text from `o` on, up to `end`: one token, one problem,
      both, or nothing for a blank or a comment. */
  datatype Lexeme = Lexeme(end: nat, tokens: seq<Token>, diags: seq<Diagnostic>)

  function NextLexeme(src: string, o: nat): (l: Lexeme)
    requires o < |src|
    ensures o < l.end <= |src|
  {
    var c := src[o];
    if IsBlank(c) then Lexeme(o + 1, [], [])
    else if c == ';' then Lexeme(LineEnd(src, o + 1), [], [])
    else if c == '(' || c == ')' then
      Lexeme(o + 1, [Token(if c == '(' then LParen else RParen, SpanOf(src, o, o + 1), [c], 0)], [])
    else if IsSymbolChar(c) then
      var e := WordEnd(src, o + 1);
      Lexeme(e, [WordToken(src, o, e)], WordProblems(src, o, e))
    else Lexeme(o + 1, [], [Diagnostic(SpanOf(src, o, o + 1), UnexpectedCharacter)])
  }

  function LexFrom(src: string, o: nat): Lexed
    requires o <= |src|
    decreases |src| - o
  {
    if o == |src| then Lexed([EndToken(src)], [])
    else
      var l := NextLexeme(src, o);
      var rest := LexFrom(src, l.end);
      Lexed(l.tokens + rest.tokens, l.diags + rest.diags)
  }

  function Lex(src: string): Lexed { LexFrom(src, 0) }

  // ---- the scanning loops -----------------------------------------------------------------------------

  /** The cursor of the lexer. */
  class Cursor {
    const src: string
    var offset: nat
    var line: nat
    var col: nat

    constructor (src: string)
      ensures Valid() && offset == 0 && this.src == src
    {
      this.src := src;
      offset, line, col := 0, 1, 1;
    }

    ghost predicate Valid()
      reads this
    {
      offset <= |src| && line == LineOf(src, offset) && col == ColumnOf(src, offset)
    }

    method Advance()
      requires Valid() && offset < |src|
      modifies this
      ensures Valid() && offset == old(offset) + 1
    {
      if src[offset] == '\n' {
        line := line + 1;
        col := 1;
      } else {
        col := col + 1;
      }
      offset := offset + 1;
    }
  }

  lemma LexStep(src: string, o: nat, tokens: seq<Token>, diags: seq<Diagnostic>)
    requires o < |src|
    ensures var l := NextLexeme(src, o);
            && (tokens + l.tokens) + LexFrom(src, l.end).tokens == tokens + LexFrom(src, o).tokens
            && (diags + l.diags) + LexFrom(src, l.end).diags == diags + LexFrom(src, o).diags
  {
    hide NextLexeme;
  }

  lemma LexEnd(src: string)
    ensures LexFrom(src, |src|) == Lexed([EndToken(src)], [])
  {
  }

  method LexSource(src: string) returns (result: Lexed)
    ensures result == Lex(src)
  {
    hide NextLexeme, LexFrom;
    var tokens: seq<Token>, diags: seq<Diagnostic> := [], [];
    var at := new Cursor(src);
    while at.offset < |src|
      invariant at.Valid() && at.src == src && fresh(at)
      invariant tokens + LexFrom(src, at.offset).tokens == Lex(src).tokens
      invariant diags + LexFrom(src, at.offset).diags == Lex(src).diags
      decreases |src| - at.offset
    {
      ghost var o := at.offset;
      var ts, ds := ScanLexeme(at);
      LexStep(src, o, tokens, diags);
      tokens, diags := tokens + ts, diags + ds;
    }
    LexEnd(src);
    tokens := tokens + [Token(End, Span(at.offset, at.offset, at.line, at.col, at.line, at.col), "", 0)];
    return Lexed(tokens, diags);
  }

  /** One turn of the lexer's loop. */
  method ScanLexeme(at: Cursor) returns (tokens: seq<Token>, diags: seq<Diagnostic>)
    requires at.Valid() && at.offset < |at.src|
    modifies at
    ensures at.Valid() && Lexeme(at.offset, tokens, diags) == NextLexeme(at.src, old(at.offset))
  {
    var c := at.src[at.offset];
    if IsBlank(c) {
      at.Advance();
      return [], [];
    }
    if c == ';' {
      SkipComment(at);
      return [], [];
    }
    var so, sl, sc := at.offset, at.line, at.col;
    if c == '(' || c == ')' {
      at.Advance();
      return [Token(if c == '(' then LParen else RParen, Span(so, at.offset, sl, sc, at.line, at.col), [c], 0)], [];
    }
    if IsSymbolChar(c) {
      var t, problems := ScanWord(at);
      return [t], problems;
    }
    at.Advance();
    return [], [Diagnostic(Span(so, at.offset, sl, sc, at.line, at.col), UnexpectedCharacter)];
  }

  method SkipComment(at: Cursor)
    requires at.Valid() && at.offset < |at.src| && at.src[at.offset] == ';'
    modifies at
    ensures at.Valid() && at.offset == LineEnd(at.src, old(at.offset) + 1)
  {
    while at.offset < |at.src| && at.src[at.offset] != '\n'
      invariant at.Valid()
      invariant LineEnd(at.src, at.offset) == LineEnd(at.src, old(at.offset) + 1)
      decreases |at.src| - at.offset
    {
      at.Advance();
    }
  }

  method ScanWord(at: Cursor) returns (t: Token, problems: seq<Diagnostic>)
    requires at.Valid() && at.offset < |at.src| && IsSymbolChar(at.src[at.offset])
    modifies at
    ensures at.Valid() && at.offset == WordEnd(at.src, old(at.offset) + 1)
    ensures t == WordToken(at.src, old(at.offset), at.offset)
    ensures problems == WordProblems(at.src, old(at.offset), at.offset)
  {
    var so, sl, sc := at.offset, at.line, at.col;
    var word := "";
    while at.offset < |at.src| && IsSymbolChar(at.src[at.offset])
      invariant at.Valid() && so <= at.offset
      invariant word == at.src[so..at.offset]
      invariant WordEnd(at.src, at.offset) == WordEnd(at.src, so + 1)
      decreases |at.src| - at.offset
    {
      word := word + [at.src[at.offset]];
      at.Advance();
    }
    var span := Span(so, at.offset, sl, sc, at.line, at.col);
    var isInteger := IsInteger(word);
    if isInteger {
      var ok, value := ParseInt(word);
      t := Token(Integer, span, word, if ok then value else 0);
      problems := if ok then [] else [Diagnostic(span, IntegerOutOfRange)];
    } else {
      t := Token(Symbol, span, word, 0);
      problems := if IsDigit(word[0]) then [Diagnostic(span, InvalidWord)] else [];
    }
  }
}
