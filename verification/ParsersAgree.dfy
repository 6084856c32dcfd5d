// The engine's parser, on the bytes of a text, and the editor's parser, on its UTF-16 units,
// read the same tree with the same lines and columns from every text that the engine accepts
// (src/lexer.cpp, src/parser.cpp, app/src/parser.js).

module ParsersAgree {
  import opened Ast
  import opened Source
  import opened Decimals
  import opened Lexer
  import opened LexerTheorems
  import opened Parser
  import opened BrowserParser
  import opened Encodings

  function Bytes(text: string): string { Encode(Utf8, text) }

  function Units(text: string): string { Encode(Utf16, text) }

  function B(text: string, p: nat): nat
    requires p <= |text|
  {
    Pos(Utf8, text, p)
  }

  function U(text: string, p: nat): nat
    requires p <= |text|
  {
    Pos(Utf16, text, p)
  }

  /** Both spans are of the stretch of the text from `p` to `q`: each with its own offsets, and
      both with the lines and columns of the text. */
  ghost predicate Spans(text: string, js: Span, raw: Span, p: nat, q: nat) {
    p <= q <= |text| && raw == SpanIn(Utf8, text, p, q) && js == SpanIn(Utf16, text, p, q)
  }

  ghost predicate SamePlace(text: string, js: Span, raw: Span) {
    exists p, q :: Spans(text, js, raw, p, q)
  }

  /** The same shape, the same symbols and integer values, the same places. */
  ghost predicate Agrees(text: string, js: Js, raw: Raw)
    decreases raw, 1
  {
    && SamePlace(text, js.span, raw.span)
    && match raw
       case Sym(_, symbol) => js.JsAtom? && js.kind == SymbolAtom && js.raw == symbol
       case Int(_, value) => js.JsAtom? && js.kind == IntegerAtom && IsIntegerWord(js.raw) && SignedValue(js.raw) == value
       case List(_, list) => js.JsList? && AgreeAll(text, js.children, list)
  }

  ghost predicate AgreeAll(text: string, jss: seq<Js>, raws: seq<Raw>)
    decreases raws, 0
  {
    |jss| == |raws| && forall i :: 0 <= i < |raws| ==> Agrees(text, jss[i], raws[i])
  }

  // ---- the two scanners agree on clean text ---------------------------------------------------------

  /** No byte from `p` on is reported. */
  ghost predicate Clean(text: string, p: nat) {
    p <= |text| && B(text, p) <= |Bytes(text)| && LexFrom(Bytes(text), B(text, p)).diags == []
  }

  /** Nothing but ASCII stands before `p` on its line, or nothing but the line end follows. */
  predicate Settled(text: string, p: nat)
    requires p <= |text|
  {
    PureLine(text, p) || p == |text| || text[p] == '\n'
  }

  lemma CleanByte(src: string, o: nat)
    requires o < |src| && LexFrom(src, o).diags == []
    ensures IsBlank(src[o]) || src[o] == ';' || IsParen(src[o]) || IsSymbolChar(src[o])
    ensures LexFrom(src, NextLexeme(src, o).end).diags == []
    ensures NextLexeme(src, o).diags == []
  {
    hide WordProblems, IsSymbolChar;
    var l := NextLexeme(src, o);
    assert |l.diags + LexFrom(src, l.end).diags| == |l.diags| + |LexFrom(src, l.end).diags|;
  }

  /** A character where the engine goes on cleanly is ASCII, and both parsers see it. */
  lemma CleanChar(text: string, p: nat)
    requires Clean(text, p) && p < |text|
    ensures IsAscii(text[p]) && (IsBlank(text[p]) || text[p] == ';' || IsParen(text[p]) || IsSymbolChar(text[p]))
    ensures B(text, p) < |Bytes(text)| && Bytes(text)[B(text, p)] == text[p] && B(text, p + 1) == B(text, p) + 1
    ensures U(text, p) < |Units(text)| && Units(text)[U(text, p)] == text[p] && U(text, p + 1) == U(text, p) + 1
    ensures NextLexeme(Bytes(text), B(text, p)).diags == []
  {
    StepAt(Utf8, text, p);
    StepAt(Utf16, text, p);
    CleanByte(Bytes(text), B(text, p));
    if !IsAscii(text[p]) { ForeignChar(Bytes(text)[B(text, p)]); }
    hide LexFrom, NextLexeme, IsSymbolChar, Pos, Encode;
  }

  lemma JsSpaceIsNoToken(c: char)
    ensures IsSymbolChar(c) || IsParen(c) || c == ';' ==> !IsJsSpace(c)
    ensures IsBlank(c) ==> IsJsSpace(c)
    ensures IsSymbolChar(c) ==> !EndsAtom(c)
    ensures IsBlank(c) || c == ';' || IsParen(c) ==> EndsAtom(c) && !IsSymbolChar(c)
  {
  }

  /** Blanks and comments leave the tokens as they are. */
  lemma Silent(src: string, o: nat)
    requires o < |src| && (IsBlank(src[o]) || src[o] == ';')
    ensures LexFrom(src, o) == LexFrom(src, NextLexeme(src, o).end)
    ensures NextLexeme(src, o).end == if IsBlank(src[o]) then o + 1 else LineEnd(src, o + 1)
  {
    var l := NextLexeme(src, o);
    var rest := LexFrom(src, l.end);
    assert [] + rest.tokens == rest.tokens && [] + rest.diags == rest.diags;
  }

  lemma SkipStep(src: string, o: nat)
    requires o < |src|
    ensures IsJsSpace(src[o]) ==> Skip(src, o) == Skip(src, o + 1)
    ensures !IsJsSpace(src[o]) && src[o] == ';' ==> Skip(src, o) == Skip(src, LineEnd(src, o + 1))
    ensures !IsJsSpace(src[o]) && src[o] != ';' ==> Skip(src, o) == o
  {
    hide IsJsSpace;
  }

  /** Both scanners pass blanks and comments to the same place. */
  lemma {:induction false} SkipSyncs(text: string, p: nat) returns (q: nat)
    requires Clean(text, p) && Settled(text, p)
    ensures p <= q && Clean(text, q) && LexFrom(Bytes(text), B(text, q)) == LexFrom(Bytes(text), B(text, p))
    ensures U(text, p) <= |Units(text)| && Skip(Units(text), U(text, p)) == U(text, q)
    ensures q == |text| || (PureLine(text, q) && (IsParen(text[q]) || IsSymbolChar(text[q])))
    decreases |text| - p
  {
    hide IsJsSpace, IsSymbolChar, LexFrom, NextLexeme, LineEnd, Skip, Pos, Encode;
    PosGrows(Utf16, text, p, p);
    if p == |text| {
      q := p;
      PosEnds(Utf16, text);
      SkipAtEnd(Units(text));
    } else {
      CleanChar(text, p);
      JsSpaceIsNoToken(text[p]);
      SkipStep(Units(text), U(text, p));
      if IsBlank(text[p]) {
        Silent(Bytes(text), B(text, p));
        BlankSettles(text, p);
        q := SkipSyncs(text, p + 1);
      } else if text[p] == ';' {
        Silent(Bytes(text), B(text, p));
        LineEndEncoded(Utf8, text, p + 1);
        LineEndEncoded(Utf16, text, p + 1);
        LineEndSettles(text, p + 1);
        q := SkipSyncs(text, LineEnd(text, p + 1));
      } else {
        q := p;
      }
    }
  }

  lemma SkipAtEnd(src: string)
    ensures Skip(src, |src|) == |src|
  {
  }

  lemma BlankSettles(text: string, p: nat)
    requires p < |text| && Settled(text, p) && IsBlank(text[p])
    ensures Settled(text, p + 1)
  {
  }

  lemma LineEndSettles(text: string, p: nat)
    requires p <= |text|
    ensures Settled(text, LineEnd(text, p)) && p <= LineEnd(text, p)
  {
    LineEndIsFirst(text, p);
    hide LineEnd, PureLine;
  }

  lemma WordStarts(src: string, o: nat)
    requires o < |src| && IsSymbolChar(src[o])
    ensures NextLexeme(src, o) == Lexeme(WordEnd(src, o + 1), [WordToken(src, o, WordEnd(src, o + 1))], WordProblems(src, o, WordEnd(src, o + 1)))
    ensures WordEnd(src, o) == WordEnd(src, o + 1)
  {
  }

  /** The characters of a word stand in both forms as they are. */
  lemma {:induction false} WordStands(enc: Encoding, text: string, p: nat, e: nat)
    requires p <= e <= |text| && forall i :: p <= i < e ==> IsSymbolChar(text[i])
    ensures Pos(enc, text, e) == Pos(enc, text, p) + (e - p) <= |Encode(enc, text)|
    ensures Encode(enc, text)[Pos(enc, text, p)..Pos(enc, text, e)] == text[p..e]
    ensures forall i :: Pos(enc, text, p) <= i < Pos(enc, text, e) ==> IsSymbolChar(Encode(enc, text)[i])
    ensures forall i :: p <= i < e ==> IsAscii(text[i])
  {
    hide Pos, Encode, IsSymbolChar;
    forall i | p <= i < e ensures IsAscii(text[i]) { SymbolsAreAscii(text[i]); }
    AsciiSlice(enc, text, p, e);
    var s, o := Encode(enc, text), Pos(enc, text, p);
    forall i | o <= i < Pos(enc, text, e) ensures IsSymbolChar(s[i]) {
      assert s[o..Pos(enc, text, e)][i - o] == s[i];
      assert text[p..e][i - o] == text[p + (i - o)];
    }
  }

  /** A clean word ends at the same place for both parsers. */
  lemma {:induction false} WordAgrees(text: string, p: nat) returns (e: nat)
    requires Clean(text, p) && p < |text| && IsSymbolChar(text[p]) && PureLine(text, p)
    ensures p < e && Clean(text, e) && Settled(text, e) && PureLine(text, e)
    ensures B(text, p) < B(text, e) && WordEnd(Bytes(text), B(text, p) + 1) == B(text, e)
    ensures NextLexeme(Bytes(text), B(text, p)) == Lexeme(B(text, e), [WordToken(Bytes(text), B(text, p), B(text, e))], [])
    ensures U(text, p) < U(text, e) <= |Units(text)| && AtomEnd(Units(text), U(text, p)) == U(text, e)
    ensures Bytes(text)[B(text, p)..B(text, e)] == text[p..e] == Units(text)[U(text, p)..U(text, e)]
  {
    hide LexFrom, NextLexeme, IsSymbolChar, IsJsSpace, EndsAtom, AtomEnd, Pos, Encode, WordToken, WordProblems;
    e := WordEnd(text, p);
    WordEndIsFirst(text, p);
    CleanChar(text, p);
    WordEndPasses(text, p);
    WordStands(Utf8, text, p, e);
    WordStands(Utf16, text, p, e);
    PureOn(text, p, e);
    WordStopsBytes(text, e);
    WordEndIs(Bytes(text), B(text, p), B(text, e));
    WordStarts(Bytes(text), B(text, p));
    CleanByte(Bytes(text), B(text, p));
    assert Clean(text, e);
    forall i | U(text, p) <= i < U(text, e) ensures !EndsAtom(Units(text)[i]) { JsSpaceIsNoToken(Units(text)[i]); }
    if e < |text| {
      CleanChar(text, e);
      JsSpaceIsNoToken(text[e]);
    } else {
      PosEnds(Utf16, text);
    }
    AtomEndIs(Units(text), U(text, p), U(text, e));
  }

  lemma WordEndPasses(text: string, p: nat)
    requires p < |text| && IsSymbolChar(text[p])
    ensures p < WordEnd(text, p)
  {
  }

  /** What ends a word in the text ends it in the bytes. */
  lemma WordStopsBytes(text: string, e: nat)
    requires e <= |text| && (e < |text| ==> !IsSymbolChar(text[e]))
    ensures B(text, e) <= |Bytes(text)| && (B(text, e) < |Bytes(text)| ==> !IsSymbolChar(Bytes(text)[B(text, e)]))
  {
    hide Pos, Encode, IsSymbolChar;
    PosGrows(Utf8, text, e, e);
    if e < |text| {
      StepAt(Utf8, text, e);
      if !IsAscii(text[e]) { ForeignChar(Bytes(text)[B(text, e)]); }
    } else {
      PosEnds(Utf8, text);
    }
  }

  // ---- the two parsers agree -------------------------------------------------------------------------

  /** The engine's tokens from index `k` on are those of the text from `p` on, all clean. */
  ghost predicate Synced(text: string, toks: seq<Token>, k: nat, p: nat) {
    && Terminated(toks) && k < |toks|
    && Clean(text, p) && Settled(text, p)
    && toks[k..] == LexFrom(Bytes(text), B(text, p)).tokens
  }

  lemma SyncedFacts(text: string, toks: seq<Token>, k: nat, p: nat)
    requires Synced(text, toks, k, p)
    ensures Terminated(toks) && k < |toks| && Clean(text, p) && Settled(text, p) && p <= |text| && B(text, p) <= |Bytes(text)|
  {
  }

  lemma TokenAt(src: string, s: nat)
    requires s < |src| && (IsParen(src[s]) || IsSymbolChar(src[s]))
    ensures var l := NextLexeme(src, s);
            && |l.tokens| == 1
            && LexFrom(src, s).tokens[0] == l.tokens[0] && LexFrom(src, s).tokens[1..] == LexFrom(src, l.end).tokens
    ensures IsParen(src[s]) ==>
              && !IsSymbolChar(src[s]) && NextLexeme(src, s).end == s + 1
              && NextLexeme(src, s).tokens == [Token(if src[s] == '(' then LParen else RParen, SpanOf(src, s, s + 1), [src[s]], 0)]
  {
  }

  lemma NotEnd(src: string, s: nat, e: nat)
    requires s < e <= |src| && IsSymbolChar(src[s])
    ensures var kind := WordToken(src, s, e).kind; kind == Symbol || kind == Integer
  {
  }

  /** The place of the next token is where the editor's parser stops skipping. */
  lemma {:induction false} NextToken(text: string, toks: seq<Token>, k: nat, p: nat) returns (q: nat)
    requires Synced(text, toks, k, p)
    ensures p <= q <= |text| && Synced(text, toks, k, q)
    ensures U(text, p) <= |Units(text)| && Skip(Units(text), U(text, p)) == U(text, q)
    ensures q == |text| <==> toks[k].kind == End
    ensures q < |text| ==> PureLine(text, q) && U(text, q) < |Units(text)| && Units(text)[U(text, q)] == text[q]
                           && (IsParen(text[q]) || IsSymbolChar(text[q]))
                           && (text[q] == '(' <==> toks[k].kind == LParen) && (text[q] == ')' <==> toks[k].kind == RParen)
    ensures q == |text| ==> U(text, q) == |Units(text)|
  {
    hide IsSymbolChar, IsJsSpace, WordProblems, WordToken, Pos, Encode, LexFrom, NextLexeme, Skip, Terminated;
    q := SkipSyncs(text, p);
    assert toks[k] == toks[k..][0] by { TokensLeft(text, toks, k, p); }
    if q < |text| {
      CleanChar(text, q);
      TokenAt(Bytes(text), B(text, q));
      if IsSymbolChar(text[q]) {
        WordStarts(Bytes(text), B(text, q));
        NotEnd(Bytes(text), B(text, q), NextLexeme(Bytes(text), B(text, q)).end);
        NotParen(text[q]);
      }
    } else {
      PosEnds(Utf16, text);
      PosEnds(Utf8, text);
      NoTokens(Bytes(text));
    }
  }

  lemma NoTokens(src: string)
    ensures LexFrom(src, |src|).tokens == [EndToken(src)] && EndToken(src).kind == End
  {
  }

  lemma NotParen(c: char)
    requires IsSymbolChar(c)
    ensures c != '(' && c != ')'
  {
  }

  lemma TokensLeft(text: string, toks: seq<Token>, k: nat, p: nat)
    requires Synced(text, toks, k, p)
    ensures toks[k..] != [] && toks[k] == toks[k..][0]
  {
  }

  /** A parenthesis: its span in both forms, and what follows it. */
  lemma {:induction false} ParenToken(text: string, toks: seq<Token>, k: nat, q: nat)
    requires Synced(text, toks, k, q) && q < |text| && IsParen(text[q]) && PureLine(text, q)
    requires k + 1 < |toks|
    ensures toks[k].span == SpanIn(Utf8, text, q, q + 1) && Synced(text, toks, k + 1, q + 1)
    ensures PureLine(text, q + 1) && U(text, q + 1) == U(text, q) + 1 <= |Units(text)|
    ensures SpanOf(Units(text), U(text, q), U(text, q + 1)) == SpanIn(Utf16, text, q, q + 1)
  {
    CleanChar(text, q);
    TokenAt(Bytes(text), B(text, q));
    CleanByte(Bytes(text), B(text, q));
    SpanEncoded(Utf8, text, q, q + 1);
    SpanEncoded(Utf16, text, q, q + 1);
    TokensLeft(text, toks, k, q);
    hide LexFrom, NextLexeme, Pos, Encode, IsSymbolChar, Terminated, SpanOf, SpanIn;
    assert toks[k + 1..] == toks[k..][1..];
  }

  lemma MoreTokens(toks: seq<Token>, k: nat)
    requires Terminated(toks) && k < |toks| && toks[k].kind != End
    ensures k + 1 < |toks|
  {
  }

  /** A word: its token, the editor's atom, and what follows. */
  lemma {:induction false} WordTokenAgrees(text: string, toks: seq<Token>, k: nat, q: nat) returns (e: nat, js: Js)
    requires Synced(text, toks, k, q) && q < |text| && IsSymbolChar(text[q]) && PureLine(text, q)
    requires k + 1 < |toks|
    ensures q < e <= |text| && U(text, q) <= U(text, e) <= |Units(text)| && AtomEnd(Units(text), U(text, q)) == U(text, e)
    ensures js == BrowserParser.Atom(Units(text), U(text, q), U(text, e)) && Synced(text, toks, k + 1, e)
    ensures toks[k].kind == Symbol || toks[k].kind == Integer
    ensures Agrees(text, js, if toks[k].kind == Symbol then Sym(toks[k].span, toks[k].text) else Int(toks[k].span, toks[k].value))
  {
    hide LexFrom, NextLexeme, Pos, Encode, IsSymbolChar, Terminated, AtomEnd, IsJsSpace, EndsAtom, SpanIn;
    e := WordAgrees(text, q);
    TokensLeft(text, toks, k, q);
    CleanChar(text, q);
    TokenAt(Bytes(text), B(text, q));
    CleanByte(Bytes(text), B(text, q));
    assert toks[k + 1..] == toks[k..][1..];
    js := BrowserParser.Atom(Units(text), U(text, q), U(text, e));
    SpanEncoded(Utf8, text, q, e);
    SpanEncoded(Utf16, text, q, e);
    NotEnd(Bytes(text), B(text, q), B(text, e));
    WordStarts(Bytes(text), B(text, q));
    AtomAgrees(text, q, e, toks[k], js);
  }

  lemma AtomAgrees(text: string, q: nat, e: nat, t: Token, js: Js)
    requires q < e <= |text| && B(text, q) < B(text, e) <= |Bytes(text)| && U(text, q) <= U(text, e) <= |Units(text)|
    requires t == WordToken(Bytes(text), B(text, q), B(text, e)) && WordProblems(Bytes(text), B(text, q), B(text, e)) == []
    requires js == BrowserParser.Atom(Units(text), U(text, q), U(text, e))
    requires Bytes(text)[B(text, q)..B(text, e)] == Units(text)[U(text, q)..U(text, e)]
    requires SpanOf(Bytes(text), B(text, q), B(text, e)) == SpanIn(Utf8, text, q, e)
    requires SpanOf(Units(text), U(text, q), U(text, e)) == SpanIn(Utf16, text, q, e)
    requires t.kind == Symbol || t.kind == Integer
    ensures Agrees(text, js, if t.kind == Symbol then Sym(t.span, t.text) else Int(t.span, t.value))
  {
    hide Pos, Encode, SpanOf, SpanIn, IsIntegerWord, SignedValue, Magnitude;
    assert Spans(text, js.span, t.span, q, e);
  }

  lemma {:induction false} ExprAgrees(text: string, toks: seq<Token>, k: nat, p: nat) returns (js: Js, e: nat)
    requires Synced(text, toks, k, p) && toks[k].kind != End
    requires ParseExpr(toks, k).expr.Some?
    ensures p < e <= |text| && U(text, p) <= |Units(text)| && JsExpr(Units(text), U(text, p)) == Ok((js, U(text, e)))
    ensures Agrees(text, js, ParseExpr(toks, k).expr.value) && Synced(text, toks, ParseExpr(toks, k).pos, e)
    decreases |toks| - k, 0
  {
    hide Synced, IsSymbolChar, IsJsSpace, LexFrom, Terminated, NextLexeme, Pos, Encode, Skip, AtomEnd, SpanOf, SpanIn, Agrees;
    SyncedFacts(text, toks, k, p);
    MoreTokens(toks, k);
    var q := NextToken(text, toks, k, p);
    if text[q] == '(' {
      ParenToken(text, toks, k, q);
      BeginsAt(text, q);
      js, e := RestAgrees(text, toks, k + 1, q + 1, q, [], [], toks[k].span, toks[k].span);
    } else {
      e, js := WordTokenAgrees(text, toks, k, q);
      NotParen(text[q]);
    }
  }

  /** A span that begins where the list does. */
  ghost predicate Begins(text: string, span: Span, p: nat) {
    && p <= |text| && span.startOffset == B(text, p)
    && span.startLine == LineOf(text, p) && span.startColumn == ColumnOf(text, p)
  }

  lemma BeginsAt(text: string, q: nat)
    requires q < |text|
    ensures Begins(text, SpanIn(Utf8, text, q, q + 1), q)
  {
    hide Pos, LineOf, ColumnOf;
  }

  lemma {:induction false} RestAgrees(text: string, toks: seq<Token>, k: nat, p: nat, start: nat, kids: seq<Js>, raws: seq<Raw>,
                                      open: Span, span: Span) returns (js: Js, e: nat)
    requires Synced(text, toks, k, p) && start < p <= |text| && AgreeAll(text, kids, raws)
    requires Begins(text, span, start) && PureLine(text, start) && U(text, start) < U(text, p) <= |Units(text)|
    requires Terminated(toks) && k < |toks| && ParseList(toks, k, open, span, raws).expr.Some?
    ensures p < e <= |text| && JsRest(Units(text), U(text, p), U(text, start), kids) == Ok((js, U(text, e)))
    ensures Agrees(text, js, ParseList(toks, k, open, span, raws).expr.value)
    ensures Synced(text, toks, ParseList(toks, k, open, span, raws).pos, e)
    decreases |toks| - k, 1
  {
    hide Synced, IsSymbolChar, IsJsSpace, LexFrom, Terminated, ParseExpr, JsExpr, NextLexeme, Skip, Pos, Encode, SpanOf, SpanIn, Agrees, AgreeAll,
         Begins, PureLine;
    SyncedFacts(text, toks, k, p);
    var q := NextToken(text, toks, k, p);
    if toks[k].kind == RParen {
      MoreTokens(toks, k);
      ParenToken(text, toks, k, q);
      e := q + 1;
      js := JsList(SpanOf(Units(text), U(text, start), U(text, e)), kids);
      ListAgrees(text, start, q, js, span, toks[k].span, kids, raws);
    } else {
      MoreTokens(toks, k);
      var r := ParseExpr(toks, k);
      var child, c := ExprAgrees(text, toks, k, q);
      var raw := r.expr.value;
      SkipTwice(text, p, q);
      AgreePush(text, kids, raws, child, raw);
      BeginsOn(text, span, raw.span, start);
      PosGrows(Utf16, text, start, c);
      PosGrows(Utf16, text, q, c);
      js, e := RestAgrees(text, toks, r.pos, c, start, kids + [child], raws + [raw], open, Join(span, raw.span));
    }
  }

  lemma SkipTwice(text: string, p: nat, q: nat)
    requires p <= |text| && q <= |text| && U(text, p) <= |Units(text)| && U(text, q) == Skip(Units(text), U(text, p))
    ensures Skip(Units(text), U(text, q)) == U(text, q)
  {
    SkipAgain(Units(text), U(text, p));
  }

  lemma BeginsOn(text: string, span: Span, other: Span, p: nat)
    requires Begins(text, span, p)
    ensures Begins(text, Join(span, other), p)
  {
    hide Pos, LineOf, ColumnOf;
  }

  lemma ListAgrees(text: string, start: nat, q: nat, js: Js, span: Span, last: Span, kids: seq<Js>, raws: seq<Raw>)
    requires start <= q < |text| && Begins(text, span, start) && last == SpanIn(Utf8, text, q, q + 1)
    requires PureLine(text, start) && PureLine(text, q + 1) && AgreeAll(text, kids, raws)
    requires U(text, start) <= |Units(text)| && U(text, q + 1) <= |Units(text)|
    requires js == JsList(SpanOf(Units(text), U(text, start), U(text, q + 1)), kids)
    ensures Agrees(text, js, List(Join(span, last), raws))
  {
    SpanEncoded(Utf16, text, start, q + 1);
    hide Pos, Encode, LineOf, ColumnOf, PureLine, AgreeAll;
    assert Spans(text, js.span, Join(span, last), start, q + 1);
  }

  lemma {:induction false} AgreePush(text: string, kids: seq<Js>, raws: seq<Raw>, js: Js, raw: Raw)
    requires AgreeAll(text, kids, raws) && Agrees(text, js, raw)
    ensures AgreeAll(text, kids + [js], raws + [raw])
  {
    hide Agrees;
  }

  lemma {:induction false} ProgramAgrees(text: string, toks: seq<Token>, k: nat, p: nat) returns (jss: seq<Js>)
    requires Synced(text, toks, k, p) && Terminated(toks) && k < |toks| && ParseFrom(toks, k).diags == []
    ensures p <= |text| && U(text, p) <= |Units(text)| && JsProgram(Units(text), U(text, p)) == Ok(jss)
    ensures AgreeAll(text, jss, ParseFrom(toks, k).exprs)
    decreases |toks| - k
  {
    hide Synced, IsSymbolChar, IsJsSpace, LexFrom, Terminated, ParseExpr, JsExpr, NextLexeme, Agrees, Skip, Pos, Encode;
    SyncedFacts(text, toks, k, p);
    var q := NextToken(text, toks, k, p);
    if toks[k].kind == End {
      jss := [];
    } else {
      var r := ParseExpr(toks, k);
      assert |r.diags + ParseFrom(toks, r.pos).diags| == |r.diags| + |ParseFrom(toks, r.pos).diags|;
      SkipTwice(text, p, q);
      var js, e := ExprAgrees(text, toks, k, q);
      var rest := ProgramAgrees(text, toks, r.pos, e);
      jss := [js] + rest;
      AgreeCons(text, js, r.expr.value, rest, ParseFrom(toks, r.pos).exprs);
    }
  }

  lemma {:induction false} AgreeCons(text: string, js: Js, raw: Raw, jss: seq<Js>, raws: seq<Raw>)
    requires Agrees(text, js, raw) && AgreeAll(text, jss, raws)
    ensures AgreeAll(text, [js] + jss, [raw] + raws)
  {
    hide Agrees;
  }

  /** Two parsers agree: on every text whose bytes the engine's lexer and parser accept with no
      diagnostics, the editor's parser reads from its units the same tree, with the same lines and
      columns, and with offsets that mark the same places of the text. */
  lemma {:induction false} TwoParsersAgree(text: string)
    requires Parse(Bytes(text)).diags == []
    ensures JsProgram(Units(text), 0).Ok? && AgreeAll(text, JsProgram(Units(text), 0).value, Parse(Bytes(text)).exprs)
  {
    var src := Bytes(text);
    LexIsTerminated(src, 0);
    var lexed := Lex(src);
    hide LexFrom, ParseFrom, Pos, Encode, Terminated;
    assert |lexed.diags + ParseFrom(lexed.tokens, 0).diags| == |lexed.diags| + |ParseFrom(lexed.tokens, 0).diags|;
    assert lexed.tokens[0..] == lexed.tokens;
    PosEnds(Utf8, text);
    PosEnds(Utf16, text);
    var jss := ProgramAgrees(text, lexed.tokens, 0, 0);
  }

  // ---- offsets -----------------------------------------------------------------------------------------

  /** Where the spans are equal: exactly where all of the text up to their end is ASCII, so that no
      comment before it holds anything else. */
  lemma {:induction false} SpansEqualExactly(text: string, js: Span, raw: Span, p: nat, q: nat)
    requires Spans(text, js, raw, p, q)
    ensures js.startLine == raw.startLine && js.startColumn == raw.startColumn
    ensures js.endLine == raw.endLine && js.endColumn == raw.endColumn
    ensures js == raw <==> forall i :: 0 <= i < q ==> IsAscii(text[i])
  {
    OffsetsEqualExactly(text, p);
    OffsetsEqualExactly(text, q);
    hide Pos, Encode, LineOf, ColumnOf;
  }

  // ---- ASCII texts -------------------------------------------------------------------------------------

  predicate AllAscii(text: string) {
    forall i :: 0 <= i < |text| ==> IsAscii(text[i])
  }

  /** The same tree with the same spans, offsets included. */
  ghost predicate Equal(js: Js, raw: Raw)
    decreases raw, 1
  {
    && js.span == raw.span
    && match raw
       case Sym(_, symbol) => js.JsAtom? && js.kind == SymbolAtom && js.raw == symbol
       case Int(_, value) => js.JsAtom? && js.kind == IntegerAtom && IsIntegerWord(js.raw) && SignedValue(js.raw) == value
       case List(_, list) => js.JsList? && EqualAll(js.children, list)
  }

  ghost predicate EqualAll(jss: seq<Js>, raws: seq<Raw>)
    decreases raws, 0
  {
    |jss| == |raws| && forall i :: 0 <= i < |raws| ==> Equal(jss[i], raws[i])
  }

  lemma {:induction false} AgreesOnAscii(text: string, js: Js, raw: Raw)
    requires AllAscii(text) && Agrees(text, js, raw)
    ensures Equal(js, raw)
    decreases raw
  {
    hide IsIntegerWord, SignedValue, Spans;
    var p, q :| Spans(text, js.span, raw.span, p, q);
    SpansOnAscii(text, js.span, raw.span, p, q);
    if raw.List? {
      forall i | 0 <= i < |raw.list| ensures Equal(js.children[i], raw.list[i]) {
        AgreesOnAscii(text, js.children[i], raw.list[i]);
      }
    }
  }

  lemma SpansOnAscii(text: string, js: Span, raw: Span, p: nat, q: nat)
    requires AllAscii(text) && Spans(text, js, raw, p, q)
    ensures js == raw
  {
    SpansEqualExactly(text, js, raw, p, q);
    hide Pos, SpanIn;
  }

  /** ASCII is its own bytes and its own units. */
  lemma {:induction false} AsciiIsItself(text: string, enc: Encoding)
    requires AllAscii(text)
    ensures Encode(enc, text) == text
  {
    hide Code;
    if text != "" {
      AsciiIsItself(text[..|text| - 1], enc);
      CodeForm(enc, text[|text| - 1]);
    }
  }

  /** On ASCII the two parsers read one string, and what they return is equal in every span. */
  lemma {:induction false} AsciiParsersAgree(text: string)
    requires AllAscii(text) && Parse(text).diags == []
    ensures JsProgram(text, 0).Ok? && EqualAll(JsProgram(text, 0).value, Parse(text).exprs)
  {
    AsciiIsItself(text, Utf8);
    AsciiIsItself(text, Utf16);
    hide Encode, Parse, JsProgram, Agrees, Equal;
    TwoParsersAgree(text);
    var jss, raws := JsProgram(text, 0).value, Parse(text).exprs;
    forall i | 0 <= i < |raws| ensures Equal(jss[i], raws[i]) { AgreesOnAscii(text, jss[i], raws[i]); }
  }

  /** A comment that is not ASCII moves what follows: in the bytes, the list begins one later. */
  lemma {:induction false} CommentMovesOffsets()
    ensures var text := "; \U{e9}\n(stop)"; text[4] == '(' && B(text, 4) == 5 && U(text, 4) == 4
  {
    hide *;
    var text := "; \U{e9}\n(stop)";
    Begin(text);
    MovesBy(text, 0);
    MovesBy(text, 1);
    MovesBy(text, 2);
    MovesBy(text, 3);
  }

  lemma Begin(text: string)
    ensures B(text, 0) == 0 && U(text, 0) == 0
  {
    PosEnds(Utf8, text);
    PosEnds(Utf16, text);
  }

  lemma MovesBy(text: string, p: nat)
    requires p < |text| && text[p] < 0x800 as char
    ensures B(text, p + 1) == B(text, p) + if text[p] < 0x80 as char then 1 else 2
    ensures U(text, p + 1) == U(text, p) + 1
  {
    CodeAt(Utf8, text, p);
    CodeAt(Utf16, text, p);
    CodeLength(text[p]);
    hide Pos, Encode, Code;
  }

  lemma CodeLength(c: char)
    requires c < 0x800 as char
    ensures |Code(Utf8, c)| == (if c < 0x80 as char then 1 else 2) && |Code(Utf16, c)| == 1
  {
  }
}
