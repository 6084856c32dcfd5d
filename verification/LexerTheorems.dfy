// Every byte of the source is accounted for by the lexer (src/lexer.cpp:52-130).

module LexerTheorems {
  import opened Source
  import opened Lexer
  import opened Decimals

  // ---- an independent reading of the text ------------------------------------------------------

  /** Offset `p` lies in a comment: a semicolon at or before it, and no line end since. */
  ghost predicate InComment(src: string, p: nat)
    requires p < |src|
  {
    exists q :: 0 <= q <= p && src[q] == ';' && NoLineEnd(src, q, p)
  }

  ghost predicate NoLineEnd(src: string, q: nat, p: nat)
    requires p < |src|
  {
    forall k :: q <= k <= p ==> src[k] != '\n'
  }

  predicate IsParen(c: char) { c == '(' || c == ')' }

  /** The byte belongs to some token. */
  ghost predicate Meaningful(src: string, p: nat)
    requires p < |src|
  {
    !InComment(src, p) && (IsParen(src[p]) || IsSymbolChar(src[p]))
  }

  /** The byte is reported as unexpected. */
  ghost predicate Alien(src: string, p: nat)
    requires p < |src|
  {
    !InComment(src, p) && !IsParen(src[p]) && !IsSymbolChar(src[p]) && !IsBlank(src[p])
  }

  /** Lexing can stop and resume at `o`: in no comment, and in the middle of no word. */
  ghost predicate Resumable(src: string, o: nat)
    requires o <= |src|
  {
    && (o < |src| ==> (InComment(src, o) <==> src[o] == ';'))
    && (0 < o < |src| ==> !IsSymbolChar(src[o - 1]) || !IsSymbolChar(src[o]))
  }

  // ---- what each token is ---------------------------------------------------------------------------

  /** A token is exactly its slice of the source, with the line and column of both ends, and
      a word is as long as it can be. */
  ghost predicate Faithful(src: string, t: Token) {
    && t.span.startOffset < t.span.endOffset <= |src|
    && t.span == SpanOf(src, t.span.startOffset, t.span.endOffset)
    && t.text == src[t.span.startOffset..t.span.endOffset]
    && (t.kind == LParen <==> t.text == "(") && (t.kind == RParen <==> t.text == ")")
    && (t.kind == Integer || t.kind == Symbol ==>
          && (forall p :: t.span.startOffset <= p < t.span.endOffset ==> IsSymbolChar(src[p]))
          && (t.span.endOffset == |src| || !IsSymbolChar(src[t.span.endOffset]))
          && (t.span.startOffset == 0 || !IsSymbolChar(src[t.span.startOffset - 1]))
          && (t.kind == Integer <==> IsIntegerWord(t.text)))
    && t.kind != End
  }

  ghost predicate Within(t: Token, p: nat) {
    t.span.startOffset <= p < t.span.endOffset
  }

  ghost predicate Covered(ts: seq<Token>, p: nat) {
    exists i :: 0 <= i < |ts| && Within(ts[i], p)
  }

  ghost predicate Reported(src: string, ds: seq<Diagnostic>, p: nat)
    requires p < |src|
  {
    Diagnostic(SpanOf(src, p, p + 1), UnexpectedCharacter) in ds
  }

  /** The word tokens, in order and disjoint, all from `o` on. */
  ghost predicate Ordered(src: string, o: nat, ts: seq<Token>) {
    && (forall i :: 0 <= i < |ts| ==> Faithful(src, ts[i]) && o <= ts[i].span.startOffset)
    && (forall i, j :: 0 <= i < j < |ts| ==> ts[i].span.endOffset <= ts[j].span.startOffset)
  }

  /** From `o` up to `e`, each byte is in a token exactly if it is meaningful, and reported as
      unexpected exactly if it is alien; nothing before `o` is reported. */
  ghost predicate Accounts(src: string, o: nat, e: nat, ts: seq<Token>, ds: seq<Diagnostic>)
    requires o <= e <= |src|
  {
    && (forall p :: o <= p < e ==> (Meaningful(src, p) <==> Covered(ts, p)))
    && (forall p :: o <= p < e ==> (Alien(src, p) <==> Reported(src, ds, p)))
    && (forall p :: 0 <= p < |src| && Reported(src, ds, p) ==> o <= p < e)
    && (forall t :: t in ts ==> t.span.endOffset <= e)
  }

  // ---- comments ------------------------------------------------------------------------------------------

  lemma {:induction false} CommentStep(src: string, p: nat)
    requires p + 1 < |src|
    ensures InComment(src, p + 1) <==> src[p + 1] != '\n' && (src[p + 1] == ';' || InComment(src, p))
  {
    if InComment(src, p + 1) && src[p + 1] != ';' {
      var q :| 0 <= q <= p + 1 && src[q] == ';' && NoLineEnd(src, q, p + 1);
      assert NoLineEnd(src, q, p);
    }
    if src[p + 1] != '\n' && InComment(src, p) {
      var q :| 0 <= q <= p && src[q] == ';' && NoLineEnd(src, q, p);
      assert NoLineEnd(src, q, p + 1);
    }
    if src[p + 1] == ';' { assert NoLineEnd(src, p + 1, p + 1); }
  }

  /** Text without a semicolon is in no comment if it does not begin in one. */
  lemma {:induction false} PlainText(src: string, o: nat, e: nat)
    requires o < e <= |src| && !InComment(src, o)
    requires forall p :: o <= p < e ==> src[p] != ';'
    ensures forall p :: o <= p < e ==> !InComment(src, p)
    ensures e < |src| ==> (InComment(src, e) <==> src[e] == ';')
    decreases e
  {
    if e - 1 > o {
      PlainText(src, o, e - 1);
      CommentStep(src, e - 2);
    }
    if e < |src| {
      CommentStep(src, e - 1);
      if src[e] == ';' { assert NoLineEnd(src, e, e); }
    }
  }

  lemma {:induction false} CommentText(src: string, o: nat, p: nat)
    requires o < |src| && o <= p < LineEnd(src, o + 1) && src[o] == ';'
    ensures InComment(src, p)
  {
    LineEndIsFirst(src, o + 1);
    assert NoLineEnd(src, o, p);
  }

  lemma {:induction false} LineEndIsFirst(src: string, o: nat)
    requires o <= |src|
    ensures forall k :: o <= k < LineEnd(src, o) ==> src[k] != '\n'
    ensures LineEnd(src, o) < |src| ==> src[LineEnd(src, o)] == '\n'
    decreases |src| - o
  {
    if o < |src| && src[o] != '\n' { LineEndIsFirst(src, o + 1); }
  }

  lemma {:induction false} WordEndIsFirst(src: string, o: nat)
    requires o <= |src|
    ensures forall k :: o <= k < WordEnd(src, o) ==> IsSymbolChar(src[k])
    ensures WordEnd(src, o) < |src| ==> !IsSymbolChar(src[WordEnd(src, o)])
    decreases |src| - o
  {
    if o < |src| && IsSymbolChar(src[o]) { WordEndIsFirst(src, o + 1); }
  }

  // ---- one lexeme -----------------------------------------------------------------------------------------------

  lemma {:induction false} WordEndIs(src: string, o: nat, e: nat)
    requires o <= e <= |src| && (forall i :: o <= i < e ==> IsSymbolChar(src[i])) && (e < |src| ==> !IsSymbolChar(src[e]))
    ensures WordEnd(src, o) == e
    decreases e - o
  {
    hide IsSymbolChar;
    if o < e { WordEndIs(src, o + 1, e); }
  }

  lemma {:induction false} LexemeTiles(src: string, o: nat)
    requires o < |src| && Resumable(src, o)
    ensures var l := NextLexeme(src, o);
            Resumable(src, l.end) && Ordered(src, o, l.tokens) && Accounts(src, o, l.end, l.tokens, l.diags)
  {
    var c := src[o];
    if c == ';' {
      CommentTiles(src, o);
    } else if IsSymbolChar(c) {
      WordTiles(src, o);
    } else {
      PlainText(src, o, o + 1);
      ByteTiles(src, o);
    }
  }

  lemma {:induction false} CommentTiles(src: string, o: nat)
    requires o < |src| && src[o] == ';'
    ensures var e := LineEnd(src, o + 1); Resumable(src, e) && Accounts(src, o, e, [], [])
  {
    var e := LineEnd(src, o + 1);
    LineEndIsFirst(src, o + 1);
    forall p | o <= p < e ensures InComment(src, p) { CommentText(src, o, p); }
    if e < |src| { CommentStep(src, e - 1); }
  }

  lemma {:induction false} ByteTiles(src: string, o: nat)
    requires o < |src| && !InComment(src, o) && !IsSymbolChar(src[o]) && src[o] != ';'
    requires o + 1 < |src| ==> (InComment(src, o + 1) <==> src[o + 1] == ';')
    ensures var l := NextLexeme(src, o);
            Resumable(src, l.end) && Ordered(src, o, l.tokens) && Accounts(src, o, l.end, l.tokens, l.diags)
  {
    var l := NextLexeme(src, o);
    if IsParen(src[o]) {
      assert Within(l.tokens[0], o);
      assert src[o..o + 1] == [src[o]];
    }
  }

  lemma SymbolCharIsPlain(c: char)
    requires IsSymbolChar(c)
    ensures c != ';' && !IsParen(c) && !IsBlank(c) && c != '\n'
  {
  }

  lemma {:induction false} WordFaithful(src: string, o: nat)
    requires o < |src| && Resumable(src, o) && IsSymbolChar(src[o])
    ensures Faithful(src, WordToken(src, o, WordEnd(src, o + 1)))
  {
    hide IsSymbolChar, IsIntegerWord, Magnitude;
    WordEndIsFirst(src, o + 1);
    SymbolCharIsPlain(src[o]);
    var t := WordToken(src, o, WordEnd(src, o + 1));
    assert t.text[0] == src[o];
  }

  lemma {:induction false} WordTiles(src: string, o: nat)
    requires o < |src| && Resumable(src, o) && IsSymbolChar(src[o])
    ensures var l := NextLexeme(src, o);
            Resumable(src, l.end) && Ordered(src, o, l.tokens) && Accounts(src, o, l.end, l.tokens, l.diags)
  {
    hide IsSymbolChar, IsIntegerWord, Magnitude, Faithful, InComment;
    var l := NextLexeme(src, o);
    SymbolCharIsPlain(src[o]);
    WordEndIsFirst(src, o + 1);
    WordFaithful(src, o);
    forall p | o <= p < l.end ensures src[p] != ';' && !IsParen(src[p]) && !IsBlank(src[p]) { SymbolCharIsPlain(src[p]); }
    PlainText(src, o, l.end);
    forall p | o <= p < l.end ensures Covered(l.tokens, p) { assert Within(l.tokens[0], p); }
  }

  // ---- the whole source ------------------------------------------------------------------------------------------

  lemma {:induction false} LexTiles(src: string, o: nat) returns (words: seq<Token>)
    requires o <= |src| && Resumable(src, o)
    ensures LexFrom(src, o).tokens == words + [EndToken(src)]
    ensures Ordered(src, o, words) && Accounts(src, o, |src|, words, LexFrom(src, o).diags)
    decreases |src| - o
  {
    hide NextLexeme, Resumable, Ordered, Accounts;
    if o == |src| {
      words := [];
      NothingTiles(src);
    } else {
      var l := NextLexeme(src, o);
      LexemeTiles(src, o);
      var rest := LexTiles(src, l.end);
      words := l.tokens + rest;
      OrderedJoins(src, o, l.end, l.tokens, rest, l.diags);
      AccountsJoins(src, o, l.end, l.tokens, rest, l.diags, LexFrom(src, l.end).diags);
    }
  }

  lemma NothingTiles(src: string)
    ensures Ordered(src, |src|, []) && Accounts(src, |src|, |src|, [], [])
  {
  }

  lemma {:induction false} OrderedJoins(src: string, o: nat, e: nat, ts: seq<Token>, us: seq<Token>, ds: seq<Diagnostic>)
    requires o <= e <= |src| && Ordered(src, o, ts) && Ordered(src, e, us) && Accounts(src, o, e, ts, ds)
    ensures Ordered(src, o, ts + us)
  {
    hide Faithful;
    var all := ts + us;
    forall i, j | 0 <= i < j < |all| ensures all[i].span.endOffset <= all[j].span.startOffset {
      if i < |ts| <= j { assert all[i] in ts && all[j] == us[j - |ts|]; }
      else if j < |ts| {}
      else { assert all[i] == us[i - |ts|] && all[j] == us[j - |ts|]; }
    }
  }

  lemma {:induction false} CoveredJoins(ts: seq<Token>, us: seq<Token>, p: nat)
    ensures Covered(ts + us, p) <==> Covered(ts, p) || Covered(us, p)
  {
    if Covered(ts, p) { var i :| 0 <= i < |ts| && Within(ts[i], p); assert Within((ts + us)[i], p); }
    if Covered(us, p) { var i :| 0 <= i < |us| && Within(us[i], p); assert Within((ts + us)[|ts| + i], p); }
    if Covered(ts + us, p) {
      var i :| 0 <= i < |ts + us| && Within((ts + us)[i], p);
      if i < |ts| { assert Within(ts[i], p); } else { assert Within(us[i - |ts|], p); }
    }
  }

  lemma {:induction false} AccountsJoins(src: string, o: nat, e: nat, ts: seq<Token>, us: seq<Token>,
                                         ds: seq<Diagnostic>, es: seq<Diagnostic>)
    requires o <= e <= |src|
    requires Accounts(src, o, e, ts, ds) && Accounts(src, e, |src|, us, es) && Ordered(src, o, ts) && Ordered(src, e, us)
    ensures Accounts(src, o, |src|, ts + us, ds + es)
  {
    hide Meaningful, Alien, Faithful;
    forall p | o <= p < |src| ensures Meaningful(src, p) <==> Covered(ts + us, p) {
      CoveredJoins(ts, us, p);
      if p < e { OnlyFrom(src, e, us, p); } else { OnlyBefore(ts, e, p); }
    }
    forall p | 0 <= p < |src| ensures Reported(src, ds + es, p) <==> Reported(src, ds, p) || Reported(src, es, p) {}
    forall t | t in ts + us ensures t.span.endOffset <= |src| {
      assert t in ts || t in us;
    }
  }

  lemma OnlyFrom(src: string, e: nat, us: seq<Token>, p: nat)
    requires Ordered(src, e, us) && p < e
    ensures !Covered(us, p)
  {
  }

  lemma OnlyBefore(ts: seq<Token>, e: nat, p: nat)
    requires (forall t :: t in ts ==> t.span.endOffset <= e) && e <= p
    ensures !Covered(ts, p)
  {
    forall i | 0 <= i < |ts| ensures !Within(ts[i], p) { assert ts[i] in ts; }
  }

  /** The tokens of a source are in order, disjoint, equal to their slices with the right lines
      and columns, closed by the only End; every other byte is a blank, in a comment, or
      reported; and nothing else is reported as unexpected. */
  lemma {:induction false} LexerTiles(src: string) returns (words: seq<Token>)
    ensures Lex(src).tokens == words + [EndToken(src)] && EndToken(src).kind == End
    ensures Ordered(src, 0, words)
    ensures forall p :: 0 <= p < |src| ==> (Covered(words, p) <==> !InComment(src, p) && (IsParen(src[p]) || IsSymbolChar(src[p])))
    ensures forall p :: 0 <= p < |src| ==>
              (Reported(src, Lex(src).diags, p) <==> !Covered(words, p) && !InComment(src, p) && !IsBlank(src[p]))
  {
    StartResumes(src);
    words := LexTiles(src, 0);
    assert Accounts(src, 0, |src|, words, Lex(src).diags);
    forall p | 0 <= p < |src|
      ensures Covered(words, p) <==> !InComment(src, p) && (IsParen(src[p]) || IsSymbolChar(src[p]))
      ensures Reported(src, Lex(src).diags, p) <==> !Covered(words, p) && !InComment(src, p) && !IsBlank(src[p])
    {
      assert Meaningful(src, p) <==> Covered(words, p);
      assert Alien(src, p) <==> Reported(src, Lex(src).diags, p);
    }
  }

  lemma StartResumes(src: string)
    ensures Resumable(src, 0)
  {
    if src != [] && src[0] == ';' { assert NoLineEnd(src, 0, 0); }
  }
}
