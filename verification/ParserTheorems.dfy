// What the parser reads and what it drops (src/parser.cpp:27-101).

module ParserTheorems {
  import opened Ast
  import opened Source
  import opened Lexer
  import opened LexerTheorems
  import opened Parser
  import opened Options

  // ---- an independent account, by counting parentheses --------------------------------------------

  /** The position after the parenthesis that brings the depth down to zero, `depth` being
      the number of lists open at `pos`. */
  function Closing(toks: seq<Token>, pos: nat, depth: nat): (r: Option<nat>)
    requires Terminated(toks) && pos < |toks| && depth > 0
    ensures r.Some? ==> pos < r.value < |toks|
    decreases |toks| - pos
  {
    match toks[pos].kind
    case End => None
    case LParen => Closing(toks, pos + 1, depth + 1)
    case RParen => if depth == 1 then Some(pos + 1) else Closing(toks, pos + 1, depth - 1)
    case _ => Closing(toks, pos + 1, depth)
  }

  /** The tokens without the stray closing parentheses between top-level expressions and
      without the outermost list that is never closed. */
  function Survivors(toks: seq<Token>, pos: nat): seq<Token>
    requires Terminated(toks) && pos < |toks|
    decreases |toks| - pos
  {
    match toks[pos].kind
    case End => []
    case RParen => Survivors(toks, pos + 1)
    case LParen =>
      (match Closing(toks, pos + 1, 1)
       case None => []
       case Some(j) => toks[pos..j] + Survivors(toks, j))
    case _ => [toks[pos]] + Survivors(toks, pos + 1)
  }

  /** The number of stray closing parentheses, plus one if a list is never closed. */
  function Faults(toks: seq<Token>, pos: nat): nat
    requires Terminated(toks) && pos < |toks|
    decreases |toks| - pos
  {
    match toks[pos].kind
    case End => 0
    case RParen => 1 + Faults(toks, pos + 1)
    case LParen =>
      (match Closing(toks, pos + 1, 1)
       case None => 1
       case Some(j) => Faults(toks, j))
    case _ => Faults(toks, pos + 1)
  }

  /** Parentheses match: none closes what was not opened, and all are closed. */
  predicate Matched(toks: seq<Token>, pos: nat, depth: nat)
    requires Terminated(toks) && pos < |toks|
    decreases |toks| - pos
  {
    match toks[pos].kind
    case End => depth == 0
    case LParen => Matched(toks, pos + 1, depth + 1)
    case RParen => depth > 0 && Matched(toks, pos + 1, depth - 1)
    case _ => Matched(toks, pos + 1, depth)
  }

  /** A token without its place. */
  datatype Core = Open | Close | Word(text: string) | Number(value: int) | Nothing

  function CoreOf(t: Token): Core {
    match t.kind
    case LParen => Open
    case RParen => Close
    case Symbol => Word(t.text)
    case Integer => Number(t.value)
    case End => Nothing
  }

  function Cores(ts: seq<Token>): seq<Core> {
    seq(|ts|, i requires 0 <= i < |ts| => CoreOf(ts[i]))
  }

  function Flatten(e: Raw): seq<Core>
    decreases e, 1
  {
    match e
    case Sym(_, symbol) => [Word(symbol)]
    case Int(_, value) => [Number(value)]
    case List(_, list) => [Open] + FlattenAll(list) + [Close]
  }

  function FlattenAll(es: seq<Raw>): seq<Core>
    decreases es, 0
  {
    if es == [] then [] else Flatten(es[0]) + FlattenAll(es[1..])
  }

  lemma {:induction false} FlattenJoins(es: seq<Raw>, fs: seq<Raw>)
    ensures FlattenAll(es + fs) == FlattenAll(es) + FlattenAll(fs)
  {
    hide *;
    if es == [] {
      assert es + fs == fs;
      FlattenNone();
    } else {
      FlattenJoins(es[1..], fs);
      assert (es + fs)[0] == es[0] && (es + fs)[1..] == es[1..] + fs;
      FlattenUnfolds(es);
      FlattenUnfolds(es + fs);
      assert Flatten(es[0]) + (FlattenAll(es[1..]) + FlattenAll(fs)) == Flatten(es[0]) + FlattenAll(es[1..]) + FlattenAll(fs);
    }
  }

  lemma FlattenNone()
    ensures FlattenAll([]) == []
  {
  }

  lemma FlattenUnfolds(es: seq<Raw>)
    requires es != []
    ensures FlattenAll(es) == Flatten(es[0]) + FlattenAll(es[1..])
  {
    hide Flatten;
  }

  lemma FlattenOne(e: Raw)
    ensures FlattenAll([e]) == Flatten(e)
  {
    assert FlattenAll([e][1..]) == [];
  }

  lemma CoresSplit(toks: seq<Token>, i: nat, j: nat, k: nat)
    requires i <= j <= k <= |toks|
    ensures Cores(toks[i..k]) == Cores(toks[i..j]) + Cores(toks[j..k])
  {
  }

  lemma CoresJoin(ts: seq<Token>, us: seq<Token>)
    ensures Cores(ts + us) == Cores(ts) + Cores(us)
  {
  }

  lemma ListFlattens(toks: seq<Token>, pos: nat, j: nat, list: seq<Raw>, span: Span)
    requires pos < j <= |toks| && toks[pos].kind == LParen
    requires FlattenAll(list) + [Close] == Cores(toks[pos + 1..j])
    ensures Flatten(List(span, list)) == Cores(toks[pos..j])
  {
    CoresSplit(toks, pos, pos + 1, j);
    assert Cores(toks[pos..pos + 1]) == [Open];
    assert [Open] + (FlattenAll(list) + [Close]) == [Open] + FlattenAll(list) + [Close];
  }

  // ---- the parser reads what counting says -----------------------------------------------------------

  /** One expression: the tokens up to its end flattened, or a list that is never closed. */
  lemma {:induction false} ExprReads(toks: seq<Token>, pos: nat, depth: nat)
    requires Terminated(toks) && pos < |toks| && depth > 0
    requires toks[pos].kind != End && toks[pos].kind != RParen
    ensures var r := ParseExpr(toks, pos);
            && (r.expr.Some? ==> r.diags == [] && Flatten(r.expr.value) == Cores(toks[pos..r.pos]))
            && (r.expr.None? ==> |r.diags| == 1 && toks[r.pos].kind == End)
            && Closing(toks, pos, depth) == if r.expr.Some? then Closing(toks, r.pos, depth) else None
    decreases |toks| - pos, 0
  {
    hide ParseList, Cores, FlattenAll;
    var t := toks[pos];
    if t.kind == LParen {
      ListReads(toks, pos + 1, t.span, t.span, [], depth + 1);
      var r := ParseExpr(toks, pos);
      if r.expr.Some? {
        NothingFlattens();
        assert FlattenAll([]) + Cores(toks[pos + 1..r.pos]) == Cores(toks[pos + 1..r.pos]);
        ListFlattens(toks, pos, r.pos, r.expr.value.list, r.expr.value.span);
      }
    } else {
      OneCore(toks, pos);
    }
  }

  lemma NothingFlattens()
    ensures FlattenAll([]) == []
  {
  }

  lemma OneCore(toks: seq<Token>, pos: nat)
    requires pos < |toks|
    ensures toks[pos..pos + 1] == [toks[pos]] && Cores(toks[pos..pos + 1]) == [CoreOf(toks[pos])]
  {
  }

  /** The rest of a list, from inside `depth` open lists. */
  lemma {:induction false} ListReads(toks: seq<Token>, pos: nat, open: Span, span: Span, kids: seq<Raw>, depth: nat)
    requires Terminated(toks) && pos < |toks| && depth > 0
    ensures var r := ParseList(toks, pos, open, span, kids);
            && (r.expr.Some? ==>
                  && r.diags == [] && r.expr.value.List?
                  && FlattenAll(r.expr.value.list) + [Close] == FlattenAll(kids) + Cores(toks[pos..r.pos])
                  && Closing(toks, pos, depth) == if depth == 1 then Some(r.pos) else Closing(toks, r.pos, depth - 1))
            && (r.expr.None? ==> |r.diags| == 1 && toks[r.pos].kind == End && Closing(toks, pos, depth) == None)
    decreases |toks| - pos, 1
  {
    var t := toks[pos];
    if t.kind == RParen {
      assert toks[pos..pos + 1] == [t];
    } else if t.kind != End {
      var e := ParseExpr(toks, pos);
      ExprReads(toks, pos, depth);
      if e.expr.Some? {
        var child := e.expr.value;
        ListReads(toks, e.pos, open, Join(span, child.span), kids + [child], depth);
        var r := ParseList(toks, pos, open, span, kids);
        if r.expr.Some? {
          FlattenJoins(kids, [child]);
          FlattenOne(child);
          CoresSplit(toks, pos, e.pos, r.pos);
        }
      }
    }
  }

  /** The whole program: flattening what was read gives the surviving tokens, and the problems
      number the stray parentheses plus one if a list is never closed. */
  lemma {:induction false} ProgramReads(toks: seq<Token>, pos: nat)
    requires Terminated(toks) && pos < |toks|
    ensures FlattenAll(ParseFrom(toks, pos).exprs) == Cores(Survivors(toks, pos))
    ensures |ParseFrom(toks, pos).diags| == Faults(toks, pos)
    decreases |toks| - pos
  {
    hide ParseExpr, ParseList, Cores, FlattenAll, Closing, Survivors, Faults;
    var t := toks[pos];
    if t.kind == End {
      EndReads(toks, pos);
    } else if t.kind == RParen {
      ProgramReads(toks, pos + 1);
      StraySkipped(toks, pos);
      assert [] + ParseFrom(toks, pos + 1).exprs == ParseFrom(toks, pos + 1).exprs;
    } else {
      var r := ParseExpr(toks, pos);
      ExprReads(toks, pos, 1);
      ProgramReads(toks, r.pos);
      if r.expr.Some? {
        FlattenOne(r.expr.value);
        FlattenJoins([r.expr.value], ParseFrom(toks, r.pos).exprs);
        ExprSurvives(toks, pos);
        CoresJoin(toks[pos..r.pos], Survivors(toks, r.pos));
      } else {
        UnclosedDropped(toks, pos);
        EndReads(toks, r.pos);
        assert ParseFrom(toks, r.pos) == Program([], []);
        assert ParseFrom(toks, pos).exprs == [];
      }
    }
  }

  lemma EndReads(toks: seq<Token>, pos: nat)
    requires Terminated(toks) && pos < |toks| && toks[pos].kind == End
    ensures FlattenAll([]) == [] && Cores([]) == [] && Survivors(toks, pos) == [] && Faults(toks, pos) == 0
  {
  }

  lemma StraySkipped(toks: seq<Token>, pos: nat)
    requires Terminated(toks) && pos < |toks| && toks[pos].kind == RParen
    ensures Survivors(toks, pos) == Survivors(toks, pos + 1) && Faults(toks, pos) == 1 + Faults(toks, pos + 1)
    ensures ParseExpr(toks, pos) == Parsed(None, pos + 1, [Diagnostic(toks[pos].span, UnexpectedParen)])
  {
  }

  lemma {:induction false} UnclosedDropped(toks: seq<Token>, pos: nat)
    requires Terminated(toks) && pos < |toks| && toks[pos].kind != End && toks[pos].kind != RParen
    requires ParseExpr(toks, pos).expr.None?
    ensures Survivors(toks, pos) == [] && Faults(toks, pos) == 1
  {
    hide ParseList, Closing;
    assert toks[pos].kind == LParen;
    ListReads(toks, pos + 1, toks[pos].span, toks[pos].span, [], 1);
  }

  lemma {:induction false} ExprSurvives(toks: seq<Token>, pos: nat)
    requires Terminated(toks) && pos < |toks| && toks[pos].kind != End && toks[pos].kind != RParen
    requires ParseExpr(toks, pos).expr.Some?
    ensures var j := ParseExpr(toks, pos).pos;
            Survivors(toks, pos) == toks[pos..j] + Survivors(toks, j) && Faults(toks, pos) == Faults(toks, j)
  {
    if toks[pos].kind == LParen {
      ListReads(toks, pos + 1, toks[pos].span, toks[pos].span, [], 1);
    } else {
      assert toks[pos..pos + 1] == [toks[pos]];
    }
  }

  // ---- no problems exactly when the parentheses match ------------------------------------------------------

  lemma {:induction false} MatchedCloses(toks: seq<Token>, pos: nat, depth: nat)
    requires Terminated(toks) && pos < |toks| && depth > 0
    ensures Matched(toks, pos, depth) <==>
            Closing(toks, pos, depth).Some? && Matched(toks, Closing(toks, pos, depth).value, 0)
    decreases |toks| - pos
  {
    match toks[pos].kind
    case End =>
    case LParen => MatchedCloses(toks, pos + 1, depth + 1);
    case RParen => if depth > 1 { MatchedCloses(toks, pos + 1, depth - 1); }
    case _ => MatchedCloses(toks, pos + 1, depth);
  }

  lemma {:induction false} NoFaultsMeansMatched(toks: seq<Token>, pos: nat)
    requires Terminated(toks) && pos < |toks|
    ensures Faults(toks, pos) == 0 <==> Matched(toks, pos, 0)
    decreases |toks| - pos
  {
    match toks[pos].kind
    case End =>
    case LParen =>
      MatchedCloses(toks, pos + 1, 1);
      if Closing(toks, pos + 1, 1).Some? { NoFaultsMeansMatched(toks, Closing(toks, pos + 1, 1).value); }
    case RParen =>
    case _ => NoFaultsMeansMatched(toks, pos + 1);
  }

  /** The parser reports nothing exactly when the parentheses of the source match. */
  lemma {:induction false} CleanExactlyWhenMatched(src: string)
    ensures Terminated(Lex(src).tokens)
    ensures Parse(src).diags == Lex(src).diags <==> Matched(Lex(src).tokens, 0, 0)
  {
    LexIsTerminated(src, 0);
    ProgramReads(Lex(src).tokens, 0);
    NoFaultsMeansMatched(Lex(src).tokens, 0);
    var d, e := Lex(src).diags, ParseFrom(Lex(src).tokens, 0).diags;
    assert |d + e| == |d| + |e|;
    if e == [] { assert d + e == d; }
  }

  // ---- spans ------------------------------------------------------------------------------------------------

  /** Tokens one after the other in the source. */
  ghost predicate InOrder(toks: seq<Token>) {
    && (forall i :: 0 <= i < |toks| - 1 ==> toks[i].span.startOffset < toks[i].span.endOffset)
    && (forall i, j :: 0 <= i < j < |toks| ==> toks[i].span.endOffset <= toks[j].span.startOffset)
  }

  /** Every list strictly encloses its children, which are in order and disjoint. */
  ghost predicate Enclosing(e: Raw)
    decreases e, 1
  {
    && e.span.startOffset < e.span.endOffset
    && (e.List? ==> EnclosingAll(e.list) && Between(e.list, e.span.startOffset + 1, e.span.endOffset - 1))
  }

  ghost predicate EnclosingAll(es: seq<Raw>)
    decreases es, 0
  {
    forall i :: 0 <= i < |es| ==> Enclosing(es[i])
  }

  /** In order and disjoint, from `lo` to `hi`. */
  ghost predicate Between(es: seq<Raw>, lo: nat, hi: nat) {
    && (forall i :: 0 <= i < |es| ==> lo <= es[i].span.startOffset && es[i].span.endOffset <= hi)
    && (forall i, j :: 0 <= i < j < |es| ==> es[i].span.endOffset <= es[j].span.startOffset)
  }

  lemma BetweenPush(es: seq<Raw>, lo: nat, mid: nat, hi: nat, e: Raw)
    requires Between(es, lo, mid) && mid <= e.span.startOffset && lo <= mid <= hi && e.span.endOffset <= hi
    ensures Between(es + [e], lo, hi)
  {
  }

  /** The span of an expression runs from its first token to its last. */
  lemma {:induction false} ExprSpans(toks: seq<Token>, pos: nat)
    requires Terminated(toks) && InOrder(toks) && pos < |toks| && toks[pos].kind != End
    ensures var r := ParseExpr(toks, pos);
            r.expr.Some? ==>
              pos < r.pos && Enclosing(r.expr.value) && r.expr.value.span == Join(toks[pos].span, toks[r.pos - 1].span)
    decreases |toks| - pos, 0
  {
    var t := toks[pos];
    if t.kind == LParen { ListSpans(toks, pos, pos + 1, t.span, []); }
  }

  /** `first` is the list's opening parenthesis. */
  lemma {:induction false} ListSpans(toks: seq<Token>, first: nat, pos: nat, span: Span, kids: seq<Raw>)
    requires Terminated(toks) && InOrder(toks) && first < pos < |toks|
    requires span == Join(toks[first].span, toks[pos - 1].span)
    requires EnclosingAll(kids) && Between(kids, toks[first].span.startOffset + 1, toks[pos - 1].span.endOffset)
    ensures var r := ParseList(toks, pos, toks[first].span, span, kids);
            r.expr.Some? ==>
              first < r.pos && Enclosing(r.expr.value) && r.expr.value.span == Join(toks[first].span, toks[r.pos - 1].span)
    decreases |toks| - pos, 1
  {
    var t := toks[pos];
    if t.kind != RParen && t.kind != End {
      ExprSpans(toks, pos);
      var e := ParseExpr(toks, pos);
      if e.expr.Some? {
        var child := e.expr.value;
        BetweenPush(kids, toks[first].span.startOffset + 1, toks[pos - 1].span.endOffset, toks[e.pos - 1].span.endOffset, child);
        ListSpans(toks, first, e.pos, Join(span, child.span), kids + [child]);
      }
    }
  }

  /** In every source, list spans enclose their ordered, disjoint children, and so do the
      top-level expressions follow one another. */
  lemma {:induction false} SourceSpans(src: string)
    ensures EnclosingAll(Parse(src).exprs) && Between(Parse(src).exprs, 0, |src|)
  {
    LexIsTerminated(src, 0);
    var toks := Lex(src).tokens;
    LexInOrder(src);
    ProgramSpans(toks, 0, 0);
  }

  lemma {:induction false} LexInOrder(src: string)
    ensures InOrder(Lex(src).tokens)
    ensures var toks := Lex(src).tokens; toks != [] && toks[|toks| - 1].span == SpanOf(src, |src|, |src|)
  {
    hide InComment, Meaningful, Alien, Covered, Reported;
    var words := LexerTiles(src);
    var toks := Lex(src).tokens;
    forall i, j | 0 <= i < j < |toks| ensures toks[i].span.endOffset <= toks[j].span.startOffset {
      assert Faithful(src, words[i]);
    }
    forall i | 0 <= i < |toks| - 1 ensures toks[i].span.startOffset < toks[i].span.endOffset {
      assert Faithful(src, words[i]);
    }
  }

  lemma {:induction false} ProgramSpans(toks: seq<Token>, pos: nat, lo: nat)
    requires Terminated(toks) && InOrder(toks) && pos < |toks|
    requires forall i :: pos <= i < |toks| ==> lo <= toks[i].span.startOffset
    requires toks[|toks| - 1].span.startOffset == toks[|toks| - 1].span.endOffset
    ensures var es := ParseFrom(toks, pos).exprs;
            EnclosingAll(es) && Between(es, lo, toks[|toks| - 1].span.endOffset)
    decreases |toks| - pos
  {
    if toks[pos].kind != End {
      var r := ParseExpr(toks, pos);
      ExprSpans(toks, pos);
      var rest := ParseFrom(toks, r.pos).exprs;
      if r.expr.Some? {
        ProgramSpans(toks, r.pos, toks[r.pos - 1].span.endOffset);
        BetweenCons(r.expr.value, rest, lo, toks[r.pos - 1].span.endOffset, toks[|toks| - 1].span.endOffset);
      } else {
        ProgramSpans(toks, r.pos, lo);
        assert [] + rest == rest;
      }
    }
  }

  lemma BetweenCons(e: Raw, es: seq<Raw>, lo: nat, mid: nat, hi: nat)
    requires Between(es, mid, hi) && lo <= e.span.startOffset && e.span.endOffset <= mid <= hi && lo <= mid
    ensures Between([e] + es, lo, hi)
  {
  }
}
