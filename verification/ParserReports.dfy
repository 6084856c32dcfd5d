// What the parser reports, by a scan of the parentheses alone: each stray closing one at its place, and,
// if the source ends inside lists, the innermost of them at its opening one (src/parser.cpp:28-101;
// tests/test_parser.cpp:29-49).

module ParserReports {
  import opened Ast
  import opened Source
  import opened Lexer
  import opened Parser

  /** The problems from `pos` on, inside lists opened at the spans of `open`, the innermost last. */
  function Reports(toks: seq<Token>, pos: nat, open: seq<Span>): seq<Diagnostic>
    requires pos <= |toks|
    decreases |toks| - pos
  {
    if pos == |toks| then []
    else if toks[pos].kind == End then (if open == [] then [] else [Diagnostic(open[|open| - 1], MissingParen)])
    else if toks[pos].kind == LParen then Reports(toks, pos + 1, open + [toks[pos].span])
    else if toks[pos].kind == RParen then
      if open == [] then [Diagnostic(toks[pos].span, UnexpectedParen)] + Reports(toks, pos + 1, [])
      else Reports(toks, pos + 1, open[..|open| - 1])
    else Reports(toks, pos + 1, open)
  }

  /** One expression: without a problem, or the source ends in it. */
  lemma {:induction false} ExprReports(toks: seq<Token>, pos: nat, open: seq<Span>)
    requires Terminated(toks) && pos < |toks| && toks[pos].kind != End && toks[pos].kind != RParen
    ensures var r := ParseExpr(toks, pos);
            if r.expr.Some? then r.diags == [] && Reports(toks, pos, open) == Reports(toks, r.pos, open)
            else toks[r.pos].kind == End && r.diags == Reports(toks, pos, open) && |r.diags| == 1
    decreases |toks| - pos, 0
  {
    hide ParseList, Terminated;
    if toks[pos].kind == LParen {
      Ends(toks, pos);
      ListReports(toks, pos + 1, toks[pos].span, toks[pos].span, [], open + [toks[pos].span]);
      assert (open + [toks[pos].span])[..|open|] == open;
    }
  }

  lemma Ends(toks: seq<Token>, pos: nat)
    requires Terminated(toks) && pos < |toks| && toks[pos].kind != End
    ensures pos + 1 < |toks|
  {
  }

  lemma {:induction false} ListReports(toks: seq<Token>, pos: nat, at: Span, span: Span, kids: seq<Raw>, open: seq<Span>)
    requires Terminated(toks) && pos < |toks| && open != [] && open[|open| - 1] == at
    ensures var r := ParseList(toks, pos, at, span, kids);
            if r.expr.Some? then r.diags == [] && Reports(toks, pos, open) == Reports(toks, r.pos, open[..|open| - 1])
            else toks[r.pos].kind == End && r.diags == Reports(toks, pos, open) && |r.diags| == 1
    decreases |toks| - pos, 1
  {
    hide ParseExpr, Terminated;
    if toks[pos].kind != RParen && toks[pos].kind != End {
      ExprReports(toks, pos, open);
      var r := ParseExpr(toks, pos);
      if r.expr.Some? { ListReports(toks, r.pos, at, Join(span, r.expr.value.span), kids + [r.expr.value], open); }
    }
  }

  lemma {:induction false} FromReports(toks: seq<Token>, pos: nat)
    requires Terminated(toks) && pos < |toks|
    ensures ParseFrom(toks, pos).diags == Reports(toks, pos, [])
    decreases |toks| - pos
  {
    hide ParseList, Terminated;
    var t := toks[pos];
    if t.kind != End {
      Ends(toks, pos);
      if t.kind != RParen { ExprReports(toks, pos, []); }
      var r := ParseExpr(toks, pos);
      FromReports(toks, r.pos);
      assert toks[r.pos].kind == End ==> ParseFrom(toks, r.pos).diags == [];
    }
  }

  /** The problems of a source are those of its lexemes and then those of its parentheses. */
  lemma {:induction false} SourceReports(src: string)
    ensures Parse(src).diags == Lex(src).diags + Reports(Lex(src).tokens, 0, [])
  {
    LexIsTerminated(src, 0);
    FromReports(Lex(src).tokens, 0);
    hide LexFrom, ParseFrom, Reports;
  }
}
