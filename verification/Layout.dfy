// Layout independence: where the tokens stand in the source changes spans and nothing else
// (src/lexer.cpp:52-130, src/parser.cpp:27-101, src/compiler.cpp:391-448).

module Layout {
  import opened Ast
  import opened Source
  import opened Lexer
  import opened Parser
  import opened Names
  import opened Compiler
  import opened Options

  // ---- forgetting places -------------------------------------------------------------------------

  function BareToken(t: Token): Token { t.(span := NO_SPAN) }

  function BareTokens(ts: seq<Token>): (r: seq<Token>)
    ensures |r| == |ts|
  {
    seq(|ts|, i requires 0 <= i < |ts| => BareToken(ts[i]))
  }

  function BareDiags(ds: seq<Diagnostic>): (r: seq<Diagnostic>)
    ensures |r| == |ds|
  {
    seq(|ds|, i requires 0 <= i < |ds| => ds[i].(span := NO_SPAN))
  }

  function BareRaw(e: Raw): Raw
    decreases e, 1
  {
    match e
    case Sym(_, symbol) => Sym(NO_SPAN, symbol)
    case Int(_, value) => Int(NO_SPAN, value)
    case List(_, list) => List(NO_SPAN, BareRaws(list))
  }

  function BareRaws(es: seq<Raw>): (r: seq<Raw>)
    ensures |r| == |es|
    decreases es, 0
  {
    seq(|es|, i requires 0 <= i < |es| => BareRaw(es[i]))
  }

  function BareNode(n: Node): Node
    decreases n, 1
  {
    n.(span := NO_SPAN, args := BareNodes(n.args), children := BareNodes(n.children))
  }

  function BareNodes(ns: seq<Node>): (r: seq<Node>)
    ensures |r| == |ns|
    decreases ns, 0
  {
    seq(|ns|, i requires 0 <= i < |ns| => BareNode(ns[i]))
  }

  function BareRawOption(e: Option<Raw>): Option<Raw> {
    if e.Some? then Some(BareRaw(e.value)) else None
  }

  function BareNodeOption(n: Option<Node>): Option<Node> {
    if n.Some? then Some(BareNode(n.value)) else None
  }

  // ---- the parser --------------------------------------------------------------------------------

  function BareParsed(r: Parsed): Parsed { Parsed(BareRawOption(r.expr), r.pos, BareDiags(r.diags)) }

  lemma BareDiagsJoin(a: seq<Diagnostic>, b: seq<Diagnostic>)
    ensures BareDiags(a + b) == BareDiags(a) + BareDiags(b)
  {
  }

  lemma BareRawsJoin(a: seq<Raw>, b: seq<Raw>)
    ensures BareRaws(a + b) == BareRaws(a) + BareRaws(b)
  {
    hide BareRaw;
  }

  lemma BareTerminated(toks: seq<Token>)
    ensures Terminated(BareTokens(toks)) <==> Terminated(toks)
  {
    if Terminated(BareTokens(toks)) {
      forall i | 0 <= i < |toks| - 1 ensures toks[i].kind != End { assert BareTokens(toks)[i].kind != End; }
    }
  }

  lemma {:induction false} BareExpr(toks: seq<Token>, pos: nat)
    requires Terminated(toks) && Terminated(BareTokens(toks)) && pos < |toks|
    ensures ParseExpr(BareTokens(toks), pos) == BareParsed(ParseExpr(toks, pos))
    decreases |toks| - pos, 0
  {
    hide ParseList;
    var t := toks[pos];
    if t.kind == LParen { BareList(toks, pos + 1, t.span, t.span, []); }
  }

  lemma {:induction false} BareList(toks: seq<Token>, pos: nat, open: Span, span: Span, kids: seq<Raw>)
    requires Terminated(toks) && Terminated(BareTokens(toks)) && pos < |toks|
    ensures ParseList(BareTokens(toks), pos, NO_SPAN, NO_SPAN, BareRaws(kids)) == BareParsed(ParseList(toks, pos, open, span, kids))
    decreases |toks| - pos, 1
  {
    hide ParseExpr;
    var t := toks[pos];
    if t.kind != RParen && t.kind != End {
      BareExpr(toks, pos);
      var r := ParseExpr(toks, pos);
      if r.expr.Some? {
        var child := r.expr.value;
        BareList(toks, r.pos, open, Join(span, child.span), kids + [child]);
        BareRawsJoin(kids, [child]);
        assert BareRaws([child]) == [BareRaw(child)];
        assert BareRaw(child).span == NO_SPAN;
        BareDiagsJoin(r.diags, ParseList(toks, r.pos, open, Join(span, child.span), kids + [child]).diags);
      }
    }
  }

  lemma {:induction false} BareProgram(toks: seq<Token>, pos: nat)
    requires Terminated(toks) && Terminated(BareTokens(toks)) && pos < |toks|
    ensures ParseFrom(BareTokens(toks), pos).exprs == BareRaws(ParseFrom(toks, pos).exprs)
    decreases |toks| - pos
  {
    hide ParseExpr, BareRaw;
    if toks[pos].kind != End {
      BareExpr(toks, pos);
      var r := ParseExpr(toks, pos);
      BareProgram(toks, r.pos);
      if r.expr.Some? {
        BareRawsJoin([r.expr.value], ParseFrom(toks, r.pos).exprs);
        assert BareRaws([r.expr.value]) == [BareRaw(r.expr.value)];
      } else {
        assert [] + ParseFrom(toks, r.pos).exprs == ParseFrom(toks, r.pos).exprs;
      }
    }
  }

  // ---- the compiler ------------------------------------------------------------------------------------

  function BareForm(f: Form): Form {
    match f
    case Reject(diag) => Reject(diag.(span := NO_SPAN))
    case Accept(kind, op, a, b, c, params, diags) => Accept(kind, op, a, b, c, params, BareDiags(diags))
  }

  lemma BareSlice(es: seq<Raw>, i: nat, j: nat)
    requires i <= j <= |es|
    ensures BareRaws(es[i..j]) == BareRaws(es)[i..j]
  {
    hide BareRaw;
  }

  lemma BareHead(e: Raw)
    ensures var b := BareRaw(e);
            && (b.List? <==> e.List?) && (b.Sym? <==> e.Sym?) && b.span == NO_SPAN
            && (e.List? ==> b.list == BareRaws(e.list)) && (e.Sym? ==> b.symbol == e.symbol) && (e.Int? ==> b.value == e.value)
            && (IsForm(b) <==> IsForm(e))
  {
  }

  lemma {:induction false} BareParams(ps: seq<Raw>)
    ensures ParamsOf(BareRaws(ps)) == ParamsOf(ps) && ParamProblems(BareRaws(ps)) == BareDiags(ParamProblems(ps))
  {
    hide IsReserved, BareRaw;
    if ps != [] {
      var init, p := ps[..|ps| - 1], ps[|ps| - 1];
      BareParams(init);
      BareHead(p);
      assert BareRaws(ps)[..|ps| - 1] == BareRaws(init);
      BareDiagsJoin(ParamProblems(init), if !p.Sym? then [Diagnostic(p.span, ParameterName)]
                                         else if IsReserved(p.symbol) then [Diagnostic(p.span, ReservedName)] else []);
    }
  }

  lemma BareCommandProblems(kind: Kind, list: seq<Raw>)
    requires |list| == CommandArity(kind) + 1
    ensures CommandProblems(kind, BareRaws(list)) == BareDiags(CommandProblems(kind, list))
  {
    hide BareRaw, OutOfRange, BareDiags;
    match kind
    case Drive | Backward =>
      BareOutOfRange(list[1], 0, 100, SpeedLiteral);
      BareOutOfRange(list[2], 0, 10000, DurationLiteral);
      BareDiagsJoin(OutOfRange(list[1], 0, 100, SpeedLiteral), OutOfRange(list[2], 0, 10000, DurationLiteral));
    case TurnLeft | TurnRight => BareOutOfRange(list[1], 0, 3600, DegreesLiteral);
    case Wait => BareOutOfRange(list[1], 0, 10000, DurationLiteral);
    case _ => NoBareDiags();
  }

  lemma NoBareDiags()
    ensures BareDiags([]) == []
  {
  }

  lemma BareOutOfRange(e: Raw, lo: int, hi: int, problem: Problem)
    ensures OutOfRange(BareRaw(e), lo, hi, problem) == BareDiags(OutOfRange(e, lo, hi, problem))
  {
    hide BareRaw;
    BareHead(e);
  }

  lemma BareDefine(raw: Raw, top: bool)
    requires IsForm(raw) && IsForm(BareRaw(raw))
    ensures AnalyzeDefine(BareRaw(raw), top) == BareForm(AnalyzeDefine(raw, top))
  {
    hide IsReserved, IsBuiltinName, BareRaw, ParamsOf, ParamProblems;
    BareHead(raw);
    if |raw.list| > 1 {
      var target := raw.list[1];
      BareHead(target);
      if target.List? && target.list != [] {
        BareHead(target.list[0]);
        BareParams(target.list[1..]);
        BareSlice(target.list, 1, |target.list|);
        assert BareRaws(target.list)[1..] == BareRaws(target.list[1..]);
      }
    }
  }

  lemma BareAnalyze(raw: Raw, arity: Arity, top: bool)
    requires IsForm(raw) && IsForm(BareRaw(raw))
    ensures Analyze(BareRaw(raw), arity, top) == BareForm(Analyze(raw, arity, top))
  {
    hide IsReserved, BareRaw, AnalyzeDefine, CommandProblems, CommandKind, SensorKind, OperatorKind, OperatorArity, CommandArity,
         IsCommandName, IsSensorName, IsComparison, IsBooleanOp, IsArithmetic;
    BareHead(raw);
    BareHead(raw.list[0]);
    BareDefine(raw, top);
    if |raw.list| > 1 { BareHead(raw.list[1]); }
    var op := raw.list[0].symbol;
    if IsCommandName(op) && |raw.list| == CommandArity(CommandKind(op)) + 1 { BareCommandProblems(CommandKind(op), raw.list); }
  }

  function BareCompiled(r: Compiled): Compiled { Compiled(BareNodeOption(r.node), BareDiags(r.diags)) }

  function BareListing(l: Listing): Listing { Listing(BareNodes(l.nodes), BareDiags(l.diags)) }

  lemma BareAtom(raw: Raw)
    requires !raw.List?
    ensures CompileAtom(BareRaw(raw)) == BareNode(CompileAtom(raw))
  {
  }

  lemma BareNodesJoin(a: seq<Node>, b: seq<Node>)
    ensures BareNodes(a + b) == BareNodes(a) + BareNodes(b)
  {
    hide BareNode;
  }

  lemma {:induction false} BareCompile(raw: Raw, arity: Arity, top: bool)
    ensures CompileExpr(BareRaw(raw), arity, top) == BareCompiled(CompileExpr(raw, arity, top))
    decreases raw, 2, 0
  {
    hide Analyze, BareRaw, CompileRange, BareNode, CompileAtom;
    BareHead(raw);
    if !raw.List? {
      BareAtom(raw);
    } else if raw.list != [] {
      BareHead(raw.list[0]);
      if IsForm(raw) {
        BareAnalyze(raw, arity, top);
        var f := Analyze(raw, arity, top);
        if f.Accept? { BareAccepted(raw, arity, top); }
      }
    }
  }

  lemma {:induction false} BareAccepted(raw: Raw, arity: Arity, top: bool)
    requires IsForm(raw) && Analyze(raw, arity, top).Accept?
    ensures CompileExpr(BareRaw(raw), arity, top) == BareCompiled(CompileExpr(raw, arity, top))
    decreases raw, 1, |raw.list| + 1
  {
    hide Analyze, BareRaw, CompileRange, CompileExpr;
    BareHead(raw);
    BareHead(raw.list[0]);
    BareAnalyze(raw, arity, top);
    var f := Analyze(raw, arity, top);
    CompileForms(raw, arity, top);
    CompileForms(BareRaw(raw), arity, top);
    BareRange(raw, f.a, f.b, arity);
    BareRange(raw, f.c, |raw.list|, arity);
    var args, children := CompileRange(raw, f.a, f.b, arity), CompileRange(raw, f.c, |raw.list|, arity);
    BareDiagsJoin(f.diags, args.diags);
    BareDiagsJoin(f.diags + args.diags, children.diags);
  }

  lemma {:induction false} BareRange(raw: Raw, i: nat, j: nat, arity: Arity)
    requires raw.List? && BareRaw(raw).List? && BareRaw(raw).list == BareRaws(raw.list) && i <= j <= |raw.list|
    ensures CompileRange(BareRaw(raw), i, j, arity) == BareListing(CompileRange(raw, i, j, arity))
    decreases raw, 1, j - i
  {
    hide BareRaw, CompileExpr, BareNode;
    if i < j {
      BareCompile(raw.list[i], arity, false);
      BareRange(raw, i + 1, j, arity);
      BareCons(CompileExpr(raw.list[i], arity, false), CompileRange(raw, i + 1, j, arity));
    }
  }

  /** The listing of one more expression in front. */
  function Cons(first: Compiled, rest: Listing): Listing {
    Listing((if first.node.Some? then [first.node.value] else []) + rest.nodes, first.diags + rest.diags)
  }

  lemma BareCons(first: Compiled, rest: Listing)
    ensures Cons(BareCompiled(first), BareListing(rest)) == BareListing(Cons(first, rest))
  {
    hide BareNode;
    BareDiagsJoin(first.diags, rest.diags);
    if first.node.Some? {
      BareNodesJoin([first.node.value], rest.nodes);
      assert BareNodes([first.node.value]) == [BareNode(first.node.value)];
    } else {
      assert [] + rest.nodes == rest.nodes && [] + BareNodes(rest.nodes) == BareNodes(rest.nodes);
    }
  }

  lemma {:induction false} BareTops(tops: seq<Raw>, arity: Arity)
    ensures CompileTops(BareRaws(tops), arity) == BareListing(CompileTops(tops, arity))
  {
    hide BareRaw, CompileExpr, BareNode;
    if tops != [] {
      BareCompile(tops[0], arity, true);
      BareTops(tops[1..], arity);
      BareSlice(tops, 1, |tops|);
      assert BareRaws(tops)[1..] == BareRaws(tops[1..]);
      BareCons(CompileExpr(tops[0], arity, true), CompileTops(tops[1..], arity));
    }
  }

  lemma BareSignature(e: Raw)
    ensures IsSignature(BareRaw(e)) <==> IsSignature(e)
    ensures IsSignature(e) ==>
              && BareRaw(e).list[1].list[0].symbol == e.list[1].list[0].symbol
              && |BareRaw(e).list[1].list| == |e.list[1].list|
  {
    hide BareRaw;
    BareHead(e);
    if e.List? && e.list != [] { BareHead(e.list[0]); }
    if e.List? && |e.list| > 1 {
      BareHead(e.list[1]);
      if e.list[1].List? && e.list[1].list != [] { BareHead(e.list[1].list[0]); }
    }
  }

  lemma {:induction false} BareCollect(tops: seq<Raw>, i: nat)
    requires i <= |tops|
    ensures CollectUpTo(BareRaws(tops), i).arity == CollectUpTo(tops, i).arity
  {
    hide BareRaw, IsSignature;
    if i > 0 {
      BareCollect(tops, i - 1);
      BareSignature(tops[i - 1]);
    }
  }

  lemma {:induction false} BareNumber(n: Node, next: nat)
    ensures Number(BareNode(n), next) == (BareNode(Number(n, next).0), Number(n, next).1)
    decreases n, 1
  {
    hide Highlightable;
    var k := if Highlightable(n.kind) then next + 1 else next;
    BareNumberAll(n.args, k);
    BareNumberAll(n.children, NumberAll(n.args, k).1);
  }

  lemma {:induction false} BareNumberAll(ns: seq<Node>, next: nat)
    ensures NumberAll(BareNodes(ns), next) == (BareNodes(NumberAll(ns, next).0), NumberAll(ns, next).1)
    decreases ns, 0
  {
    hide BareNode, Number;
    if ns != [] {
      var (first, k) := Number(ns[0], next);
      var (rest, k') := NumberAll(ns[1..], k);
      BareNumber(ns[0], next);
      BareNumberAll(ns[1..], k);
      assert BareNodes(ns)[1..] == BareNodes(ns[1..]);
      BareNodesJoin([first], rest);
      assert BareNodes([first]) == [BareNode(first)];
    }
  }

  // ---- the theorem -----------------------------------------------------------------------------------------

  function RootFrom(exprs: seq<Raw>): Option<Node> { CompileProgram(Program(exprs, [])).root }

  lemma {:induction false} BareRoot(exprs: seq<Raw>)
    ensures RootFrom(BareRaws(exprs)) == BareNodeOption(RootFrom(exprs))
  {
    hide BareRaw, BareNode, CompileTops, CollectUpTo, Number;
    if exprs != [] {
      BareHead(exprs[0]);
      if exprs[0].List? && exprs[0].list != [] { BareHead(exprs[0].list[0]); }
      BareHead(exprs[|exprs| - 1]);
      var tops := TopsOf(exprs);
      if IsSingleDo(exprs) { BareSlice(exprs[0].list, 1, |exprs[0].list|); }
      assert TopsOf(BareRaws(exprs)) == BareRaws(tops);
      BareCollect(tops, |tops|);
      var arity := CollectUpTo(tops, |tops|).arity;
      BareTops(tops, arity);
      var nodes := CompileTops(tops, arity).nodes;
      BareRootOf(exprs, nodes);
      if RootOf(exprs, nodes).Some? { BareNumber(RootOf(exprs, nodes).value, 0); }
    }
  }

  lemma BareRootOf(exprs: seq<Raw>, nodes: seq<Node>)
    requires exprs != [] && BareRaws(exprs) != []
    requires IsSingleDo(BareRaws(exprs)) <==> IsSingleDo(exprs)
    ensures RootOf(BareRaws(exprs), BareNodes(nodes)) == BareNodeOption(RootOf(exprs, nodes))
  {
    hide BareRaw, IsSingleDo;
    BareHead(exprs[0]);
    BareHead(exprs[|exprs| - 1]);
    if |exprs| == 1 && !IsSingleDo(exprs) {
    } else {
      var root := RootOf(exprs, nodes).value;
      assert BareNode(root) == root.(span := NO_SPAN, args := [], children := BareNodes(nodes));
    }
  }

  /** Sources with equal tokens apart from spans compile to trees that are equal apart from
      spans, identifiers included. */
  lemma {:induction false} LayoutDoesNotMatter(src: string, src': string)
    requires BareTokens(Lex(src).tokens) == BareTokens(Lex(src').tokens)
    ensures BareNodeOption(Compile(src).root) == BareNodeOption(Compile(src').root)
  {
    BareSource(src);
    BareSource(src');
  }

  /** The compiled tree without its spans is a function of the tokens without theirs. */
  lemma {:induction false} BareSource(src: string)
    ensures Terminated(BareTokens(Lex(src).tokens))
    ensures BareNodeOption(Compile(src).root) == RootFrom(ParseFrom(BareTokens(Lex(src).tokens), 0).exprs)
  {
    hide ParseFrom, BareRaw, BareNode, CompileTops, CollectUpTo, Number, RootOf, TopsOf;
    LexIsTerminated(src, 0);
    var toks := Lex(src).tokens;
    BareTerminated(toks);
    BareProgram(toks, 0);
    BareRoot(ParseFrom(toks, 0).exprs);
  }
}
