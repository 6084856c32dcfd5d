// Compilation loses nothing: a null result comes with an error, and a clean one reads back
// as the very expressions it was made from (src/compiler.cpp:91-358).

module Lossless {
  import opened Ast
  import opened Source
  import opened Parser
  import opened Names
  import opened Compiler

  /** An expression without its place in the source. */
  datatype Sexp = SSym(name: string) | SInt(value: int) | SList(items: seq<Sexp>)

  function Strip(raw: Raw): Sexp
    decreases raw, 1
  {
    match raw
    case Sym(_, symbol) => SSym(symbol)
    case Int(_, value) => SInt(value)
    case List(_, list) => SList(StripAll(list))
  }

  function StripAll(raws: seq<Raw>): (r: seq<Sexp>)
    ensures |r| == |raws|
    decreases raws, 0
  {
    seq(|raws|, i requires 0 <= i < |raws| => Strip(raws[i]))
  }

  /** The expression a node stands for, from its kind and contents: a fixed form by the word of
      its kind, a literal by its value. */
  function ReadBack(n: Node): Sexp
    decreases n, 1
  {
    match n.kind
    case IntegerLiteral => SInt(if n.nums == [] then 0 else n.nums[0])
    case BooleanLiteral => SSym(if n.nums != [] && n.nums[0] != 0 then "true" else "false")
    case ColorLiteral => SSym(if n.nums != [] && 0 <= n.nums[0] < |COLORS| then COLORS[n.nums[0]] else "off")
    case VarRef => SSym(n.op)
    case DefineFunc => SList([SSym("define"), SList([SSym(n.op)] + Symbols(n.params))] + ReadBackAll(n.children))
    case DefineVar | SetVar => SList([SSym(KindName(n.kind)), SSym(n.op)] + ReadBackAll(n.args))
    case Call | Compare | BooleanOp | Arithmetic => SList([SSym(n.op)] + ReadBackAll(n.args))
    case _ => SList([SSym(KindName(n.kind))] + ReadBackAll(n.args) + ReadBackAll(n.children))
  }

  function ReadBackAll(ns: seq<Node>): (r: seq<Sexp>)
    ensures |r| == |ns|
    decreases ns, 0
  {
    seq(|ns|, i requires 0 <= i < |ns| => ReadBack(ns[i]))
  }

  function Symbols(names: seq<string>): seq<Sexp> {
    seq(|names|, i requires 0 <= i < |names| => SSym(names[i]))
  }

  // ---- one form -----------------------------------------------------------------------------------

  lemma {:induction false} ParamsRead(ps: seq<Raw>)
    requires ParamProblems(ps) == []
    ensures Symbols(ParamsOf(ps)) == StripAll(ps)
  {
    hide IsReserved;
    if ps != [] {
      var init, p := ps[..|ps| - 1], ps[|ps| - 1];
      assert |ParamProblems(ps)| >= |ParamProblems(init)|;
      ParamsRead(init);
      assert ParamsOf(ps) == ParamsOf(init) + [p.symbol];
      assert StripAll(ps) == StripAll(init) + [Strip(p)];
    }
  }

  lemma AtomReads(raw: Raw)
    requires !raw.List?
    ensures ReadBack(CompileAtom(raw)) == Strip(raw)
  {
  }

  /** The node's parts read back as the list's elements. */
  ghost predicate Parts(raw: Raw, f: Form, args: seq<Node>, children: seq<Node>)
    requires raw.List? && f.Accept?
  {
    && f.a <= f.b <= |raw.list| && f.c <= |raw.list|
    && ReadBackAll(args) == StripAll(raw.list[f.a..f.b])
    && ReadBackAll(children) == StripAll(raw.list[f.c..])
  }

  function NodeOf(raw: Raw, f: Form, args: seq<Node>, children: seq<Node>): Node
    requires f.Accept?
  {
    Node(0, f.kind, raw.span, f.op, args, children, [], f.params)
  }

  /** Nodes whose word is their own op and which have no body. */
  predicate IsApplication(kind: Kind) {
    kind == Call || kind == Compare || kind == BooleanOp || kind == Arithmetic
  }

  predicate IsFixed(kind: Kind) {
    KindName(kind) != "" && kind != DefineVar && kind != DefineFunc && kind != SetVar
  }

  lemma CommandWords(op: string)
    ensures IsCommandName(op) ==> KindName(CommandKind(op)) == op && IsFixed(CommandKind(op))
    ensures IsSensorName(op) ==> KindName(SensorKind(op)) == op && IsFixed(SensorKind(op))
  {
  }

  lemma ReadsAsWord(n: Node)
    ensures IsFixed(n.kind) ==> ReadBack(n) == SList([SSym(KindName(n.kind))] + ReadBackAll(n.args) + ReadBackAll(n.children))
    ensures IsApplication(n.kind) ==> ReadBack(n) == SList([SSym(n.op)] + ReadBackAll(n.args))
  {
  }

  /** An accepted form other than a definition or set! is its head followed by all its parts,
      under the word of its kind or as an application of its op. */
  lemma PlainForm(raw: Raw, arity: Arity, top: bool)
    requires IsForm(raw) && Analyze(raw, arity, top).Accept?
    requires raw.list[0].symbol != "define" && raw.list[0].symbol != "set!"
    ensures var f, op := Analyze(raw, arity, top), raw.list[0].symbol;
            && f.a == 1 && f.b == f.c && f.op == op
            && (if IsApplication(f.kind) then f.c == |raw.list| else IsFixed(f.kind) && KindName(f.kind) == op)
  {
    hide CommandProblems, OperatorArity, CommandKind, SensorKind, CommandArity, IsCommandName, IsSensorName,
         IsComparison, IsBooleanOp, IsArithmetic;
    CommandWords(raw.list[0].symbol);
  }

  lemma {:induction false} FormReads(raw: Raw, arity: Arity, top: bool, args: seq<Node>, children: seq<Node>)
    requires IsForm(raw) && Analyze(raw, arity, top).Accept? && Analyze(raw, arity, top).diags == []
    requires Parts(raw, Analyze(raw, arity, top), args, children)
    ensures ReadBack(NodeOf(raw, Analyze(raw, arity, top), args, children)) == Strip(raw)
  {
    hide Analyze, ReadBack, KindName, Strip;
    var op := raw.list[0].symbol;
    if op == "define" {
      DefineReads(raw, arity, top, args, children);
    } else if op == "set!" {
      SetReads(raw, arity, top, args, children);
    } else {
      PlainForm(raw, arity, top);
      PlainReads(raw, Analyze(raw, arity, top), args, children);
    }
  }

  lemma {:induction false} PlainReads(raw: Raw, f: Form, args: seq<Node>, children: seq<Node>)
    requires IsForm(raw) && f.Accept? && Parts(raw, f, args, children)
    requires f.a == 1 && f.b == f.c && f.op == raw.list[0].symbol
    requires if IsApplication(f.kind) then f.c == |raw.list| else IsFixed(f.kind) && KindName(f.kind) == f.op
    ensures ReadBack(NodeOf(raw, f, args, children)) == Strip(raw)
  {
    hide ReadBack, KindName, IsFixed, IsApplication, ReadBackAll;
    ReadsAsWord(NodeOf(raw, f, args, children));
    StripsInParts(raw.list, f.b);
    if f.c == |raw.list| { assert StripAll(raw.list[f.c..]) == []; }
  }

  /** A form is its head, the elements up to `b`, and the others. */
  lemma StripsInParts(list: seq<Raw>, b: nat)
    requires 1 <= b <= |list|
    ensures StripAll(list) == [Strip(list[0])] + StripAll(list[1..b]) + StripAll(list[b..])
  {
    hide *;
    StripsSlice(list, 1, b);
    StripsSlice(list, b, |list|);
    assert list[b..|list|] == list[b..];
    StripsAt(list, 0);
    Pieces(StripAll(list), b);
  }

  lemma Pieces(s: seq<Sexp>, b: nat)
    requires 1 <= b <= |s|
    ensures s == [s[0]] + s[1..b] + s[b..]
  {
  }

  lemma StripsAt(list: seq<Raw>, i: nat)
    requires i < |list|
    ensures StripAll(list)[i] == Strip(list[i])
  {
    hide Strip;
  }

  lemma StripsSlice(list: seq<Raw>, i: nat, j: nat)
    requires i <= j <= |list|
    ensures StripAll(list[i..j]) == StripAll(list)[i..j]
  {
    hide *;
    forall k | 0 <= k < j - i ensures StripAll(list[i..j])[k] == StripAll(list)[i + k] {
      StripsAt(list[i..j], k);
      StripsAt(list, i + k);
    }
  }

  lemma {:induction false} DefineReads(raw: Raw, arity: Arity, top: bool, args: seq<Node>, children: seq<Node>)
    requires IsForm(raw) && raw.list[0].symbol == "define"
    requires Analyze(raw, arity, top).Accept? && Analyze(raw, arity, top).diags == []
    requires Parts(raw, Analyze(raw, arity, top), args, children)
    ensures ReadBack(NodeOf(raw, Analyze(raw, arity, top), args, children)) == Strip(raw)
  {
    hide IsBuiltinName, IsReserved;
    var f, target := Analyze(raw, arity, top), raw.list[1];
    if target.List? {
      ParamsRead(target.list[1..]);
      assert StripAll(target.list) == [SSym(f.op)] + StripAll(target.list[1..]);
      assert StripAll(raw.list) == [SSym("define"), Strip(target)] + StripAll(raw.list[2..]);
    } else {
      assert StripAll(raw.list) == [SSym("define"), SSym(f.op)] + StripAll(raw.list[2..3]);
    }
  }

  lemma {:induction false} SetReads(raw: Raw, arity: Arity, top: bool, args: seq<Node>, children: seq<Node>)
    requires IsForm(raw) && raw.list[0].symbol == "set!"
    requires Analyze(raw, arity, top).Accept? && Analyze(raw, arity, top).diags == []
    requires Parts(raw, Analyze(raw, arity, top), args, children)
    ensures ReadBack(NodeOf(raw, Analyze(raw, arity, top), args, children)) == Strip(raw)
  {
    hide IsReserved;
    var f := Analyze(raw, arity, top);
    assert StripAll(raw.list) == [SSym("set!"), SSym(f.op)] + StripAll(raw.list[2..3]);
  }

  // ---- all expressions -----------------------------------------------------------------------------

  /** A null result has reported an error; a clean result reads back as its source. */
  lemma {:induction false} ExprReads(raw: Raw, arity: Arity, top: bool)
    ensures var r := CompileExpr(raw, arity, top);
            && (r.node.None? ==> r.diags != [])
            && (r.diags == [] ==> r.node.Some? && ReadBack(r.node.value) == Strip(raw))
    decreases raw, 2, 0
  {
    hide Analyze, ReadBack, Strip;
    if !raw.List? {
      AtomReads(raw);
    } else if IsForm(raw) && Analyze(raw, arity, top).Accept? {
      var f := Analyze(raw, arity, top);
      CompileForms(raw, arity, top);
      RangeReads(raw, f.a, f.b, arity);
      RangeReads(raw, f.c, |raw.list|, arity);
      var args, children := CompileRange(raw, f.a, f.b, arity), CompileRange(raw, f.c, |raw.list|, arity);
      NoDiags(f.diags, args.diags, children.diags);
      if f.diags == [] && args.diags == [] && children.diags == [] {
        assert raw.list[f.c..|raw.list|] == raw.list[f.c..];
        FormReads(raw, arity, top, args.nodes, children.nodes);
      }
    }
  }

  lemma NoDiags(a: seq<Diagnostic>, b: seq<Diagnostic>, c: seq<Diagnostic>)
    ensures a + b + c == [] <==> a == [] && b == [] && c == []
  {
    assert |a + b + c| == |a| + |b| + |c|;
  }

  lemma {:induction false} RangeReads(raw: Raw, i: nat, j: nat, arity: Arity)
    requires raw.List? && i <= j <= |raw.list|
    ensures var r := CompileRange(raw, i, j, arity);
            && |r.nodes| <= j - i && (|r.nodes| < j - i ==> r.diags != [])
            && (r.diags == [] ==> |r.nodes| == j - i && ReadBackAll(r.nodes) == StripAll(raw.list[i..j]))
    decreases raw, 1, j - i
  {
    hide CompileExpr, ReadBack, Strip;
    if i < j {
      ExprReads(raw.list[i], arity, false);
      RangeReads(raw, i + 1, j, arity);
      var first, rest := CompileExpr(raw.list[i], arity, false), CompileRange(raw, i + 1, j, arity);
      NoDiags([], first.diags, rest.diags);
      assert [] + first.diags == first.diags;
      if first.diags == [] && rest.diags == [] {
        assert StripAll(raw.list[i..j]) == [Strip(raw.list[i])] + StripAll(raw.list[i + 1..j]);
        assert ReadBackAll([first.node.value] + rest.nodes) == [ReadBack(first.node.value)] + ReadBackAll(rest.nodes);
      }
    }
  }
}
