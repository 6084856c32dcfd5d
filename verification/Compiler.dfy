// The compiler of src/compiler.cpp: what each form must look like and what it becomes, and
// the compile_* functions proved to compute it, with the diagnostics in the order they appear.

module Compiler {
  import opened Ast
  import opened Source
  import opened Parser
  import opened Names
  import opened Options

  type Arity = map<string, nat>

  /** What a list form turns into: rejected with a problem, or a node of the given kind whose
      arguments are the list's elements from `a` up to `b`, and its children those from `c` on. */
  datatype Form =
    | Reject(diag: Diagnostic)
    | Accept(kind: Kind, op: string, a: nat, b: nat, c: nat, params: seq<string>, diags: seq<Diagnostic>)

  function OutOfRange(e: Raw, lo: int, hi: int, problem: Problem): seq<Diagnostic> {
    if e.Int? && (e.value < lo || e.value > hi) then [Diagnostic(e.span, problem)] else []
  }

  function CommandKind(op: string): Kind {
    if op == "drive" then Drive
    else if op == "backward" then Backward
    else if op == "turn-left" then TurnLeft
    else if op == "turn-right" then TurnRight
    else if op == "wait" then Wait
    else if op == "light" then Light
    else if op == "stop" then Stop
    else Beep
  }

  function CommandArity(kind: Kind): nat {
    match kind
    case Drive | Backward => 2
    case TurnLeft | TurnRight | Wait | Light => 1
    case _ => 0
  }

  function SensorKind(op: string): Kind {
    if op == "distance-cm" then DistanceCm
    else if op == "button" then Button
    else if op == "line-left" then LineLeft
    else LineRight
  }

  function ParamsOf(ps: seq<Raw>): seq<string> {
    if ps == [] then []
    else
      var p := ps[|ps| - 1];
      ParamsOf(ps[..|ps| - 1]) + if p.Sym? && !IsReserved(p.symbol) then [p.symbol] else []
  }

  function ParamProblems(ps: seq<Raw>): seq<Diagnostic> {
    if ps == [] then []
    else
      var p := ps[|ps| - 1];
      ParamProblems(ps[..|ps| - 1]) +
      if !p.Sym? then [Diagnostic(p.span, ParameterName)]
      else if IsReserved(p.symbol) then [Diagnostic(p.span, ReservedName)]
      else []
  }

  predicate IsForm(raw: Raw) {
    raw.List? && raw.list != [] && raw.list[0].Sym?
  }

  function AnalyzeDefine(raw: Raw, top: bool): Form
    requires IsForm(raw)
  {
    var argc := |raw.list| - 1;
    if argc < 1 then Reject(Diagnostic(raw.span, WrongArgumentCount))
    else
      var target := raw.list[1];
      if target.List? then
        if !top then Reject(Diagnostic(raw.span, NestedFunction))
        else if !IsForm(target) then Reject(Diagnostic(target.span, FunctionName))
        else if IsBuiltinName(target.list[0].symbol) then Reject(Diagnostic(target.list[0].span, BuiltinName))
        else
          Accept(DefineFunc, target.list[0].symbol, 1, 1, 2, ParamsOf(target.list[1..]), ParamProblems(target.list[1..]))
      else if !target.Sym? then Reject(Diagnostic(target.span, ExpectedName))
      else if argc != 2 then Reject(Diagnostic(raw.span, WrongArgumentCount))
      else if IsReserved(target.symbol) then Reject(Diagnostic(target.span, ReservedName))
      else Accept(DefineVar, target.symbol, 2, 3, 3, [], [])
  }

  function CommandProblems(kind: Kind, list: seq<Raw>): seq<Diagnostic>
    requires |list| == CommandArity(kind) + 1
  {
    match kind
    case Drive | Backward => OutOfRange(list[1], 0, 100, SpeedLiteral) + OutOfRange(list[2], 0, 10000, DurationLiteral)
    case TurnLeft | TurnRight => OutOfRange(list[1], 0, 3600, DegreesLiteral)
    case Wait => OutOfRange(list[1], 0, 10000, DurationLiteral)
    case _ => []
  }

  /** How many arguments an operator may have. */
  predicate OperatorArity(op: string, argc: nat) {
    if IsComparison(op) || op == "-" || op == "/" then argc == 2
    else if op == "not" then argc == 1
    else argc >= 2
  }

  function OperatorKind(op: string): Kind {
    if IsComparison(op) then Compare else if IsArithmetic(op) then Arithmetic else BooleanOp
  }

  function Analyze(raw: Raw, arity: Arity, top: bool): (f: Form)
    requires IsForm(raw)
  {
    var op, argc, n := raw.list[0].symbol, |raw.list| - 1, |raw.list|;
    var miscounted := Reject(Diagnostic(raw.span, WrongArgumentCount));
    if op == "do" then Accept(Do, op, 1, 1, 1, [], [])
    else if op == "repeat" then
      if argc < 1 then miscounted
      else Accept(Repeat, op, 1, 2, 2, [], OutOfRange(raw.list[1], 0, 100, RepeatLiteral))
    else if op == "when" then
      if argc < 1 then miscounted else Accept(When, op, 1, 2, 2, [], [])
    else if op == "if" then
      if argc != 3 then miscounted else Accept(If, op, 1, 4, 4, [], [])
    else if op == "while" then
      if argc < 1 then miscounted else Accept(While, op, 1, 2, 2, [], [])
    else if op == "define" then AnalyzeDefine(raw, top)
    else if op == "set!" then
      if argc != 2 || !raw.list[1].Sym? then Reject(Diagnostic(raw.span, ExpectedName))
      else if IsReserved(raw.list[1].symbol) then Reject(Diagnostic(raw.list[1].span, ReservedName))
      else Accept(SetVar, raw.list[1].symbol, 2, 3, 3, [], [])
    else if IsCommandName(op) then
      var kind := CommandKind(op);
      if argc != CommandArity(kind) then miscounted
      else Accept(kind, op, 1, n, n, [], CommandProblems(kind, raw.list))
    else if IsSensorName(op) then
      if argc != 0 then miscounted else Accept(SensorKind(op), op, 1, 1, 1, [], [])
    else if IsComparison(op) || IsBooleanOp(op) || IsArithmetic(op) then
      if !OperatorArity(op, argc) then miscounted else Accept(OperatorKind(op), op, 1, n, n, [], [])
    else if op !in arity then Reject(Diagnostic(raw.list[0].span, UnknownFunction))
    else if argc != arity[op] then miscounted
    else Accept(Call, op, 1, n, n, [], [])
  }

  datatype Compiled = Compiled(node: Option<Node>, diags: seq<Diagnostic>)

  /** The nodes of the expressions that compiled, in order. */
  datatype Listing = Listing(nodes: seq<Node>, diags: seq<Diagnostic>)

  function CompileAtom(raw: Raw): Node
    requires !raw.List?
  {
    match raw
    case Int(span, value) => Node(0, IntegerLiteral, span, "", [], [], [value], [])
    case Sym(span, symbol) =>
      if symbol == "true" || symbol == "false" then
        Node(0, BooleanLiteral, span, symbol, [], [], [if symbol == "true" then 1 else 0], [])
      else if IsColor(symbol) then Node(0, ColorLiteral, span, symbol, [], [], [ColorCode(symbol)], [])
      else Node(0, VarRef, span, symbol, [], [], [], [])
  }

  function CompileExpr(raw: Raw, arity: Arity, top: bool): Compiled
    decreases raw, 2, 0
  {
    if !raw.List? then Compiled(Some(CompileAtom(raw)), [])
    else if raw.list == [] then Compiled(None, [Diagnostic(raw.span, EmptyList)])
    else if !raw.list[0].Sym? then Compiled(None, [Diagnostic(raw.list[0].span, ExpectedOperation)])
    else
      match Analyze(raw, arity, top)
      case Reject(diag) => Compiled(None, [diag])
      case Accept(kind, op, a, b, c, params, diags) =>
        AcceptedRanges(raw, arity, top);
        var args := CompileRange(raw, a, b, arity);
        var children := CompileRange(raw, c, |raw.list|, arity);
        Compiled(if |args.nodes| == b - a then Some(Node(0, kind, raw.span, op, args.nodes, children.nodes, [], params)) else None,
                 diags + args.diags + children.diags)
  }

  lemma AcceptedRanges(raw: Raw, arity: Arity, top: bool)
    requires IsForm(raw) && Analyze(raw, arity, top).Accept?
    ensures var f := Analyze(raw, arity, top); 1 <= f.a <= f.b <= |raw.list| && 1 <= f.c <= |raw.list|
  {
  }

  /** The elements of a list from `i` up to `j`, in value position. */
  function CompileRange(raw: Raw, i: nat, j: nat, arity: Arity): Listing
    requires raw.List? && i <= j <= |raw.list|
    decreases raw, 1, j - i
  {
    if i == j then Listing([], [])
    else
      var first := CompileExpr(raw.list[i], arity, false);
      var rest := CompileRange(raw, i + 1, j, arity);
      Listing((if first.node.Some? then [first.node.value] else []) + rest.nodes, first.diags + rest.diags)
  }

  // ---- whole programs -----------------------------------------------------------------------------

  /** A top-level function definition: its name is `target.list[0]`. */
  predicate IsSignature(e: Raw) {
    IsForm(e) && |e.list| >= 2 && e.list[0].symbol == "define" && IsForm(e.list[1])
  }

  datatype Signatures = Signatures(arity: Arity, diags: seq<Diagnostic>)

  function CollectUpTo(tops: seq<Raw>, i: nat): Signatures
    requires i <= |tops|
  {
    if i == 0 then Signatures(map[], [])
    else
      var sofar := CollectUpTo(tops, i - 1);
      var e := tops[i - 1];
      if !IsSignature(e) then sofar
      else
        var name := e.list[1].list[0];
        if name.symbol in sofar.arity then sofar.(diags := sofar.diags + [Diagnostic(name.span, DuplicateFunction)])
        else sofar.(arity := sofar.arity[name.symbol := |e.list[1].list| - 1])
  }

  function CompileTops(tops: seq<Raw>, arity: Arity): Listing {
    if tops == [] then Listing([], [])
    else
      var first := CompileExpr(tops[0], arity, true);
      var rest := CompileTops(tops[1..], arity);
      Listing((if first.node.Some? then [first.node.value] else []) + rest.nodes, first.diags + rest.diags)
  }

  /** Identifiers in pre-order over the highlightable nodes, arguments before children. */
  function Number(n: Node, next: nat): (Node, nat)
    decreases n, 1
  {
    var id, k := if Highlightable(n.kind) then next else n.id, if Highlightable(n.kind) then next + 1 else next;
    var (args, k') := NumberAll(n.args, k);
    var (children, k'') := NumberAll(n.children, k');
    (n.(id := id, args := args, children := children), k'')
  }

  function NumberAll(ns: seq<Node>, next: nat): (seq<Node>, nat)
    decreases ns, 0
  {
    if ns == [] then ([], next)
    else
      var (first, k) := Number(ns[0], next);
      var (rest, k') := NumberAll(ns[1..], k);
      ([first] + rest, k')
  }

  datatype Result = Result(root: Option<Node>, diags: seq<Diagnostic>)

  predicate Ok(r: Result) { r.root.Some? && r.diags == [] }

  predicate IsSingleDo(exprs: seq<Raw>) {
    |exprs| == 1 && IsForm(exprs[0]) && exprs[0].list[0].symbol == "do"
  }

  /** A single explicit do is unwrapped so that its elements count as top level. */
  function TopsOf(exprs: seq<Raw>): seq<Raw> {
    if IsSingleDo(exprs) then exprs[0].list[1..] else exprs
  }

  function RootOf(exprs: seq<Raw>, nodes: seq<Node>): Option<Node>
    requires exprs != []
  {
    if |exprs| == 1 && !IsSingleDo(exprs) then (if nodes != [] then Some(nodes[0]) else None)
    else Some(Node(0, Do, Join(exprs[0].span, exprs[|exprs| - 1].span), "do", [], nodes, [], []))
  }

  function CompileProgram(p: Program): Result {
    if p.exprs == [] then Result(None, if p.diags == [] then [Diagnostic(NO_SPAN, EmptyProgram)] else p.diags)
    else
      var tops := TopsOf(p.exprs);
      var sigs := CollectUpTo(tops, |tops|);
      var listing := CompileTops(tops, sigs.arity);
      var root := RootOf(p.exprs, listing.nodes);
      Result(if root.Some? then Some(Number(root.value, 0).0) else None, p.diags + sigs.diags + listing.diags)
  }

  function Compile(src: string): Result { CompileProgram(Parse(src)) }

  // ---- the compiling functions ------------------------------------------------------------------------

  lemma CompileForms(raw: Raw, arity: Arity, top: bool)
    requires IsForm(raw) && Analyze(raw, arity, top).Accept?
    ensures var f := Analyze(raw, arity, top);
            && 1 <= f.a <= f.b <= |raw.list| && 1 <= f.c <= |raw.list|
            && CompileExpr(raw, arity, top) == Finish(raw, f, CompileRange(raw, f.a, f.b, arity), CompileRange(raw, f.c, |raw.list|, arity))
  {
    hide Analyze;
    AcceptedRanges(raw, arity, top);
  }

  /** The node of an accepted form, if all its arguments compiled. */
  function Finish(raw: Raw, f: Form, args: Listing, children: Listing): Compiled
    requires f.Accept? && f.a <= f.b
  {
    Compiled(if |args.nodes| == f.b - f.a then Some(Node(0, f.kind, raw.span, f.op, args.nodes, children.nodes, [], f.params)) else None,
             f.diags + args.diags + children.diags)
  }

  /** One element compiled, after `nodes` and `diags`. */
  lemma RangeStep(raw: Raw, k: nat, j: nat, arity: Arity, nodes: seq<Node>, diags: seq<Diagnostic>)
    requires raw.List? && k < j <= |raw.list|
    ensures var first := CompileExpr(raw.list[k], arity, false); var rest := CompileRange(raw, k + 1, j, arity);
            && nodes + CompileRange(raw, k, j, arity).nodes
               == (if first.node.Some? then nodes + [first.node.value] else nodes) + rest.nodes
            && diags + CompileRange(raw, k, j, arity).diags == diags + first.diags + rest.diags
  {
    hide CompileExpr;
  }

  lemma RangeEnds(raw: Raw, j: nat, arity: Arity)
    requires raw.List? && j <= |raw.list|
    ensures CompileRange(raw, j, j, arity) == Listing([], [])
  {
  }

  class Context {
    const arity: Arity
    var diags: seq<Diagnostic>

    constructor (arity: Arity, diags: seq<Diagnostic>)
      ensures this.arity == arity && this.diags == diags
    {
      this.arity, this.diags := arity, diags;
    }

    method Err(span: Span, problem: Problem)
      modifies this
      ensures diags == old(diags) + [Diagnostic(span, problem)]
    {
      diags := diags + [Diagnostic(span, problem)];
    }

    /** Compiles elements `i` to `j` of a list, keeping those that compile. */
    method CompileElements(raw: Raw, i: nat, j: nat) returns (nodes: seq<Node>)
      requires raw.List? && i <= j <= |raw.list|
      modifies this
      ensures nodes == CompileRange(raw, i, j, arity).nodes
      ensures diags == old(diags) + CompileRange(raw, i, j, arity).diags
      decreases raw, 1
    {
      hide CompileExpr, CompileRange;
      nodes := [];
      ghost var all := CompileRange(raw, i, j, arity);
      for k := i to j
        invariant nodes + CompileRange(raw, k, j, arity).nodes == all.nodes
        invariant diags + CompileRange(raw, k, j, arity).diags == old(diags) + all.diags
      {
        RangeStep(raw, k, j, arity, nodes, diags);
        var n := CompileValue(raw.list[k]);
        if n.Some? { nodes := nodes + [n.value]; }
      }
      RangeEnds(raw, j, arity);
    }

    /** Where compiling `raw` leaves things. */
    ghost predicate Did(raw: Raw, top: bool, before: seq<Diagnostic>, n: Option<Node>)
      reads this
    {
      n == CompileExpr(raw, arity, top).node && diags == before + CompileExpr(raw, arity, top).diags
    }

    /** Compiles the parts of a form and puts its node together, if all arguments compiled. */
    method Build(raw: Raw, top: bool, kind: Kind, op: string, a: nat, b: nat, c: nat, params: seq<string>,
                 ghost before: seq<Diagnostic>, ghost own: seq<Diagnostic>) returns (n: Option<Node>)
      requires IsForm(raw) && Analyze(raw, arity, top) == Accept(kind, op, a, b, c, params, own)
      requires diags == before + own
      modifies this
      ensures Did(raw, top, before, n)
      decreases raw, 2
    {
      hide Analyze, CompileExpr, CompileRange;
      CompileForms(raw, arity, top);
      var args := CompileElements(raw, a, b);
      var children := CompileElements(raw, c, |raw.list|);
      ghost var ad, cd := CompileRange(raw, a, b, arity).diags, CompileRange(raw, c, |raw.list|, arity).diags;
      assert before + own + ad + cd == before + (own + ad + cd);
      if |args| != b - a { return None; }
      return Some(Node(0, kind, raw.span, op, args, children, [], params));
    }

    method CompileDefine(raw: Raw, top: bool) returns (n: Option<Node>)
      requires IsForm(raw) && raw.list[0].symbol == "define"
      modifies this
      ensures Did(raw, top, old(diags), n)
      decreases raw, 3, 0
    {
      hide IsBuiltinName, IsReserved, CompileRange;
      var argc := |raw.list| - 1;
      if argc < 1 { Err(raw.span, WrongArgumentCount); return None; }
      var target := raw.list[1];
      if target.List? {
        if !top { Err(raw.span, NestedFunction); return None; }
        if target.list == [] || !target.list[0].Sym? { Err(target.span, FunctionName); return None; }
        var name := target.list[0].symbol;
        if IsBuiltinName(name) { Err(target.list[0].span, BuiltinName); return None; }
        var params := CompileParams(target);
        n := Build(raw, top, DefineFunc, name, 1, 1, 2, params, old(diags), ParamProblems(target.list[1..]));
        return;
      }
      if !target.Sym? { Err(target.span, ExpectedName); return None; }
      if argc != 2 { Err(raw.span, WrongArgumentCount); return None; }
      if IsReserved(target.symbol) { Err(target.span, ReservedName); return None; }
      n := Build(raw, top, DefineVar, target.symbol, 2, 3, 3, [], diags, []);
    }

    method CompileParams(target: Raw) returns (params: seq<string>)
      requires IsForm(target)
      modifies this
      ensures params == ParamsOf(target.list[1..])
      ensures diags == old(diags) + ParamProblems(target.list[1..])
    {
      hide IsReserved;
      ghost var ps := target.list[1..];
      params := [];
      for i := 1 to |target.list|
        invariant params == ParamsOf(ps[..i - 1]) && diags == old(diags) + ParamProblems(ps[..i - 1])
      {
        var p := target.list[i];
        assert ps[..i][..i - 1] == ps[..i - 1] && ps[..i][i - 1] == p;
        if !p.Sym? { Err(p.span, ParameterName); }
        else if IsReserved(p.symbol) { Err(p.span, ReservedName); }
        else { params := params + [p.symbol]; }
      }
      assert ps[..|target.list| - 1] == ps;
    }

    /** Range-checks a literal argument. */
    method LiteralCheck(e: Raw, lo: int, hi: int, problem: Problem)
      modifies this
      ensures diags == old(diags) + OutOfRange(e, lo, hi, problem)
    {
      if e.Int? && (e.value < lo || e.value > hi) { Err(e.span, problem); }
    }

    method CompileCommand(raw: Raw, top: bool) returns (n: Option<Node>)
      requires IsForm(raw) && IsCommandName(raw.list[0].symbol)
      modifies this
      ensures Did(raw, top, old(diags), n)
      decreases raw, 3
    {
      hide CompileRange;
      var op, argc := raw.list[0].symbol, |raw.list| - 1;
      var kind, want := Beep, 0;
      if op == "drive" || op == "backward" { kind, want := if op == "drive" then Drive else Backward, 2; }
      else if op == "turn-left" || op == "turn-right" { kind, want := if op == "turn-left" then TurnLeft else TurnRight, 1; }
      else if op == "wait" { kind, want := Wait, 1; }
      else if op == "light" { kind, want := Light, 1; }
      else if op == "stop" { kind := Stop; }
      assert kind == CommandKind(op) && want == CommandArity(kind);
      CommandForms(raw, arity, top);
      hide Analyze, IsCommandName, CommandKind;
      if argc != want { Err(raw.span, WrongArgumentCount); return None; }
      if kind == Drive || kind == Backward {
        LiteralCheck(raw.list[1], 0, 100, SpeedLiteral);
        LiteralCheck(raw.list[2], 0, 10000, DurationLiteral);
      } else if kind == TurnLeft || kind == TurnRight {
        LiteralCheck(raw.list[1], 0, 3600, DegreesLiteral);
      } else if kind == Wait {
        LiteralCheck(raw.list[1], 0, 10000, DurationLiteral);
      }
      assert diags == old(diags) + CommandProblems(kind, raw.list);
      n := Build(raw, top, kind, op, 1, |raw.list|, |raw.list|, [], old(diags), CommandProblems(kind, raw.list));
    }

    method CompileOperator(raw: Raw, top: bool) returns (n: Option<Node>)
      requires IsForm(raw)
      requires var op := raw.list[0].symbol; IsComparison(op) || IsBooleanOp(op) || IsArithmetic(op)
      modifies this
      ensures Did(raw, top, old(diags), n)
      decreases raw, 3
    {
      hide CompileRange;
      var op, argc := raw.list[0].symbol, |raw.list| - 1;
      var kind := BooleanOp;
      ghost var f := Analyze(raw, arity, top);
      if IsComparison(op) {
        if argc != 2 { Err(raw.span, WrongArgumentCount); return None; }
        kind := Compare;
      } else if IsArithmetic(op) {
        if (op == "-" || op == "/") && argc != 2 { Err(raw.span, WrongArgumentCount); return None; }
        if (op == "+" || op == "*") && argc < 2 { Err(raw.span, WrongArgumentCount); return None; }
        kind := Arithmetic;
      } else if op == "not" {
        if argc != 1 { Err(raw.span, WrongArgumentCount); return None; }
      } else if argc < 2 {
        Err(raw.span, WrongArgumentCount);
        return None;
      }
      n := Build(raw, top, kind, op, 1, |raw.list|, |raw.list|, [], diags, []);
    }

    method CompileCall(raw: Raw, top: bool) returns (n: Option<Node>)
      requires IsForm(raw) && !IsBuiltin(raw.list[0].symbol)
      modifies this
      ensures Did(raw, top, old(diags), n)
      decreases raw, 3
    {
      hide CompileRange;
      var op, argc := raw.list[0].symbol, |raw.list| - 1;
      if op !in arity { Err(raw.list[0].span, UnknownFunction); return None; }
      if argc != arity[op] { Err(raw.span, WrongArgumentCount); return None; }
      n := Build(raw, top, Call, op, 1, |raw.list|, |raw.list|, [], diags, []);
    }

    method CompileForm(raw: Raw, top: bool) returns (n: Option<Node>)
      requires IsForm(raw)
      modifies this
      ensures Did(raw, top, old(diags), n)
      decreases raw, 4
    {
      hide CompileRange, CompileExpr, AnalyzeDefine, OperatorArity, CommandProblems, CommandKind;
      var op, argc := raw.list[0].symbol, |raw.list| - 1;
      if IsControl(op) {
        n := CompileControl(raw, top);
      } else if IsCommandName(op) {
        n := CompileCommand(raw, top);
      } else if IsSensorName(op) {
        n := CompileSensor(raw, top);
      } else if IsComparison(op) || IsBooleanOp(op) || IsArithmetic(op) {
        n := CompileOperator(raw, top);
      } else {
        n := CompileCall(raw, top);
      }
    }

    method CompileSensor(raw: Raw, top: bool) returns (n: Option<Node>)
      requires IsForm(raw) && IsSensorName(raw.list[0].symbol)
      modifies this
      ensures Did(raw, top, old(diags), n)
      decreases raw, 3
    {
      hide CompileRange;
      var op := raw.list[0].symbol;
      if |raw.list| - 1 != 0 { Err(raw.span, WrongArgumentCount); return None; }
      n := Build(raw, top, SensorKind(op), op, 1, 1, 1, [], diags, []);
    }

    /** do, repeat, when, if, while, define and set!. */
    method CompileControl(raw: Raw, top: bool) returns (n: Option<Node>)
      requires IsForm(raw) && IsControl(raw.list[0].symbol)
      modifies this
      ensures Did(raw, top, old(diags), n)
      decreases raw, 3, 1
    {
      hide CompileRange, AnalyzeDefine, OperatorArity, CommandProblems, CommandKind, IsReserved;
      var op, argc := raw.list[0].symbol, |raw.list| - 1;
      if op == "define" {
        n := CompileDefine(raw, top);
      } else if op == "do" {
        n := Build(raw, top, Do, op, 1, 1, 1, [], diags, []);
      } else if op == "if" {
        if argc != 3 { Err(raw.span, WrongArgumentCount); return None; }
        n := Build(raw, top, If, op, 1, 4, 4, [], diags, []);
      } else if op == "set!" {
        if argc != 2 || !raw.list[1].Sym? { Err(raw.span, ExpectedName); return None; }
        if IsReserved(raw.list[1].symbol) { Err(raw.list[1].span, ReservedName); return None; }
        n := Build(raw, top, SetVar, raw.list[1].symbol, 2, 3, 3, [], diags, []);
      } else {
        if argc < 1 { Err(raw.span, WrongArgumentCount); return None; }
        if op == "repeat" {
          var count := raw.list[1];
          if count.Int? {
            if count.value < 0 { Err(count.span, RepeatLiteral); }
            else if count.value > 100 { Err(count.span, RepeatLiteral); }
          }
          n := Build(raw, top, Repeat, op, 1, 2, 2, [], old(diags), OutOfRange(count, 0, 100, RepeatLiteral));
        } else if op == "when" {
          n := Build(raw, top, When, op, 1, 2, 2, [], diags, []);
        } else {
          n := Build(raw, top, While, op, 1, 2, 2, [], diags, []);
        }
      }
    }

    /** compile_value: an expression that is not at the top level. */
    method CompileValue(raw: Raw) returns (n: Option<Node>)
      modifies this
      ensures Did(raw, false, old(diags), n)
      decreases raw, 6
    {
      n := Compile(raw, false);
    }

    method Compile(raw: Raw, top: bool) returns (n: Option<Node>)
      modifies this
      ensures Did(raw, top, old(diags), n)
      decreases raw, 5
    {
      hide Analyze;
      if !raw.List? { return Some(CompileAtom(raw)); }
      if raw.list == [] { Err(raw.span, EmptyList); return None; }
      if !raw.list[0].Sym? { Err(raw.list[0].span, ExpectedOperation); return None; }
      n := CompileForm(raw, top);
    }
  }

  predicate IsBuiltin(op: string) {
    || IsControl(op) || IsCommandName(op) || IsSensorName(op)
    || IsComparison(op) || IsBooleanOp(op) || IsArithmetic(op)
  }

  lemma CommandForms(raw: Raw, arity: Arity, top: bool)
    requires IsForm(raw) && IsCommandName(raw.list[0].symbol)
    ensures var op, argc, kind := raw.list[0].symbol, |raw.list| - 1, CommandKind(raw.list[0].symbol);
            Analyze(raw, arity, top) ==
            if argc != CommandArity(kind) then Reject(Diagnostic(raw.span, WrongArgumentCount))
            else Accept(kind, op, 1, |raw.list|, |raw.list|, [], CommandProblems(kind, raw.list))
  {
  }

  // ---- whole programs, as the source does them --------------------------------------------------------

  method CollectArity(tops: seq<Raw>) returns (sigs: Signatures)
    ensures sigs == CollectUpTo(tops, |tops|)
  {
    var arity: Arity, diags: seq<Diagnostic> := map[], [];
    for i := 0 to |tops|
      invariant Signatures(arity, diags) == CollectUpTo(tops, i)
    {
      var e := tops[i];
      if IsSignature(e) {
        var name := e.list[1].list[0];
        if name.symbol in arity {
          diags := diags + [Diagnostic(name.span, DuplicateFunction)];
        } else {
          arity := arity[name.symbol := |e.list[1].list| - 1];
        }
      }
    }
    return Signatures(arity, diags);
  }

  /** The counter that assign_preorder hands identifiers out from. */
  class Counter {
    var next: nat

    constructor ()
      ensures next == 0
    {
      next := 0;
    }

    method Assign(n: Node) returns (r: Node)
      modifies this
      ensures (r, next) == Number(n, old(next))
      decreases n, 1
    {
      var id := n.id;
      if Highlightable(n.kind) {
        id := next;
        next := next + 1;
      }
      var args := AssignAll(n.args);
      var children := AssignAll(n.children);
      return n.(id := id, args := args, children := children);
    }

    method AssignAll(ns: seq<Node>) returns (rs: seq<Node>)
      modifies this
      ensures (rs, next) == NumberAll(ns, old(next))
      decreases ns, 0
    {
      rs := [];
      ghost var all := NumberAll(ns, next);
      assert ns[0..] == ns && rs + all.0 == all.0;
      for i := 0 to |ns|
        invariant var (rest, k) := NumberAll(ns[i..], next); rs + rest == all.0 && k == all.1
      {
        ghost var before, ahead := rs, NumberAll(ns[i..], next);
        assert ns[i..][0] == ns[i] && ns[i..][1..] == ns[i + 1..];
        var r := Assign(ns[i]);
        rs := rs + [r];
        assert before + ([r] + NumberAll(ns[i + 1..], next).0) == rs + NumberAll(ns[i + 1..], next).0;
      }
      assert rs + [] == rs;
    }
  }

  method CompileSource(src: string) returns (result: Result)
    ensures result == Compile(src)
  {
    hide CompileExpr, Number, CollectUpTo, Parse;
    var parsed := ParseSource(src);
    if parsed.exprs == [] {
      return Result(None, if parsed.diags == [] then [Diagnostic(NO_SPAN, EmptyProgram)] else parsed.diags);
    }
    var first, last := parsed.exprs[0], parsed.exprs[|parsed.exprs| - 1];
    var singleDo := |parsed.exprs| == 1 && first.List? && first.list != [] && first.list[0].Sym? && first.list[0].symbol == "do";
    var tops := if singleDo then first.list[1..] else parsed.exprs;

    var sigs := CollectArity(tops);
    var ctx := new Context(sigs.arity, parsed.diags + sigs.diags);
    var children := CompileTopLevel(ctx, tops);
    ghost var listing := CompileTops(tops, sigs.arity);

    var root: Option<Node> := None;
    if !singleDo && |parsed.exprs| == 1 {
      if children != [] { root := Some(children[0]); }
    } else {
      root := Some(Node(0, Do, Join(first.span, last.span), "do", [], children, [], []));
    }
    assert root == RootOf(parsed.exprs, listing.nodes);
    if root.Some? {
      var counter := new Counter();
      var numbered := counter.Assign(root.value);
      root := Some(numbered);
    }
    return Result(root, ctx.diags);
  }

  method CompileTopLevel(ctx: Context, tops: seq<Raw>) returns (nodes: seq<Node>)
    modifies ctx
    ensures nodes == CompileTops(tops, ctx.arity).nodes
    ensures ctx.diags == old(ctx.diags) + CompileTops(tops, ctx.arity).diags
  {
    hide CompileExpr;
    nodes := [];
    ghost var all := CompileTops(tops, ctx.arity);
    assert tops[0..] == tops;
    for i := 0 to |tops|
      invariant nodes + CompileTops(tops[i..], ctx.arity).nodes == all.nodes
      invariant ctx.diags + CompileTops(tops[i..], ctx.arity).diags == old(ctx.diags) + all.diags
    {
      ghost var before, ahead, rest := ctx.diags, CompileTops(tops[i..], ctx.arity), CompileTops(tops[i + 1..], ctx.arity);
      assert tops[i..][0] == tops[i] && tops[i..][1..] == tops[i + 1..];
      var n := ctx.Compile(tops[i], true);
      assert ctx.diags + rest.diags == before + ahead.diags;
      if n.Some? {
        assert nodes + [n.value] + rest.nodes == nodes + ahead.nodes;
        nodes := nodes + [n.value];
      }
    }
  }
}
