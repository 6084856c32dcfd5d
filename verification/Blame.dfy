// Which nodes the events of a run are about: who is announced, who is blamed for what, and
// when a node without a start of its own is reported (src/engine.cpp:43-52, 115-117, 119-349).

module Blame {
  import opened Ast
  import opened Tree
  import opened Semantics
  import opened Programs
  import opened TraceGrammar
  import Growth
  import Safety

  // ---- from the automaton ----------------------------------------------------------------------------

  /** In an accepted trace every entry was acceptable where it stands. */
  lemma {:induction false} AcceptedAt(t: Trace, i: nat)
    requires !Scan(t).Rejected? && i < |t|
    ensures !Step(Scan(t[..i]), t[i]).Rejected? && !Scan(t[..i]).Rejected?
    decreases |t|
  {
    hide Step;
    StepFromRejected(t[|t| - 1]);
    if i < |t| - 1 {
      AcceptedAt(t[..|t| - 1], i);
      assert t[..|t| - 1][..i] == t[..i];
    }
  }

  lemma StepFromRejected(item: Item)
    ensures Step(Rejected, item) == Rejected
  {
  }

  /** The four faults of nodes that are never started. */
  predicate IsQuietFault(fault: Fault) {
    fault == UndefinedVariable || fault == CompareOperands || fault == ArithmeticOperands || fault == DivisionByZero
  }

  lemma RaisedByKind(kind: Kind, fault: Fault)
    requires Raises(kind, fault)
    ensures !Highlightable(kind) <==> IsQuietFault(fault)
  {
  }

  /** Who is blamed: in every run an error is about a node of a kind that has this fault, and that
      node is one without a start of its own exactly for the four quiet faults. */
  lemma {:induction false} BlamedByFault(host: Host, limits: Limits, root: Node, i: nat)
    requires !Execute(host, limits, root).error.Stuck?
    requires i < |Execute(host, limits, root).trace| && Execute(host, limits, root).trace[i].NodeError?
    ensures var item := Execute(host, limits, root).trace[i];
            Raises(item.node.kind, item.fault) && (!Highlightable(item.node.kind) <==> IsQuietFault(item.fault))
  {
    hide Execute, Scan, Raises, Highlightable, Next;
    var t := Execute(host, limits, root).trace;
    RunsAreWords(host, limits, root);
    AcceptedAt(t, i);
    RaisedByKind(t[i].node.kind, t[i].fault);
  }

  lemma {:induction false} OpenAreHighlightable(t: Trace)
    requires Scan(t).Live?
    ensures forall k :: 0 <= k < |Scan(t).open| ==> Highlightable(Scan(t).open[k].kind)
    decreases |t|
  {
    hide Highlightable, Next, Blames, Issues, MaySkip, Quiet;
    if t != [] && Scan(t[..|t| - 1]).Live? { OpenAreHighlightable(t[..|t| - 1]); }
  }

  /** Who is announced: only highlightable nodes are started, and only they are done. */
  lemma {:induction false} AnnouncedAreHighlightable(host: Host, limits: Limits, root: Node, i: nat)
    requires !Execute(host, limits, root).error.Stuck?
    requires i < |Execute(host, limits, root).trace|
    requires var item := Execute(host, limits, root).trace[i]; item.NodeStart? || item.NodeDone?
    ensures Highlightable(Execute(host, limits, root).trace[i].node.kind)
  {
    hide Execute, Scan, Raises, Highlightable, Next;
    var t := Execute(host, limits, root).trace;
    RunsAreWords(host, limits, root);
    AcceptedAt(t, i);
    if Scan(t[..i]).Live? { OpenAreHighlightable(t[..i]); }
  }

  // ---- a condition on the tree under which only highlightable nodes are reported ---------------------

  /** The node can report none but highlightable nodes: it has no fault unless it is highlightable
      itself, and nothing it may skip is not. */
  predicate Loud(n: Node) {
    match n.kind
    case VarRef | Compare | Arithmetic => false
    case When => forall i :: 0 <= i < |n.children| ==> Highlightable(n.children[i].kind)
    case If => forall i :: 1 <= i < 3 && i < |n.args| ==> Highlightable(n.args[i].kind)
    case _ => true
  }

  ghost predicate AllLoud(code: set<Node>) {
    forall n :: n in code ==> Loud(n)
  }

  predicate LoudItem(item: Item) {
    match item
    case NodeStart(n) => Highlightable(n.kind)
    case NodeDone(n) => Highlightable(n.kind)
    case NodeSkipped(n) => Highlightable(n.kind)
    case NodeError(n, _) => Highlightable(n.kind)
    case _ => true
  }

  predicate LoudTrace(t: Trace) {
    forall i :: 0 <= i < |t| ==> LoudItem(t[i])
  }

  lemma LoudPush(t: Trace, item: Item)
    requires LoudTrace(t) && LoudItem(item)
    ensures LoudTrace(t + [item])
  {
  }

  lemma FinishLoud(w: World, n: Node, vals: seq<Value>, m: Machine, sc: Scope)
    requires |vals| == Wanted(n) && Loud(n)
    ensures var move := Finish(w, n, vals, m, sc);
            && (move.Raise? ==> Highlightable(n.kind))
            && (move.Perform? && move.e.Skip? ==> Highlightable(move.e.node.kind))
  {
    hide Reading, FoldArith, Lookup, Defined, BindParams, Holds;
  }

  lemma PlanLoud(w: World, n: Node, c: Ctl, m: Machine, sc: Scope)
    requires Fits(n, c) && Fair(n, c) && Loud(n)
    ensures var move := Plan(w, n, c, m, sc);
            && (move.Raise? ==> Highlightable(n.kind))
            && (move.Perform? && move.e.Skip? ==> Highlightable(move.e.node.kind))
  {
    hide Finish;
    if c.Operands? && |c.vals| == Wanted(n) { FinishLoud(w, n, c.vals, m, sc); }
  }

  lemma AppliedLoud(e: Effect, m: Machine, sc: Scope)
    requires LoudTrace(m.trace) && (e.Skip? ==> Highlightable(e.node.kind))
    ensures LoudTrace(Applied(e, m, sc).0.trace)
  {
  }

  lemma {:induction false} EvalLoud(w: World, n: Node, m: Machine, sc: Scope, code: set<Node>)
    requires Closed(w, code) && AllLoud(code) && n in code && LoudTrace(m.trace)
    ensures LoudTrace(Eval(w, n, m, sc).m.trace)
    decreases Remaining(w, m), n, 9, 0, 0
  {
    hide Run, Closed, AllLoud, LoudTrace, Highlightable;
    var polled := m.(polls := m.polls + 1);
    if !m.status.Running? || w.host.cancel(m.polls, m.trace) {
    } else if !Highlightable(n.kind) {
      RunLoud(w, n, Begin(n.kind), polled, sc, code);
    } else if m.steps >= w.limits.maxTotalSteps {
      LoudPush(m.trace, NodeError(n, StepLimit));
    } else {
      var begun := polled.(steps := m.steps + 1, trace := m.trace + [NodeStart(n)]);
      LoudPush(m.trace, NodeStart(n));
      RunLoud(w, n, Begin(n.kind), begun, sc, code);
      LoudPush(Run(w, n, Begin(n.kind), begun, sc).m.trace, NodeDone(n));
    }
  }

  lemma {:induction false} RunLoud(w: World, n: Node, c: Ctl, m: Machine, sc: Scope, code: set<Node>)
    requires Closed(w, code) && AllLoud(code) && n in code && LoudTrace(m.trace)
    requires Fits(n, c) && Fair(n, c) && (c.Callee? ==> c.fn in code)
    ensures LoudTrace(Run(w, n, c, m, sc).m.trace)
    decreases Remaining(w, m) + Weight(n), n, Stage(c), Left(c), Todo(n, c)
  {
    hide Plan, Feed, Fits, Eval, Applied, Stage, Left, Todo, Highlightable, Fair, LoudTrace, Closed, Loud;
    PlanSensible(w, n, c, m, sc);
    PlanLoud(w, n, c, m, sc);
    FairMoves(w, n, c, m, sc);
    match Plan(w, n, c, m, sc)
    case Return(_) =>
    case Raise(fault) => LoudPush(m.trace, NodeError(n, fault));
    case Wrong =>
    case Visit(child) =>
      MembersOf(w, code, n, child);
      EvalLoud(w, child, m, sc, code);
      var r := Eval(w, child, m, sc);
      FeedSensible(n, c, r.v);
      FairFeed(n, c, r.v);
      if r.m.status.Running? { RunLoud(w, n, Feed(n, c, r.v), r.m, r.sc, code); }
    case Body(child) =>
      BodySensible(n, c, c.frame, c.last);
      MembersOf(w, code, c.fn, child);
      EvalLoud(w, child, m, Local(c.frame), code);
      var r := Eval(w, child, m, Local(c.frame));
      BodySensible(n, c, r.sc.vars, r.v);
      FairCallee(n, c, r.sc.vars, r.v);
      if r.m.status.Running? { RunLoud(w, n, Callee(c.fn, c.i + 1, r.sc.vars, r.v), r.m, sc, code); }
    case Perform(e, next) =>
      AppliedGrows(e, m, sc);
      PlanEnters(w, n, c, m, sc);
      if e.Skip? { assert Highlightable(e.node.kind); }
      AppliedLoud(e, m, sc);
      FunctionsAreCode(w, code);
      RunLoud(w, n, next, Applied(e, m, sc).0, Applied(e, m, sc).1, code);
  }

  /** What the protocol promises of node events holds in every run of a program in which no when has
      a statement and no if has a branch that is not highlightable, and no variable is read and
      nothing is compared or computed. */
  lemma {:induction false} LoudProgramsReportHighlightable(host: Host, limits: Limits, root: Node)
    requires AllLoud(Nodes(root))
    ensures LoudTrace(Execute(host, limits, root).trace)
  {
    hide Eval, Functions, AllLoud;
    var w := World(host, limits, Functions(root));
    ProgramIsClosed(w, root);
    EvalLoud(w, root, START, Top, Nodes(root));
  }

  // ---- how far the converse holds --------------------------------------------------------------------

  /** The move reports a node that is not highlightable. */
  predicate ReportsQuiet(n: Node, move: Move) {
    match move
    case Raise(_) => !Highlightable(n.kind)
    case Perform(Skip(child), _) => !Highlightable(child.kind)
    case _ => false
  }

  /** Move by move the condition is exact: a node that is not highlightable is reported by an if
      whose other branch it is, by a when that does not hold and has it as its next statement, by a
      name that is not defined, by a comparison of what is not two integers, or by a computation
      that has met a bad operand; and by nothing else. */
  lemma {:induction false} QuietReports(w: World, n: Node, c: Ctl, m: Machine, sc: Scope)
    requires Fits(n, c) && Fair(n, c)
    ensures ReportsQuiet(n, Plan(w, n, c, m, sc)) <==>
            match c
            case Operands(vals) =>
              && |vals| == Wanted(n)
              && (|| (n.kind == If && |n.args| >= 3 && !Highlightable(n.args[if vals[0].Truthy() then 2 else 1].kind))
                  || (n.kind == VarRef && !Defined(n.op, m.globals, sc))
                  || (n.kind == Compare && !(vals[0].IntV? && vals[1].IntV?)))
            case Skipping(i) => i < |n.children| && !Highlightable(n.children[i].kind)
            case Failing(_) => n.kind == Arithmetic
            case _ => false
  {
    hide Reading, FoldArith, Lookup, Defined, BindParams, Holds;
  }

  /** An if reports the branch that it does not take, at once and in every case; so its report is
      about a node that is not highlightable exactly when that branch is none. */
  lemma {:induction false} IfReportsTheOther(w: World, n: Node, v: Value, m: Machine, sc: Scope)
    requires n.kind == If && |n.args| >= 3
    ensures var other, t := n.args[if v.Truthy() then 2 else 1], Run(w, n, Operands([v]), m, sc).m.trace;
            && m.trace + [NodeSkipped(other)] <= t
            && (LoudItem(t[|m.trace|]) <==> Highlightable(other.kind))
  {
    hide Eval, Highlightable;
    var other, k := n.args[if v.Truthy() then 2 else 1], if v.Truthy() then 1 else 2;
    var next := m.(trace := m.trace + [NodeSkipped(other)]);
    assert Plan(w, n, Operands([v]), m, sc) == Perform(Skip(other), Branch(k));
    assert Run(w, n, Operands([v]), m, sc) == Run(w, n, Branch(k), next, sc);
    Growth.RunGrows(w, n, Branch(k), next, sc);
  }

  /** An if with no highlightable branch reports one whenever its condition has been evaluated. */
  lemma {:induction false} QuietBranchesAreReported(w: World, n: Node, v: Value, m: Machine, sc: Scope)
    requires n.kind == If && |n.args| >= 3 && !Highlightable(n.args[1].kind) && !Highlightable(n.args[2].kind)
    ensures !LoudTrace(Run(w, n, Operands([v]), m, sc).m.trace)
  {
    hide Run, Highlightable;
    IfReportsTheOther(w, n, v, m, sc);
    assert !LoudItem(Run(w, n, Operands([v]), m, sc).m.trace[|m.trace|]);
  }

  /** A when that does not hold reports every one of its statements and nothing else. */
  lemma {:induction false} WhenReportsItsStatements(w: World, n: Node, i: nat, m: Machine, sc: Scope)
    requires n.kind == When && i <= |n.children|
    ensures Run(w, n, Skipping(i), m, sc) == Out(NoneV, m.(trace := m.trace + Skips(n.children[i..])), sc)
    decreases |n.children| - i
  {
    hide Eval;
    if i < |n.children| {
      var next := m.(trace := m.trace + [NodeSkipped(n.children[i])]);
      assert Run(w, n, Skipping(i), m, sc) == Run(w, n, Skipping(i + 1), next, sc);
      WhenReportsItsStatements(w, n, i + 1, next, sc);
      assert n.children[i..][1..] == n.children[i + 1..];
    } else {
      assert m.trace + [] == m.trace;
    }
  }

  function Skips(ns: seq<Node>): Trace {
    if ns == [] then [] else [NodeSkipped(ns[0])] + Skips(ns[1..])
  }

  /** As a condition on trees it is not exact: a program that compares two integers breaks it, and
      yet no run of it reports any node. */
  lemma {:induction false} QuietNodesMayStaySilent(host: Host, limits: Limits, a: Node, b: Node, n: Node)
    requires a.kind == IntegerLiteral && b.kind == IntegerLiteral && n.kind == Compare && n.args == [a, b]
    ensures !Loud(n) && LoudTrace(Execute(host, limits, n).trace)
  {
    hide Functions, Eval;
    var w := World(host, limits, Functions(n));
    ComparisonIsSilent(w, a, b, n);
  }

  lemma {:induction false} LiteralIsSilent(w: World, n: Node, m: Machine)
    requires n.kind == IntegerLiteral
    ensures var r := Eval(w, n, m, Top);
            r.m.trace == m.trace && r.sc == Top && (m.status.Running? ==> r.m.status.Running? || r.m.status.Cancelled?)
            && (r.m.status.Running? ==> r.v.IntV?)
  {
  }

  lemma {:induction false} ComparisonIsSilent(w: World, a: Node, b: Node, n: Node)
    requires a.kind == IntegerLiteral && b.kind == IntegerLiteral && n.kind == Compare && n.args == [a, b]
    ensures Eval(w, n, START, Top).m.trace == START.trace
    ensures var status := Eval(w, n, START, Top).m.status; status.Running? || status.Cancelled?
  {
    hide Run, Eval;
    var m0 := START.(polls := 1);
    EvalQuiet(w, n, START);
    OperandIsSilent(w, n, [], m0);
    assert [] + [Eval(w, a, m0, Top).v] == [Eval(w, a, m0, Top).v];
    var r := Eval(w, a, m0, Top);
    if r.m.status.Running? {
      OperandIsSilent(w, n, [r.v], r.m);
      var s := Eval(w, b, r.m, Top);
      if s.m.status.Running? { ComparisonReturns(w, n, r.v, s.v, s.m); }
    }
  }

  /** An operand that is a literal adds nothing to the trace. */
  lemma {:induction false} OperandIsSilent(w: World, n: Node, vals: seq<Value>, m: Machine)
    requires m.status.Running? && n.kind == Compare && |n.args| == 2 && |vals| < 2 && n.args[|vals|].kind == IntegerLiteral
    ensures var r := Eval(w, n.args[|vals|], m, Top);
            && r.m.trace == m.trace && (r.m.status.Running? || r.m.status.Cancelled?) && (r.m.status.Running? ==> r.v.IntV?)
            && Run(w, n, Operands(vals), m, Top)
               == if r.m.status.Running? then Run(w, n, Operands(vals + [r.v]), r.m, Top) else Out(NoneV, r.m, Top)
  {
    LiteralIsSilent(w, n.args[|vals|], m);
    hide Eval;
    assert Plan(w, n, Operands(vals), m, Top) == Visit(n.args[|vals|]);
  }

  lemma ComparisonReturns(w: World, n: Node, x: Value, y: Value, m: Machine)
    requires n.kind == Compare && x.IntV? && y.IntV?
    ensures Run(w, n, Operands([x] + [y]), m, Top).m == m
  {
    hide Eval;
    assert Plan(w, n, Operands([x] + [y]), m, Top).Return?;
  }

  lemma EvalQuiet(w: World, n: Node, m: Machine)
    requires m.status.Running? && !Highlightable(n.kind)
    ensures var polled := m.(polls := m.polls + 1);
            Eval(w, n, m, Top) == if w.host.cancel(m.polls, m.trace) then Out(NoneV, polled.(status := Cancelled), Top)
                                  else Run(w, n, Begin(n.kind), polled, Top)
  {
    hide Run;
  }

  /** Nor is it exact for what is reached: (if true 5 (stop)) breaks it, its condition is evaluated and
      its literal branch taken, and yet no run of it reports the literal. */
  lemma {:induction false} TakenBranchesMayStaySilent(host: Host, limits: Limits, a: Node, b: Node, c: Node, n: Node)
    requires a.kind == BooleanLiteral && a.nums == [1] && b.kind == IntegerLiteral && c.kind == Stop
    requires n.kind == If && n.args == [a, b, c]
    ensures !Loud(n) && LoudTrace(Execute(host, limits, n).trace)
  {
    assert !Highlightable(n.args[1].kind);
    hide Functions, Eval, Loud;
    var w := World(host, limits, Functions(n));
    SilentIf(w, a, b, c, n);
  }

  lemma {:induction false} SilentIf(w: World, a: Node, b: Node, c: Node, n: Node)
    requires a.kind == BooleanLiteral && a.nums == [1] && b.kind == IntegerLiteral && c.kind == Stop
    requires n.kind == If && n.args == [a, b, c]
    ensures var m := Eval(w, n, START, Top).m;
            LoudTrace(m.trace) && !m.status.Stuck?
  {
    var polled := START.(polls := 1);
    if !w.host.cancel(0, START.trace) && w.limits.maxTotalSteps > 0 {
      var begun := polled.(steps := 1, trace := START.trace + [NodeStart(n)]);
      ConditionHolds(w, a, n, begun);
      var r := Run(w, n, Operands([]), begun, Top);
      assert Eval(w, n, START, Top) == if r.m.status.Running? then r.(m := r.m.(trace := r.m.trace + [NodeDone(n)])) else r
        by { hide Run; }
      var held := begun.(polls := 2);
      if !w.host.cancel(1, begun.trace) { BranchIsSilent(w, b, c, n, held); }
    }
    hide Run, Eval;
  }

  /** The literal condition is read as true, unless the run is cancelled there. */
  lemma {:induction false} ConditionHolds(w: World, a: Node, n: Node, m: Machine)
    requires a.kind == BooleanLiteral && a.nums == [1] && n.kind == If && |n.args| == 3 && n.args[0] == a && m.status.Running?
    ensures var polled := m.(polls := m.polls + 1);
            Run(w, n, Operands([]), m, Top)
            == if w.host.cancel(m.polls, m.trace) then Out(NoneV, polled.(status := Cancelled), Top)
               else Run(w, n, Operands([BoolV(true)]), polled, Top)
  {
    Safety.LiteralEvaluates(w, a, m, Top);
    hide Eval;
    assert Plan(w, n, Operands([]), m, Top) == Visit(a);
    assert [] + [BoolV(true)] == [BoolV(true)];
  }

  lemma {:induction false} BranchIsSilent(w: World, b: Node, c: Node, n: Node, m: Machine)
    requires b.kind == IntegerLiteral && c.kind == Stop && n.kind == If && |n.args| == 3 && n.args[1] == b && n.args[2] == c
    requires m.status.Running?
    ensures var r := Run(w, n, Operands([BoolV(true)]), m, Top);
            r.m.trace == m.trace + [NodeSkipped(c)] && (r.m.status.Running? || r.m.status.Cancelled?)
  {
    var next := m.(trace := m.trace + [NodeSkipped(c)]);
    Safety.LiteralEvaluates(w, b, next, Top);
    hide Eval;
    assert Plan(w, n, Operands([BoolV(true)]), m, Top) == Perform(Skip(c), Branch(1));
    assert Run(w, n, Operands([BoolV(true)]), m, Top) == Run(w, n, Branch(1), next, Top);
    assert Plan(w, n, Branch(1), next, Top) == Visit(b);
    var r := Eval(w, b, next, Top);
    if r.m.status.Running? {
      assert Feed(n, Branch(1), r.v) == Finished(r.v);
      assert Run(w, n, Finished(r.v), r.m, Top) == Out(r.v, r.m, Top);
    }
  }
}
