// Limits and cancellation only truncate a run (src/engine.cpp:78-113, 119-382).

module Truncation {
  import opened Ast
  import opened Semantics
  import opened Growth

  // ---- two runs in step ---------------------------------------------------------------

  /** `v` allows at least what `w` allows: the same program and sensors, no smaller
      limit, and a cancel flag that is up only where that of `w` is. */
  ghost predicate Wider(w: World, v: World) {
    && w.fns == v.fns && w.host.distance == v.host.distance && w.host.flag == v.host.flag
    && w.limits.maxRepeatCount <= v.limits.maxRepeatCount
    && w.limits.maxTotalSteps <= v.limits.maxTotalSteps
    && w.limits.maxCallDepth <= v.limits.maxCallDepth
    && forall polls, trace :: v.host.cancel(polls, trace) ==> w.host.cancel(polls, trace)
  }

  predicate IsLimit(fault: Fault) {
    fault == StepLimit || fault == RepeatLimit || fault == DepthLimit
  }

  /** The run was ended by a limit or by cancellation. */
  predicate Cut(status: Status) {
    status.Cancelled? || (status.Errored? && IsLimit(status.fault))
  }

  /** The trace without the NodeError that a failure added. */
  function Kept(m: Machine): Trace {
    if m.status.Errored? && m.trace != [] then m.trace[..|m.trace| - 1] else m.trace
  }

  ghost predicate Truncates(r: Out, s: Out) {
    r == s || (Cut(r.m.status) && Kept(r.m) <= s.m.trace)
  }

  lemma PlanTruncates(w: World, v: World, n: Node, c: Ctl, m: Machine, sc: Scope)
    requires Wider(w, v) && Fits(n, c)
    ensures var p := Plan(w, n, c, m, sc);
            p == Plan(v, n, c, m, sc) || (p.Raise? && IsLimit(p.fault))
  {
    hide FinishCommand, FoldArith, Lookup, Defined, BindParams, Holds, Accept;
  }

  lemma {:induction false} EvalTruncates(w: World, v: World, n: Node, m: Machine, sc: Scope)
    requires Wider(w, v)
    ensures Truncates(Eval(w, n, m, sc), Eval(v, n, m, sc))
    decreases Remaining(w, m), n, 9, 0, 0
  {
    hide Run, Highlightable;
    EvalGrows(v, n, m, sc);
    if m.status.Running? && !w.host.cancel(m.polls, m.trace) {
      var polled := m.(polls := m.polls + 1);
      if !Highlightable(n.kind) {
        RunTruncates(w, v, n, Begin(n.kind), polled, sc);
      } else if m.steps < w.limits.maxTotalSteps {
        RunTruncates(w, v, n, Begin(n.kind), polled.(steps := m.steps + 1, trace := m.trace + [NodeStart(n)]), sc);
      }
    }
  }

  lemma {:induction false} RunTruncates(w: World, v: World, n: Node, c: Ctl, m: Machine, sc: Scope)
    requires Wider(w, v) && Fits(n, c)
    ensures Truncates(Run(w, n, c, m, sc), Run(v, n, c, m, sc))
    decreases Remaining(w, m) + Weight(n), n, Stage(c), Left(c), Todo(n, c)
  {
    hide Plan, Feed, Fits, Eval, Applied, Stage, Left, Todo, Highlightable;
    PlanSensible(w, n, c, m, sc);
    PlanTruncates(w, v, n, c, m, sc);
    RunGrows(v, n, c, m, sc);
    match Plan(w, n, c, m, sc)
    case Return(_) =>
    case Raise(_) =>
    case Wrong =>
    case Visit(child) =>
      EvalTruncates(w, v, child, m, sc);
      var r := Eval(w, child, m, sc);
      FeedSensible(n, c, r.v);
      if r.m.status.Running? { RunTruncates(w, v, n, Feed(n, c, r.v), r.m, r.sc); }
      else { VisitGrows(v, n, c, m, sc, child); }
    case Body(child) =>
      BodySensible(n, c, c.frame, c.last);
      EvalTruncates(w, v, child, m, Local(c.frame));
      var r := Eval(w, child, m, Local(c.frame));
      BodySensible(n, c, r.sc.vars, r.v);
      if r.m.status.Running? { RunTruncates(w, v, n, Callee(c.fn, c.i + 1, r.sc.vars, r.v), r.m, sc); }
      else { BodyGrows(v, n, c, m, sc, child); }
    case Perform(e, next) =>
      AppliedGrows(e, m, sc);
      RunTruncates(w, v, n, next, Applied(e, m, sc).0, Applied(e, m, sc).1);
  }

  // ---- whole runs ------------------------------------------------------------------------

  /** The entries that end a trace cut short: the safety stop and the program error,
      after the failing node's error if there is one. */
  predicate IsCutTail(error: Status, tail: Trace) {
    match error
    case Cancelled => tail == [Act(StopMotors), ProgramError(RunCancelled)]
    case Errored(span, fault) =>
      && |tail| == 3
      && tail[0].NodeError? && tail[0].fault == fault && tail[0].node.span == span
      && tail[1..] == [Act(StopMotors), ProgramError(RunFailed(fault))]
    case _ => false
  }

  /** Limits and cancellation only truncate. Whatever a wider world (larger limits, a
      cancel flag raised later or never) makes of the program, the narrower run is
      either the very same run, or it was cut by a limit or by cancellation and its
      trace without the closing entries is a prefix of the wider run's trace. */
  lemma LimitsAndCancelOnlyTruncate(host: Host, limits: Limits, host': Host, limits': Limits, root: Node)
    requires Wider(World(host, limits, Functions(root)), World(host', limits', Functions(root)))
    ensures var r, s := Execute(host, limits, root), Execute(host', limits', root);
            || r == s
            || (Cut(r.error) && exists k :: 0 <= k <= |r.trace| && IsCutTail(r.error, r.trace[k..]) && r.trace[..k] <= s.trace)
  {
    hide Eval, Functions;
    var w, v := World(host, limits, Functions(root)), World(host', limits', Functions(root));
    EvalTruncates(w, v, root, START, Top);
    EvalGrows(w, root, START, Top);
    var m, m' := Eval(w, root, START, Top).m, Eval(v, root, START, Top).m;
    if m != m' {
      var r, s := Execute(host, limits, root), Execute(host', limits', root);
      var k := |Kept(m)|;
      assert r.trace[..k] == Kept(m) <= m'.trace <= s.trace;
      assert r.trace[k..] == m.trace[k..] + r.trace[|m.trace|..];
    }
  }

  /** A run that no limit and no cancellation ended is the same run under any larger limits. */
  lemma UncutRunsAgree(host: Host, limits: Limits, host': Host, limits': Limits, root: Node)
    requires Wider(World(host, limits, Functions(root)), World(host', limits', Functions(root)))
    requires !Cut(Execute(host, limits, root).error)
    ensures Execute(host, limits, root) == Execute(host', limits', root)
  {
    LimitsAndCancelOnlyTruncate(host, limits, host', limits', root);
  }
}
