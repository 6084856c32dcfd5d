// What every evaluation keeps, whatever the node, the host and the limits
// (src/engine.cpp:326-349).

module Growth {
  import opened Ast
  import opened Semantics

  /** A failed machine has just reported its fault. */
  predicate Reported(m: Machine) {
    m.status.Errored? ==>
      && m.trace != []
      && m.trace[|m.trace| - 1].NodeError?
      && m.trace[|m.trace| - 1].fault == m.status.fault
      && m.trace[|m.trace| - 1].node.span == m.status.span
  }

  /** A run never takes back an event or a host call it has made, it leaves the call
      depth as it found it on every exit, and a failure is reported last. */
  lemma {:induction false} EvalGrows(w: World, n: Node, m: Machine, sc: Scope)
    ensures m.trace <= Eval(w, n, m, sc).m.trace
    ensures Eval(w, n, m, sc).m.depth == m.depth
    ensures Reported(m) ==> Reported(Eval(w, n, m, sc).m)
    decreases Remaining(w, m), n, 9, 0, 0
  {
    hide Run, Highlightable;
    if m.status.Running? && !w.host.cancel(m.polls, m.trace) {
      var polled := m.(polls := m.polls + 1);
      if !Highlightable(n.kind) {
        RunGrows(w, n, Begin(n.kind), polled, sc);
      } else if m.steps < w.limits.maxTotalSteps {
        RunGrows(w, n, Begin(n.kind), polled.(steps := m.steps + 1, trace := m.trace + [NodeStart(n)]), sc);
      }
    }
  }

  /** The call depth on entry, seen from inside control state `c`. */
  function OuterDepth(c: Ctl, m: Machine): int { if c.Callee? then m.depth - 1 else m.depth }

  lemma {:induction false} RunGrows(w: World, n: Node, c: Ctl, m: Machine, sc: Scope)
    requires Fits(n, c)
    ensures m.trace <= Run(w, n, c, m, sc).m.trace
    ensures Run(w, n, c, m, sc).m.depth == OuterDepth(c, m)
    ensures m.status.Running? ==> Reported(Run(w, n, c, m, sc).m)
    decreases Remaining(w, m) + Weight(n), n, Stage(c), Left(c), Todo(n, c)
  {
    hide Plan, Feed, Fits, Eval, Applied, Stage, Left, Todo, Highlightable;
    PlanSensible(w, n, c, m, sc);
    match Plan(w, n, c, m, sc)
    case Return(v) =>
    case Raise(fault) =>
    case Wrong =>
    case Visit(child) =>
      EvalGrows(w, child, m, sc);
      var r := Eval(w, child, m, sc);
      FeedSensible(n, c, r.v);
      if r.m.status.Running? { RunGrows(w, n, Feed(n, c, r.v), r.m, r.sc); }
    case Body(child) =>
      BodySensible(n, c, c.frame, c.last);
      EvalGrows(w, child, m, Local(c.frame));
      var r := Eval(w, child, m, Local(c.frame));
      BodySensible(n, c, r.sc.vars, r.v);
      if r.m.status.Running? { RunGrows(w, n, Callee(c.fn, c.i + 1, r.sc.vars, r.v), r.m, sc); }
    case Perform(e, next) =>
      AppliedGrows(e, m, sc);
      RunGrows(w, n, next, Applied(e, m, sc).0, Applied(e, m, sc).1);
  }

  lemma VisitGrows(w: World, n: Node, c: Ctl, m: Machine, sc: Scope, child: Node)
    requires Fits(n, c) && Plan(w, n, c, m, sc) == Visit(child)
    ensures Eval(w, child, m, sc).m.trace <= Run(w, n, c, m, sc).m.trace
  {
    hide Plan, Feed, Fits, Eval, Applied, Stage, Left, Todo, Highlightable;
    PlanSensible(w, n, c, m, sc);
    var r := Eval(w, child, m, sc);
    FeedSensible(n, c, r.v);
    if r.m.status.Running? { RunGrows(w, n, Feed(n, c, r.v), r.m, r.sc); }
  }

  lemma BodyGrows(w: World, n: Node, c: Ctl, m: Machine, sc: Scope, child: Node)
    requires Fits(n, c) && Plan(w, n, c, m, sc) == Body(child)
    ensures c.Callee? && Eval(w, child, m, Local(c.frame)).m.trace <= Run(w, n, c, m, sc).m.trace
  {
    hide Plan, Feed, Fits, Eval, Applied, Stage, Left, Todo, Highlightable;
    PlanSensible(w, n, c, m, sc);
    var r := Eval(w, child, m, Local(c.frame));
    BodySensible(n, c, r.sc.vars, r.v);
    if r.m.status.Running? { RunGrows(w, n, Callee(c.fn, c.i + 1, r.sc.vars, r.v), r.m, sc); }
  }
}
