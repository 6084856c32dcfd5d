// The two checks of the step limit (src/engine.cpp:173-174, 336-338): which node the error is
// about, and whether that node had been started.

module StepLimits {
  import opened Ast
  import opened Semantics
  import opened Growth
  import opened Truncation
  import opened TraceGrammar
  import opened TraceTheorems
  import opened Bounds
  import opened Blame
  import opened Safety
  import opened Tree

  predicate StepLimited(m: Machine) { m.status.Errored? && m.status.fault == StepLimit && m.trace != [] && Last(m.trace).NodeError? }

  /** The node that the last entry is about, and the nodes then open. */
  function Blamed(t: Trace): Node
    requires t != [] && Last(t).NodeError?
  {
    Last(t).node
  }

  function OpenBefore(t: Trace): seq<Node>
    requires t != []
  {
    var p := Scan(t[..|t| - 1]);
    if p.Live? then p.open else []
  }

  /** The blamed node was going round as a loop, or else `t` goes on with its start instead. */
  ghost predicate GoesOn(m: Machine, t: Trace)
    requires StepLimited(m)
  {
    || GoingRound(OpenBefore(m.trace), Blamed(m.trace))
    || m.trace[..|m.trace| - 1] + [NodeStart(Blamed(m.trace))] <= t
  }

  /** What `EvalGoesOn` and `RunGoesOn` say of a machine. */
  ghost predicate Continues(m: Machine, t: Trace) {
    StepLimited(m) ==> GoesOn(m, t)
  }

  lemma ContinuesUp(m: Machine, m': Machine, t: Trace, t': Trace)
    requires Continues(m, t) && t <= t' && m.trace == m'.trace && m.status == m'.status
    ensures Continues(m', t')
  {
    hide Scan, Step, GoingRound;
  }

  lemma NotLimited(m: Machine, t: Trace)
    requires !m.status.Errored? || m.status.fault != StepLimit
    ensures Continues(m, t)
  {
  }

  /** `v` allows more steps than `w`, and otherwise at least as much. */
  ghost predicate MoreSteps(w: World, v: World) {
    Wider(w, v) && w.limits.maxTotalSteps < v.limits.maxTotalSteps
  }

  lemma {:induction false} EvalGoesOn(w: World, v: World, n: Node, m: Machine, sc: Scope, open: seq<Node>)
    requires MoreSteps(w, v) && Counted(w, m)
    requires m.status.Running? && Scan(m.trace) == Live(open, false) && Quiet(open) && Next(open, n)
    ensures Continues(Eval(w, n, m, sc).m, Eval(v, n, m, sc).m.trace)
    decreases Remaining(w, m), n, 9, 0, 0
  {
    hide Run, Scan, Step, Reaches, Starts;
    var polled := m.(polls := m.polls + 1);
    if w.host.cancel(m.polls, m.trace) {
    } else if !Highlightable(n.kind) {
      RunGoesOn(w, v, n, Begin(n.kind), polled, sc, open);
    } else {
      var begun := polled.(steps := m.steps + 1, trace := m.trace + [NodeStart(n)]);
      if m.steps >= w.limits.maxTotalSteps {
        StartGoesOn(w, v, n, m, sc);
      } else {
        StartScans(m.trace, open, n);
        StartsPush(m.trace, NodeStart(n));
        RunGoesOn(w, v, n, Begin(n.kind), begun, sc, open + [n]);
      }
    }
  }

  /** The first check: the node starts where more steps are allowed. */
  lemma {:induction false} StartGoesOn(w: World, v: World, n: Node, m: Machine, sc: Scope)
    requires MoreSteps(w, v) && m.status.Running? && Highlightable(n.kind) && !w.host.cancel(m.polls, m.trace)
    requires m.steps == w.limits.maxTotalSteps
    ensures var r := Eval(w, n, m, sc).m; StepLimited(r) && GoesOn(r, Eval(v, n, m, sc).m.trace)
  {
    hide Run, Scan, Highlightable;
    var begun := m.(polls := m.polls + 1, steps := m.steps + 1, trace := m.trace + [NodeStart(n)]);
    RunGrows(v, n, Begin(n.kind), begun, sc);
    var t := m.trace + [NodeError(n, StepLimit)];
    assert t[..|t| - 1] == m.trace;
  }

  lemma {:induction false} RunGoesOn(w: World, v: World, n: Node, c: Ctl, m: Machine, sc: Scope, open: seq<Node>)
    requires MoreSteps(w, v) && Counted(w, m)
    requires m.status.Running? && Fits(n, c) && Fair(n, c) && Inside(n, open)
    requires Scan(m.trace) == Live(open, Acts(n.kind) && c.Finished?)
    ensures Continues(Run(w, n, c, m, sc).m, Run(v, n, c, m, sc).m.trace)
    decreases Remaining(w, m) + Weight(n), n, Stage(c), Left(c), Todo(n, c)
  {
    hide Plan, Feed, Fits, Eval, Applied, Stage, Left, Todo, Highlightable, Scan, Acts, Quiet, Inside, Next, Fair, Starts, Continues;
    PlanSensible(w, n, c, m, sc);
    FairMoves(w, n, c, m, sc);
    PlanScans(w, n, c, m, sc, open);
    PlanTruncates(w, v, n, c, m, sc);
    match Plan(w, n, c, m, sc)
    case Return(_) => NotLimited(m, Run(v, n, c, m, sc).m.trace);
    case Raise(fault) =>
      if fault == StepLimit { RoundGoesOn(w, n, c, m, sc, open, Run(v, n, c, m, sc).m.trace); }
      else { NotLimited(FailAt(m, n, fault), Run(v, n, c, m, sc).m.trace); }
    case Wrong => NotLimited(m.(status := Stuck), Run(v, n, c, m, sc).m.trace);
    case Visit(child) =>
      PartIsNext(n, open, child);
      EvalScans(w, child, m, sc, open);
      EvalCounts(w, child, m, sc);
      EvalGoesOn(w, v, child, m, sc, open);
      EvalTruncates(w, v, child, m, sc);
      VisitGrows(v, n, c, m, sc, child);
      var r := Eval(w, child, m, sc);
      FeedSensible(n, c, r.v);
      FairFeed(n, c, r.v);
      if Acts(n.kind) { FeedProper(n, c, r.v); }
      if r.m.status.Running? { RunGoesOn(w, v, n, Feed(n, c, r.v), r.m, r.sc, open); }
      else { ContinuesUp(r.m, r.m, Eval(v, child, m, sc).m.trace, Run(v, n, c, m, sc).m.trace); }
    case Body(child) =>
      BodySensible(n, c, c.frame, c.last);
      BodyIsNext(n, open, child);
      EvalScans(w, child, m, Local(c.frame), open);
      EvalCounts(w, child, m, Local(c.frame));
      EvalGoesOn(w, v, child, m, Local(c.frame), open);
      EvalTruncates(w, v, child, m, Local(c.frame));
      BodyGrows(v, n, c, m, sc, child);
      var r := Eval(w, child, m, Local(c.frame));
      BodySensible(n, c, r.sc.vars, r.v);
      FairCallee(n, c, r.sc.vars, r.v);
      if r.m.status.Running? { RunGoesOn(w, v, n, Callee(c.fn, c.i + 1, r.sc.vars, r.v), r.m, sc, open); }
      else { ContinuesUp(r.m, r.m.(depth := r.m.depth - 1), Eval(v, child, m, Local(c.frame)).m.trace, Run(v, n, c, m, sc).m.trace); }
    case Perform(e, next) =>
      AppliedGrows(e, m, sc);
      AppliedCounts(w, e, m, sc);
      RunGoesOn(w, v, n, next, Applied(e, m, sc).0, Applied(e, m, sc).1, open);
  }

  /** The second check: a loop that is the innermost open node. */
  lemma {:induction false} RoundGoesOn(w: World, n: Node, c: Ctl, m: Machine, sc: Scope, open: seq<Node>, next: Trace)
    requires Fits(n, c) && Fair(n, c) && Inside(n, open) && Scan(m.trace) == Live(open, Acts(n.kind) && c.Finished?)
    requires Plan(w, n, c, m, sc) == Raise(StepLimit)
    ensures Continues(FailAt(m, n, StepLimit), next)
  {
    hide Plan, Scan, Reaches;
    PlanProper(w, n, c, m, sc);
    var t := FailAt(m, n, StepLimit).trace;
    assert t[..|t| - 1] == m.trace;
  }

  // ---- whole runs ------------------------------------------------------------------------------------

  /** The entry that reports a failure, and the nodes open before it. */
  ghost predicate FailsAt(o: Outcome, k: nat, n: Node, fault: Fault, open: seq<Node>) {
    && k == |o.trace| - 3 && o.trace[k] == NodeError(n, fault)
    && Scan(o.trace[..k]) == Live(open, false)
  }

  lemma {:induction false} FailurePoint(host: Host, limits: Limits, root: Node) returns (k: nat, n: Node, open: seq<Node>)
    requires Execute(host, limits, root).error.Errored?
    ensures FailsAt(Execute(host, limits, root), k, n, Execute(host, limits, root).error.fault, open)
    ensures Blames(open, n, Execute(host, limits, root).error.fault)
  {
    hide Execute, Scan, Blames;
    var o := Execute(host, limits, root);
    RunsAreWords(host, limits, root);
    RunsAreWellShaped(host, limits, root);
    k := |o.trace| - 3;
    n := o.trace[k].node;
    AcceptedAt(o.trace, k);
    open := Scan(o.trace[..k]).open;
  }

  /** Every fault except the step limit is that of a started node, or of a node without a start;
      the step limit blames a highlightable node, which is either the innermost open node, a while,
      or the next to start, and never both. */
  lemma {:induction false} StepLimitBlames(host: Host, limits: Limits, root: Node) returns (k: nat, n: Node, open: seq<Node>)
    requires Execute(host, limits, root).error.Errored?
    ensures var fault := Execute(host, limits, root).error.fault;
            && FailsAt(Execute(host, limits, root), k, n, fault, open)
            && (fault == StepLimit ==> Highlightable(n.kind) && (GoingRound(open, n) <==> !Next(open, n)))
            && (fault != StepLimit && Highlightable(n.kind) ==> open != [] && Newest(open) == n)
  {
    hide Execute, Scan, Reaches;
    k, n, open := FailurePoint(host, limits, root);
    if GoingRound(open, n) { LoopIsNotNext(open, n); }
  }

  lemma LoopIsNotNext(open: seq<Node>, n: Node)
    requires GoingRound(open, n)
    ensures !Next(open, n)
  {
    if Reaches(n, n) { NoneReachesItself(n, n); }
  }

  /** A failed run ends with the failure that its machine reports. */
  lemma {:induction false} FailedTrace(host: Host, limits: Limits, root: Node)
    requires Execute(host, limits, root).error.Errored?
    ensures var m := Eval(World(host, limits, Functions(root)), root, START, Top).m; var t := Execute(host, limits, root).trace;
            && |t| >= 3 && m.trace == t[..|t| - 2] && m.trace != [] && Last(m.trace).NodeError?
            && m.status == Execute(host, limits, root).error
  {
    hide Eval, Functions;
    var w := World(host, limits, Functions(root));
    EvalGrows(w, root, START, Top);
    var m := Eval(w, root, START, Top).m;
    var t := Execute(host, limits, root).trace;
    assert t == m.trace + [Act(StopMotors), ProgramError(RunFailed(m.status.fault))];
    assert t[..|t| - 2] == m.trace;
  }

  /** Whether the node that the step limit stops had been started. Allowed one more step, the run
      goes on from the same point, and it goes on with the start of that node exactly when the node
      was not the innermost open one, a while about to go round. */
  lemma {:induction false} StartedExactlyWhenGoingRound(host: Host, limits: Limits, root: Node) returns (k: nat, n: Node, open: seq<Node>)
    requires Execute(host, limits, root).error.Errored? && Execute(host, limits, root).error.fault == StepLimit
    requires !Execute(host, limits.(maxTotalSteps := limits.maxTotalSteps + 1), root).error.Stuck?
    ensures FailsAt(Execute(host, limits, root), k, n, StepLimit, open)
    ensures var t, s := Execute(host, limits, root).trace, Execute(host, limits.(maxTotalSteps := limits.maxTotalSteps + 1), root).trace;
            && t[..k] <= s && k < |s|
            && (s[k] == NodeStart(n) <==> !GoingRound(open, n))
  {
    hide Eval, Functions, Scan, Reaches, Step, Starts;
    var more := limits.(maxTotalSteps := limits.maxTotalSteps + 1);
    k, n, open := FailurePoint(host, limits, root);
    FailedTrace(host, limits, root);
    var w, v := World(host, limits, Functions(root)), World(host, more, Functions(root));
    var m, m' := Eval(w, root, START, Top).m, Eval(v, root, START, Top).m;
    var t, s := Execute(host, limits, root).trace, Execute(host, more, root).trace;
    assert m.trace[..k] == t[..k];
    EvalTruncates(w, v, root, START, Top);
    StartIsReady();
    EvalGoesOn(w, v, root, START, Top, []);
    LongerByOne(host, more, root);
    StepLimitKept(m, m', t[..k]);
    assert t[..k] <= m'.trace <= s;
    if GoingRound(open, n) {
      LoopIsNotNext(open, n);
      RunsAreWords(host, more, root);
      AcceptedAt(s, k);
      assert s[..k] == t[..k];
      NoStart(open, n);
    }
  }

  lemma StepLimitKept(m: Machine, m': Machine, t: Trace)
    requires StepLimited(m) && t == m.trace[..|m.trace| - 1]
    requires Kept(m) <= m'.trace || m == m'
    ensures t <= m'.trace
  {
  }

  lemma NoStart(open: seq<Node>, n: Node)
    requires !Next(open, n)
    ensures Step(Live(open, false), NodeStart(n)) == Rejected
  {
    hide Reaches;
  }

  lemma StartIsReady()
    ensures Scan(START.trace) == Live([], false) && Starts(START.trace) == 0
  {
  }

  /** A run adds at least one entry to what its machine has recorded. */
  lemma LongerByOne(host: Host, limits: Limits, root: Node)
    requires !Execute(host, limits, root).error.Stuck?
    ensures var m := Eval(World(host, limits, Functions(root)), root, START, Top).m;
            m.trace <= Execute(host, limits, root).trace && |m.trace| < |Execute(host, limits, root).trace|
  {
    hide Eval, Functions;
  }

  /** Without a while no started node is ever blamed for the step limit: the blamed node was next, and
      it is what the run starts there if allowed one more step. */
  lemma {:induction false} NoLoopNoRound(host: Host, limits: Limits, root: Node) returns (k: nat, n: Node)
    requires WellFormed(Functions(root), Nodes(root)) && forall d :: d in Nodes(root) ==> d.kind != While
    requires Execute(host, limits, root).error.Errored? && Execute(host, limits, root).error.fault == StepLimit
    ensures var t, s := Execute(host, limits, root).trace, Execute(host, limits.(maxTotalSteps := limits.maxTotalSteps + 1), root).trace;
            && k == |t| - 3 && t[k] == NodeError(n, StepLimit) && t[..k] <= s && k < |s| && s[k] == NodeStart(n)
  {
    hide Execute, Functions, Nodes, Scan, Reaches;
    var more := limits.(maxTotalSteps := limits.maxTotalSteps + 1);
    WellFormedRunsAreSafe(host, more, root);
    WellFormedRunsAreSafe(host, limits, root);
    var open: seq<Node>;
    k, n, open := StartedExactlyWhenGoingRound(host, limits, root);
    assert Legit(World(host, limits, Functions(root)), Nodes(root), Execute(host, limits, root).trace[k]);
  }

  /** With a single step, a while at the root is started and then blamed for the step limit: the
      step was spent on its own start. */
  lemma {:induction false} StartedLoopIsBlamed(host: Host, limits: Limits, n: Node)
    requires n.kind == While && limits.maxTotalSteps == 1 && !host.cancel(0, [ProgramStart])
    ensures Execute(host, limits, n).trace
         == [ProgramStart, NodeStart(n), NodeError(n, StepLimit), Act(StopMotors), ProgramError(RunFailed(StepLimit))]
  {
    hide Functions;
    var w := World(host, limits, Functions(n));
    var begun := START.(polls := 1, steps := 1, trace := [ProgramStart] + [NodeStart(n)]);
    assert Plan(w, n, LoopHead, begun, Top) == Raise(StepLimit);
    assert Run(w, n, LoopHead, begun, Top) == Out(NoneV, FailAt(begun, n, StepLimit), Top);
    assert Eval(w, n, START, Top) == Run(w, n, LoopHead, begun, Top);
  }

  /** With no step at all, the same loop is blamed without being started. */
  lemma {:induction false} UnstartedLoopIsBlamed(host: Host, limits: Limits, n: Node)
    requires n.kind == While && limits.maxTotalSteps == 0 && !host.cancel(0, [ProgramStart])
    ensures Execute(host, limits, n).trace
         == [ProgramStart, NodeError(n, StepLimit), Act(StopMotors), ProgramError(RunFailed(StepLimit))]
  {
    hide Functions, Run;
    var w := World(host, limits, Functions(n));
    assert Eval(w, n, START, Top) == Out(NoneV, FailAt(START.(polls := 1), n, StepLimit), Top);
  }
}
