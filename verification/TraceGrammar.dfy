// The language of traces: every run, seen as the interleaved record of its events
// and host calls, is accepted by one small automaton (src/engine.cpp:43-54, 119-382).

module TraceGrammar {
  import opened Ast
  import opened Semantics

  /** Where a trace has got to. While the program is live, `open` holds the nodes that
      have started and not finished, outermost first, and `acted` says that the
      innermost one has made its host call. */
  datatype Phase =
    | Idle
    | Live(open: seq<Node>, acted: bool)
    | Failed(open: seq<Node>, fault: Fault)
    | Stopping(cause: Cause)
    | Over(success: bool)
    | Rejected

  predicate Acts(kind: Kind) { IsCommand(kind) || IsSensor(kind) }

  /** The command belongs to a node of this kind, and its arguments are in range. */
  predicate Issues(kind: Kind, command: Command) {
    match command
    case DriveForward(speed, ms) => kind == Drive && 0 <= speed <= 100 && 0 <= ms <= 10000
    case DriveBackward(speed, ms) => kind == Backward && 0 <= speed <= 100 && 0 <= ms <= 10000
    case TurnLeftBy(degrees) => kind == TurnLeft && 0 <= degrees <= 3600
    case TurnRightBy(degrees) => kind == TurnRight && 0 <= degrees <= 3600
    case StopMotors => kind == Stop
    case WaitMs(ms) => kind == Wait && 0 <= ms <= 10000
    case SetLight(_) => kind == Light
    case BeepOnce => kind == Beep
  }

  /** `n` reports that it does not run `child`: a body statement of a when, a branch of an if. */
  predicate MaySkip(n: Node, child: Node) {
    (n.kind == When && child in n.children) || (n.kind == If && child in n.args)
  }

  function Newest(open: seq<Node>): Node
    requires open != []
  {
    open[|open| - 1]
  }

  /** A stop command can only be the safety stop: no stop node is waiting to issue it. */
  predicate Quiet(open: seq<Node>) {
    open == [] || Newest(open).kind != Stop
  }

  /** `p` may evaluate `n` with no event in between: `n` is one of its parts, or a part of parts
      that have no events of their own. What a call evaluates is not below it in the tree. */
  predicate Reaches(p: Node, n: Node)
    decreases p, 0
  {
    || p.kind == Call
    || (exists i :: 0 <= i < |p.args| && Leads(p.args[i], n))
    || (exists i :: 0 <= i < |p.children| && Leads(p.children[i], n))
  }

  predicate Leads(c: Node, n: Node)
    decreases c, 1
  {
    c == n || (!Highlightable(c.kind) && Reaches(c, n))
  }

  /** `n` can be the next node evaluated: the root, or in reach of the innermost open node. */
  predicate Next(open: seq<Node>, n: Node) {
    open == [] || Reaches(Newest(open), n)
  }

  /** The kinds of nodes that fail with a fault. */
  predicate Raises(kind: Kind, fault: Fault) {
    match fault
    case StepLimit => Highlightable(kind)
    case RepeatLimit | NegativeRepeat => kind == Repeat
    case DepthLimit | UndefinedFunction => kind == Call
    case ExpectedInteger =>
      kind == Repeat || kind == Drive || kind == Backward || kind == TurnLeft || kind == TurnRight || kind == Wait
    case ExpectedColor => kind == Light
    case SpeedRange => kind == Drive || kind == Backward
    case DurationRange => kind == Drive || kind == Backward || kind == Wait
    case DegreesRange => kind == TurnLeft || kind == TurnRight
    case UndefinedVariable => kind == VarRef
    case SetUndefined => kind == SetVar
    case CompareOperands => kind == Compare
    case ArithmeticOperands | DivisionByZero => kind == Arithmetic
  }

  /** The step limit stops a node that was about to start, or a while loop that has started and
      is about to go round. Any other fault is that of the innermost open node, or of a node
      without events of its own that it was evaluating. */
  predicate Blames(open: seq<Node>, n: Node, fault: Fault) {
    && Raises(n.kind, fault)
    && if fault == StepLimit then GoingRound(open, n) || Next(open, n)
       else if Highlightable(n.kind) then open != [] && Newest(open) == n
       else Next(open, n)
  }

  predicate GoingRound(open: seq<Node>, n: Node) {
    open != [] && Newest(open) == n && n.kind == While
  }

  function Step(p: Phase, item: Item): Phase {
    match p
    case Idle => if item.ProgramStart? then Live([], false) else Rejected
    case Live(open, acted) =>
      (match item
       case NodeStart(n) =>
         if !acted && Highlightable(n.kind) && Next(open, n) then Live(open + [n], false) else Rejected
       case NodeDone(n) =>
         if open != [] && Newest(open) == n && acted == Acts(n.kind) then Live(open[..|open| - 1], false)
         else Rejected
       case NodeSkipped(child) =>
         if !acted && open != [] && MaySkip(Newest(open), child) then p else Rejected
       case NodeError(n, fault) =>
         if !acted && Blames(open, n, fault) then Failed(open, fault) else Rejected
       case Act(command) =>
         if !acted && open != [] && Issues(Newest(open).kind, command) then Live(open, true)
         else if !acted && command == StopMotors && Quiet(open) then Stopping(RunCancelled)
         else Rejected
       case Sensed(sensor, _) =>
         if !acted && open != [] && Newest(open).kind == sensor && IsSensor(sensor) then Live(open, true)
         else Rejected
       case ProgramDone => if open == [] && !acted then Over(true) else Rejected
       case _ => Rejected)
    case Failed(open, fault) => if item == Act(StopMotors) then Stopping(RunFailed(fault)) else Rejected
    case Stopping(cause) => if item == ProgramError(cause) then Over(false) else Rejected
    case Over(_) => Rejected
    case Rejected => Rejected
  }

  function Scan(t: Trace): Phase {
    if t == [] then Idle else Step(Scan(t[..|t| - 1]), t[|t| - 1])
  }

  lemma ScanPush(t: Trace, item: Item)
    ensures Scan(t + [item]) == Step(Scan(t), item)
  {
    assert (t + [item])[..|t|] == t;
  }

  // ---- every evaluation stays inside the language ------------------------------------------

  /** Where an evaluation that began with `open` nodes leaves the trace. */
  predicate Ends(m: Machine, open: seq<Node>, acted: bool) {
    match m.status
    case Running => Scan(m.trace) == Live(open, acted)
    case Cancelled => Scan(m.trace).Live? && open <= Scan(m.trace).open && !Scan(m.trace).acted && Quiet(Scan(m.trace).open)
    case Errored(_, fault) => Scan(m.trace).Failed? && open <= Scan(m.trace).open && Scan(m.trace).fault == fault
    case Stuck => true
  }

  /** The node being run is the innermost open one, if it is announced at all. */
  predicate Inside(n: Node, open: seq<Node>) {
    if Highlightable(n.kind) then open != [] && Newest(open) == n else Quiet(open) && Next(open, n)
  }

  /** The parts of a node in reach are in reach, if the node has no events of its own. */
  lemma {:induction false} ReachesOn(p: Node, n: Node, child: Node)
    requires Reaches(p, n) && !Highlightable(n.kind) && (child in n.args || child in n.children)
    ensures Reaches(p, child)
    decreases p
  {
    hide Highlightable;
    ReachesPart(n, child);
    if p.kind != Call {
      if i :| 0 <= i < |p.args| && Leads(p.args[i], n) {
        if p.args[i] != n { ReachesOn(p.args[i], n, child); }
        assert Leads(p.args[i], child);
      } else {
        var i :| 0 <= i < |p.children| && Leads(p.children[i], n);
        if p.children[i] != n { ReachesOn(p.children[i], n, child); }
        assert Leads(p.children[i], child);
      }
    }
  }

  lemma ReachesPart(n: Node, child: Node)
    requires child in n.args || child in n.children
    ensures Reaches(n, child)
  {
    if child in n.args {
      var i :| 0 <= i < |n.args| && n.args[i] == child;
      assert Leads(n.args[i], child);
    } else {
      var i :| 0 <= i < |n.children| && n.children[i] == child;
      assert Leads(n.children[i], child);
    }
  }

  /** Only a call can be in reach of itself. */
  lemma {:induction false} NoneReachesItself(p: Node, n: Node)
    requires Reaches(p, n) && p.kind != Call
    ensures n < p
    decreases p
  {
    hide Highlightable;
    if i :| 0 <= i < |p.args| && Leads(p.args[i], n) {
      if p.args[i] != n { CallIsLoud(p.args[i]); NoneReachesItself(p.args[i], n); }
    } else {
      var i :| 0 <= i < |p.children| && Leads(p.children[i], n);
      if p.children[i] != n { CallIsLoud(p.children[i]); NoneReachesItself(p.children[i], n); }
    }
  }

  lemma CallIsLoud(n: Node)
    requires !Highlightable(n.kind)
    ensures n.kind != Call
  {
  }

  /** Of a node being run, the parts can be evaluated next. */
  lemma {:induction false} PartIsNext(n: Node, open: seq<Node>, child: Node)
    requires Inside(n, open) && (child in n.args || child in n.children)
    ensures Next(open, child)
  {
    hide Highlightable;
    if Highlightable(n.kind) { ReachesPart(n, child); } else if open != [] { ReachesOn(Newest(open), n, child); }
  }

  /** What a node does to the outside world, by kind. */
  predicate Proper(n: Node, c: Ctl, move: Move) {
    match move
    case Return(_) => Acts(n.kind) ==> c.Finished?
    case Raise(fault) => !c.Finished? && Raises(n.kind, fault) && (fault == StepLimit ==> n.kind == While)
    case Wrong => true
    case Visit(_) => !c.Finished? && n.kind != Stop
    case Body(_) => n.kind == Call
    case Perform(Emit(command), next) => !c.Finished? && next.Finished? && IsCommand(n.kind) && Issues(n.kind, command)
    case Perform(Read(sensor, _), next) => !c.Finished? && next.Finished? && sensor == n.kind && IsSensor(n.kind)
    case Perform(Skip(child), _) => MaySkip(n, child)
    case Perform(_, _) => !Acts(n.kind)
  }

  lemma FinishProper(w: World, n: Node, vals: seq<Value>, m: Machine, sc: Scope)
    requires |vals| == Wanted(n)
    ensures Proper(n, Operands(vals), Finish(w, n, vals, m, sc))
  {
    hide Reading, FoldArith, Lookup, Defined, BindParams, Holds;
  }

  /** A node that an operand has made fail, fails with a fault of its kind. */
  predicate Fair(n: Node, c: Ctl) {
    c.Failing? ==>
      && Raises(n.kind, c.fault)
      && (c.fault == ExpectedInteger || c.fault == ArithmeticOperands || c.fault == DivisionByZero)
  }

  lemma FairMoves(w: World, n: Node, c: Ctl, m: Machine, sc: Scope)
    requires Fits(n, c)
    ensures var move := Plan(w, n, c, m, sc); move.Perform? ==> Fair(n, move.next)
  {
    hide Finish;
    if c.Operands? && |c.vals| == Wanted(n) { FairFinish(w, n, c.vals, m, sc); }
  }

  lemma FairFinish(w: World, n: Node, vals: seq<Value>, m: Machine, sc: Scope)
    requires |vals| == Wanted(n)
    ensures var move := Finish(w, n, vals, m, sc); move.Perform? ==> !move.next.Failing?
  {
    hide Reading, FoldArith, Lookup, Defined, BindParams, Holds;
  }

  lemma FairFeed(n: Node, c: Ctl, v: Value)
    ensures Fair(n, Feed(n, c, v))
  {
  }

  lemma PlanProper(w: World, n: Node, c: Ctl, m: Machine, sc: Scope)
    requires Fits(n, c) && Fair(n, c)
    ensures Proper(n, c, Plan(w, n, c, m, sc))
  {
    hide Finish;
    if c.Operands? && |c.vals| == Wanted(n) { FinishProper(w, n, c.vals, m, sc); }
  }

  /** A command or sensor node is never finished by an operand's value. */
  lemma FeedProper(n: Node, c: Ctl, v: Value)
    requires Waiting(n, c) && Fits(n, c) && Acts(n.kind)
    ensures !Feed(n, c, v).Finished?
  {
  }

  lemma PlanScans(w: World, n: Node, c: Ctl, m: Machine, sc: Scope, open: seq<Node>)
    requires Fits(n, c) && Fair(n, c) && Inside(n, open)
    requires Scan(m.trace) == Live(open, Acts(n.kind) && c.Finished?)
    ensures match Plan(w, n, c, m, sc)
            case Return(_) => Acts(n.kind) ==> c.Finished?
            case Raise(fault) => Scan(FailAt(m, n, fault).trace) == Failed(open, fault)
            case Wrong => true
            case Visit(_) => Quiet(open) && !c.Finished?
            case Body(_) => Quiet(open) && !Acts(n.kind)
            case Perform(e, next) =>
              Scan(Applied(e, m, sc).0.trace) == Live(open, Acts(n.kind) && next.Finished?)
  {
    hide Plan, Scan, Issues, Reaches, Raises;
    PlanProper(w, n, c, m, sc);
    match Plan(w, n, c, m, sc)
    case Raise(fault) => ScanPush(m.trace, NodeError(n, fault));
    case Perform(Emit(command), _) => ScanPush(m.trace, Act(command));
    case Perform(Read(sensor, v), _) => ScanPush(m.trace, Sensed(sensor, v));
    case Perform(Skip(child), _) => ScanPush(m.trace, NodeSkipped(child));
    case _ =>
  }

  lemma {:induction false} EvalScans(w: World, n: Node, m: Machine, sc: Scope, open: seq<Node>)
    requires m.status.Running? && Scan(m.trace) == Live(open, false) && Quiet(open) && Next(open, n)
    ensures Ends(Eval(w, n, m, sc).m, open, false)
    decreases Remaining(w, m), n, 9, 0, 0
  {
    hide Run, Scan, Step, Reaches;
    var polled := m.(polls := m.polls + 1);
    if w.host.cancel(m.polls, m.trace) {
    } else if !Highlightable(n.kind) {
      RunScans(w, n, Begin(n.kind), polled, sc, open);
    } else if m.steps >= w.limits.maxTotalSteps {
      ErrorScans(m.trace, open, n, StepLimit);
    } else {
      var begun := polled.(steps := m.steps + 1, trace := m.trace + [NodeStart(n)]);
      StartScans(m.trace, open, n);
      RunScans(w, n, Begin(n.kind), begun, sc, open + [n]);
      var r := Run(w, n, Begin(n.kind), begun, sc);
      if r.m.status.Running? { DoneScans(r.m.trace, open, n); }
    }
  }

  lemma ErrorScans(t: Trace, open: seq<Node>, n: Node, fault: Fault)
    requires Scan(t) == Live(open, false) && Blames(open, n, fault)
    ensures Scan(t + [NodeError(n, fault)]) == Failed(open, fault)
  {
    ScanPush(t, NodeError(n, fault));
  }

  lemma StartScans(t: Trace, open: seq<Node>, n: Node)
    requires Scan(t) == Live(open, false) && Highlightable(n.kind) && Next(open, n)
    ensures Scan(t + [NodeStart(n)]) == Live(open + [n], false)
  {
    ScanPush(t, NodeStart(n));
  }

  lemma DoneScans(t: Trace, open: seq<Node>, n: Node)
    requires Scan(t) == Live(open + [n], Acts(n.kind))
    ensures Scan(t + [NodeDone(n)]) == Live(open, false)
  {
    ScanPush(t, NodeDone(n));
  }

  lemma FairCallee(n: Node, c: Ctl, frame: Vars, last: Value)
    requires c.Callee?
    ensures Fair(n, Callee(c.fn, c.i + 1, frame, last))
  {
  }

  lemma BodyIsNext(n: Node, open: seq<Node>, child: Node)
    requires Inside(n, open) && n.kind == Call
    ensures Next(open, child)
  {
  }

  lemma {:induction false} RunScans(w: World, n: Node, c: Ctl, m: Machine, sc: Scope, open: seq<Node>)
    requires m.status.Running? && Fits(n, c) && Fair(n, c) && Inside(n, open)
    requires Scan(m.trace) == Live(open, Acts(n.kind) && c.Finished?)
    ensures Ends(Run(w, n, c, m, sc).m, open, Acts(n.kind))
    decreases Remaining(w, m) + Weight(n), n, Stage(c), Left(c), Todo(n, c)
  {
    hide Plan, Feed, Fits, Eval, Applied, Stage, Left, Todo, Highlightable, Scan, Acts, Quiet, Inside, Next, Fair;
    PlanSensible(w, n, c, m, sc);
    FairMoves(w, n, c, m, sc);
    PlanScans(w, n, c, m, sc, open);
    match Plan(w, n, c, m, sc)
    case Return(_) =>
    case Raise(_) =>
    case Wrong =>
    case Visit(child) =>
      PartIsNext(n, open, child);
      EvalScans(w, child, m, sc, open);
      var r := Eval(w, child, m, sc);
      FeedSensible(n, c, r.v);
      FairFeed(n, c, r.v);
      if Acts(n.kind) { FeedProper(n, c, r.v); }
      if r.m.status.Running? { RunScans(w, n, Feed(n, c, r.v), r.m, r.sc, open); }
    case Body(child) =>
      BodySensible(n, c, c.frame, c.last);
      BodyIsNext(n, open, child);
      EvalScans(w, child, m, Local(c.frame), open);
      var r := Eval(w, child, m, Local(c.frame));
      BodySensible(n, c, r.sc.vars, r.v);
      FairCallee(n, c, r.sc.vars, r.v);
      if r.m.status.Running? { RunScans(w, n, Callee(c.fn, c.i + 1, r.sc.vars, r.v), r.m, sc, open); }
    case Perform(e, next) =>
      AppliedGrows(e, m, sc);
      RunScans(w, n, next, Applied(e, m, sc).0, Applied(e, m, sc).1, open);
  }

  // ---- whole runs ----------------------------------------------------------------------------

  /** Every run that is not undefined behaviour is a complete word of the language,
      and it ends in success exactly when the run reports success. */
  lemma RunsAreWords(host: Host, limits: Limits, root: Node)
    requires !Execute(host, limits, root).error.Stuck?
    ensures Scan(Execute(host, limits, root).trace) == Over(Execute(host, limits, root).success)
  {
    hide Eval, Functions, Scan;
    var w := World(host, limits, Functions(root));
    ScanPush([], ProgramStart);
    assert [] + [ProgramStart] == START.trace;
    EmptyScans();
    EvalScans(w, root, START, Top, []);
    var m := Eval(w, root, START, Top).m;
    match m.status
    case Running => ScanPush(m.trace, ProgramDone);
    case Cancelled =>
      StoppedScans(m.trace, RunCancelled);
    case Errored(_, fault) =>
      StoppedScans(m.trace, RunFailed(fault));
    case Stuck =>
  }

  lemma EmptyScans()
    ensures Scan([]) == Idle
  {
  }

  lemma StoppedScans(t: Trace, cause: Cause)
    requires Step(Scan(t), Act(StopMotors)) == Stopping(cause)
    ensures Scan(t + [Act(StopMotors), ProgramError(cause)]) == Over(false)
  {
    ScanPush(t, Act(StopMotors));
    ScanPush(t + [Act(StopMotors)], ProgramError(cause));
    assert t + [Act(StopMotors)] + [ProgramError(cause)] == t + [Act(StopMotors), ProgramError(cause)];
  }
}
