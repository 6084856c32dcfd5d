// What a cancel does to a run, and what it does not: the flag is read once for each evaluation,
// and only what is read counts (src/engine.cpp:326-332, 366-374).

module Cancellation {
  import opened Ast
  import opened Semantics

  /** Poll `k` is made with some trace between the two, and reads false. */
  ghost predicate ReadsFalse(w: World, k: nat, from: Trace, to: Trace) {
    exists t: Trace :: from <= t && t <= to && !w.host.cancel(k, t)
  }

  /** From `m` to `m'`: the polls made, all read false but the last of a cancelled run, which
      read true. */
  ghost predicate Polls(w: World, m: Machine, m': Machine) {
    && m.polls <= m'.polls && m.trace <= m'.trace
    && (m'.status.Cancelled? && !m.status.Cancelled? ==>
          && m.polls < m'.polls && w.host.cancel(m'.polls - 1, m'.trace)
          && forall k :: m.polls <= k < m'.polls - 1 ==> ReadsFalse(w, k, m.trace, m'.trace))
    && (!m'.status.Cancelled? ==> forall k :: m.polls <= k < m'.polls ==> ReadsFalse(w, k, m.trace, m'.trace))
  }

  lemma ReadsFalseOn(w: World, k: nat, a: Trace, b: Trace, c: Trace, d: Trace)
    requires ReadsFalse(w, k, b, c) && a <= b && c <= d
    ensures ReadsFalse(w, k, a, d)
  {
    var t: Trace :| b <= t && t <= c && !w.host.cancel(k, t);
    assert a <= t && t <= d;
  }

  lemma {:induction false} PollsJoin(w: World, a: Machine, b: Machine, c: Machine)
    requires Polls(w, a, b) && Polls(w, b, c) && !b.status.Cancelled?
    ensures Polls(w, a, c)
  {
    hide ReadsFalse;
    forall k | a.polls <= k < b.polls ensures ReadsFalse(w, k, a.trace, c.trace) {
      ReadsFalseOn(w, k, a.trace, a.trace, b.trace, c.trace);
    }
    forall k | b.polls <= k < c.polls && (c.status.Cancelled? ==> k < c.polls - 1) ensures ReadsFalse(w, k, a.trace, c.trace) {
      ReadsFalseOn(w, k, a.trace, b.trace, c.trace, c.trace);
    }
  }

  /** A step that makes no poll and does not cancel. */
  lemma NoPoll(w: World, m: Machine, m': Machine)
    requires m.polls == m'.polls && m.trace <= m'.trace && (m'.status.Cancelled? <==> m.status.Cancelled?)
    ensures Polls(w, m, m')
  {
  }

  lemma OnePoll(w: World, m: Machine)
    requires m.status.Running? && !w.host.cancel(m.polls, m.trace)
    ensures Polls(w, m, m.(polls := m.polls + 1))
  {
    assert ReadsFalse(w, m.polls, m.trace, m.trace);
  }

  lemma {:induction false} EvalPolls(w: World, n: Node, m: Machine, sc: Scope)
    requires !m.status.Cancelled?
    ensures Polls(w, m, Eval(w, n, m, sc).m)
    decreases Remaining(w, m), n, 9, 0, 0
  {
    hide Run, Highlightable, Polls;
    var polled := m.(polls := m.polls + 1);
    if !m.status.Running? {
      NoPoll(w, m, m);
    } else if w.host.cancel(m.polls, m.trace) {
      CancelledPoll(w, m);
    } else {
      OnePoll(w, m);
      if !Highlightable(n.kind) {
        RunPolls(w, n, Begin(n.kind), polled, sc);
        PollsJoin(w, m, polled, Run(w, n, Begin(n.kind), polled, sc).m);
      } else if m.steps >= w.limits.maxTotalSteps {
        NoPoll(w, polled, FailAt(polled, n, StepLimit));
        PollsJoin(w, m, polled, FailAt(polled, n, StepLimit));
      } else {
        var begun := polled.(steps := m.steps + 1, trace := m.trace + [NodeStart(n)]);
        NoPoll(w, polled, begun);
        PollsJoin(w, m, polled, begun);
        RunPolls(w, n, Begin(n.kind), begun, sc);
        var r := Run(w, n, Begin(n.kind), begun, sc).m;
        PollsJoin(w, m, begun, r);
        if r.status.Running? {
          NoPoll(w, r, r.(trace := r.trace + [NodeDone(n)]));
          PollsJoin(w, m, r, r.(trace := r.trace + [NodeDone(n)]));
        }
      }
    }
  }

  lemma CancelledPoll(w: World, m: Machine)
    requires m.status.Running? && w.host.cancel(m.polls, m.trace)
    ensures Polls(w, m, m.(polls := m.polls + 1, status := Cancelled))
  {
  }

  lemma {:induction false} RunPolls(w: World, n: Node, c: Ctl, m: Machine, sc: Scope)
    requires Fits(n, c) && m.status.Running?
    ensures Polls(w, m, Run(w, n, c, m, sc).m)
    decreases Remaining(w, m) + Weight(n), n, Stage(c), Left(c), Todo(n, c)
  {
    hide Plan, Feed, Fits, Eval, Applied, Stage, Left, Todo, Highlightable, Polls;
    PlanSensible(w, n, c, m, sc);
    match Plan(w, n, c, m, sc)
    case Return(_) => NoPoll(w, m, m);
    case Raise(fault) => NoPoll(w, m, FailAt(m, n, fault));
    case Wrong => NoPoll(w, m, m.(status := Stuck));
    case Visit(child) =>
      EvalPolls(w, child, m, sc);
      var r := Eval(w, child, m, sc);
      FeedSensible(n, c, r.v);
      if r.m.status.Running? {
        RunPolls(w, n, Feed(n, c, r.v), r.m, r.sc);
        PollsJoin(w, m, r.m, Run(w, n, Feed(n, c, r.v), r.m, r.sc).m);
      }
    case Body(child) =>
      BodySensible(n, c, c.frame, c.last);
      EvalPolls(w, child, m, Local(c.frame));
      var r := Eval(w, child, m, Local(c.frame));
      BodySensible(n, c, r.sc.vars, r.v);
      if r.m.status.Running? {
        RunPolls(w, n, Callee(c.fn, c.i + 1, r.sc.vars, r.v), r.m, sc);
        PollsJoin(w, m, r.m, Run(w, n, Callee(c.fn, c.i + 1, r.sc.vars, r.v), r.m, sc).m);
      } else {
        DepthAside(w, m, r.m, r.m.(depth := r.m.depth - 1));
      }
    case Perform(e, next) =>
      AppliedGrows(e, m, sc);
      var after := Applied(e, m, sc);
      NoPoll(w, m, after.0);
      RunPolls(w, n, next, after.0, after.1);
      PollsJoin(w, m, after.0, Run(w, n, next, after.0, after.1).m);
  }

  lemma DepthAside(w: World, m: Machine, a: Machine, b: Machine)
    requires Polls(w, m, a) && a.polls == b.polls && a.trace == b.trace && a.status == b.status
    ensures Polls(w, m, b)
  {
  }

  // ---- whole runs ------------------------------------------------------------------------------------

  /** What the root comes to in a run. */
  function Finally(host: Host, limits: Limits, root: Node): Machine {
    Eval(World(host, limits, Functions(root)), root, START, Top).m
  }

  /** A run is cancelled exactly when its last poll, made with the trace that is then left, reads
      true; every other poll has read false. */
  lemma {:induction false} CancelledByLastPoll(host: Host, limits: Limits, root: Node)
    ensures var w, m := World(host, limits, Functions(root)), Finally(host, limits, root);
            && Polls(w, START, m)
            && (Execute(host, limits, root).error.Cancelled? <==> m.status.Cancelled?)
  {
    hide Eval, Functions, Polls;
    EvalPolls(World(host, limits, Functions(root)), root, START, Top);
  }

  /** The flag depends on the number of the poll alone. */
  ghost predicate ByNumber(host: Host) {
    forall k: nat, t: Trace, t': Trace :: host.cancel(k, t) == host.cancel(k, t')
  }

  // ---- what is not read does not matter --------------------------------------------------------------

  /** The same but for what the flag would read after the first `k` polls. */
  ghost predicate AgreeBefore(w: World, v: World, k: nat) {
    && w.fns == v.fns && w.limits == v.limits && w.host.distance == v.host.distance && w.host.flag == v.host.flag
    && forall j: nat, t: Trace :: j < k ==> w.host.cancel(j, t) == v.host.cancel(j, t)
  }

  lemma AgreeEarlier(w: World, v: World, k: nat, j: nat)
    requires AgreeBefore(w, v, k) && j <= k
    ensures AgreeBefore(w, v, j)
  {
  }

  lemma PlanAgrees(w: World, v: World, n: Node, c: Ctl, m: Machine, sc: Scope, k: nat)
    requires AgreeBefore(w, v, k) && Fits(n, c)
    ensures Plan(w, n, c, m, sc) == Plan(v, n, c, m, sc)
  {
    hide FinishCommand, FoldArith, Lookup, Defined, BindParams, Holds;
  }

  lemma {:induction false} EvalAgrees(w: World, v: World, n: Node, m: Machine, sc: Scope)
    requires AgreeBefore(w, v, Eval(w, n, m, sc).m.polls) && !m.status.Cancelled?
    ensures Eval(w, n, m, sc) == Eval(v, n, m, sc)
    decreases Remaining(w, m), n, 9, 0, 0
  {
    hide Run, Highlightable;
    EvalPolls(w, n, m, sc);
    if m.status.Running? {
      var polled := m.(polls := m.polls + 1);
      if w.host.cancel(m.polls, m.trace) {
      } else if !Highlightable(n.kind) {
        RunPolls(w, n, Begin(n.kind), polled, sc);
        RunAgrees(w, v, n, Begin(n.kind), polled, sc);
      } else if m.steps < w.limits.maxTotalSteps {
        var begun := polled.(steps := m.steps + 1, trace := m.trace + [NodeStart(n)]);
        RunPolls(w, n, Begin(n.kind), begun, sc);
        RunAgrees(w, v, n, Begin(n.kind), begun, sc);
      }
    }
  }

  lemma {:induction false} RunAgrees(w: World, v: World, n: Node, c: Ctl, m: Machine, sc: Scope)
    requires Fits(n, c) && m.status.Running? && AgreeBefore(w, v, Run(w, n, c, m, sc).m.polls)
    ensures Run(w, n, c, m, sc) == Run(v, n, c, m, sc)
    decreases Remaining(w, m) + Weight(n), n, Stage(c), Left(c), Todo(n, c)
  {
    hide Plan, Feed, Fits, Eval, Applied, Stage, Left, Todo, Highlightable, AgreeBefore;
    PlanSensible(w, n, c, m, sc);
    PlanAgrees(w, v, n, c, m, sc, Run(w, n, c, m, sc).m.polls);
    var last := Run(w, n, c, m, sc).m.polls;
    match Plan(w, n, c, m, sc)
    case Return(_) =>
    case Raise(_) =>
    case Wrong =>
    case Visit(child) =>
      var r := Eval(w, child, m, sc);
      FeedSensible(n, c, r.v);
      if r.m.status.Running? {
        RunPolls(w, n, Feed(n, c, r.v), r.m, r.sc);
        AgreeEarlier(w, v, last, r.m.polls);
        EvalAgrees(w, v, child, m, sc);
        RunAgrees(w, v, n, Feed(n, c, r.v), r.m, r.sc);
      } else {
        EvalAgrees(w, v, child, m, sc);
      }
    case Body(child) =>
      BodySensible(n, c, c.frame, c.last);
      var r := Eval(w, child, m, Local(c.frame));
      BodySensible(n, c, r.sc.vars, r.v);
      if r.m.status.Running? {
        RunPolls(w, n, Callee(c.fn, c.i + 1, r.sc.vars, r.v), r.m, sc);
        AgreeEarlier(w, v, last, r.m.polls);
        EvalAgrees(w, v, child, m, Local(c.frame));
        RunAgrees(w, v, n, Callee(c.fn, c.i + 1, r.sc.vars, r.v), r.m, sc);
      } else {
        EvalAgrees(w, v, child, m, Local(c.frame));
      }
    case Perform(e, next) =>
      AppliedGrows(e, m, sc);
      RunAgrees(w, v, n, next, Applied(e, m, sc).0, Applied(e, m, sc).1);
  }

  /** The same robot, and nobody cancels. */
  function Uncancelled(host: Host): Host {
    host.(cancel := (k, t) => false)
  }

  /** Which cancels count: a run is cancelled exactly if the flag reads true at some poll that the run
      would make if nobody cancelled. */
  lemma {:induction false} CancelledExactlyByAPoll(host: Host, limits: Limits, root: Node)
    requires ByNumber(host)
    ensures Execute(host, limits, root).error.Cancelled?
            <==> exists k: nat :: k < Finally(Uncancelled(host), limits, root).polls && host.cancel(k, [])
  {
    hide Eval, Functions, Execute, Polls, Finally;
    var m, q := Finally(host, limits, root), Finally(Uncancelled(host), limits, root);
    CancelledByLastPoll(host, limits, root);
    FirstPolls(host, limits, root);
    NobodyCancels(host, limits, root);
    if m.status.Cancelled? {
      if q.polls < m.polls { SameFinally(Uncancelled(host), host, limits, root); }
      assert m.polls - 1 < q.polls;
    } else {
      SameFinally(host, Uncancelled(host), limits, root);
      assert m == q;
    }
  }

  /** Of the polls of a run, none but the last of a cancelled one reads true. */
  lemma FirstPolls(host: Host, limits: Limits, root: Node)
    requires ByNumber(host)
    ensures var m := Finally(host, limits, root);
            && (m.status.Cancelled? ==> m.polls > 0 && host.cancel(m.polls - 1, []))
            && forall k: nat :: k < m.polls && (m.status.Cancelled? ==> k < m.polls - 1) ==> !host.cancel(k, [])
  {
    hide Eval, Functions, Finally, Execute;
    CancelledByLastPoll(host, limits, root);
    var w, m := World(host, limits, Functions(root)), Finally(host, limits, root);
    forall k: nat | k < m.polls && (m.status.Cancelled? ==> k < m.polls - 1) ensures !host.cancel(k, []) {
      assert ReadsFalse(w, k, START.trace, m.trace);
    }
  }

  lemma NobodyCancels(host: Host, limits: Limits, root: Node)
    ensures !Finally(Uncancelled(host), limits, root).status.Cancelled?
  {
    hide Eval, Functions, Finally, Execute;
    CancelledByLastPoll(Uncancelled(host), limits, root);
  }

  /** Two hosts that differ in their flags only, and not at any poll of the first one's run. */
  lemma SameFinally(host: Host, host': Host, limits: Limits, root: Node)
    requires host'.distance == host.distance && host'.flag == host.flag && ByNumber(host) && ByNumber(host')
    requires forall k: nat :: k < Finally(host, limits, root).polls ==> host.cancel(k, []) == host'.cancel(k, [])
    ensures Finally(host', limits, root) == Finally(host, limits, root)
  {
    hide Eval, Functions;
    var w, v := World(host, limits, Functions(root)), World(host', limits, Functions(root));
    forall j: nat, t: Trace | j < Finally(host, limits, root).polls ensures w.host.cancel(j, t) == v.host.cancel(j, t) {
      assert host.cancel(j, t) == host.cancel(j, []) && host'.cancel(j, t) == host'.cancel(j, []);
    }
    EvalAgrees(w, v, root, START, Top);
  }

  /** A cancel after the last poll changes nothing: whatever the flag would read after the polls
      that a run makes, the run is the same. */
  lemma {:induction false} LaterCancelsDoNotMatter(host: Host, limits: Limits, root: Node, cancel: (nat, Trace) -> bool)
    requires forall k: nat, t: Trace :: k < Finally(host, limits, root).polls ==> cancel(k, t) == host.cancel(k, t)
    ensures Execute(host.(cancel := cancel), limits, root) == Execute(host, limits, root)
  {
    hide Eval, Functions;
    var w, v := World(host, limits, Functions(root)), World(host.(cancel := cancel), limits, Functions(root));
    EvalAgrees(w, v, root, START, Top);
  }

  /** A program that only beeps makes one poll. With a cancel right after it, and up ever since, the
      run still ends in ProgramDone. */
  lemma {:induction false} CancelledTooLate(host: Host, limits: Limits, n: Node)
    requires n.kind == Beep && limits.maxTotalSteps > 0
    ensures Execute(host.(cancel := (k, t) => k >= 1), limits, n)
         == Outcome(true, Running, [ProgramStart, NodeStart(n), Act(BeepOnce), NodeDone(n), ProgramDone])
  {
    hide Functions;
    var w := World(host.(cancel := (k, t) => k >= 1), limits, Functions(n));
    var begun := START.(polls := 1, steps := 1, trace := [ProgramStart] + [NodeStart(n)]);
    assert Plan(w, n, Operands([]), begun, Top) == Perform(Emit(BeepOnce), Finished(NoneV));
    var after := begun.(trace := begun.trace + [Act(BeepOnce)]);
    assert Run(w, n, Finished(NoneV), after, Top) == Out(NoneV, after, Top);
    assert Run(w, n, Operands([]), begun, Top) == Out(NoneV, after, Top);
    assert Eval(w, n, START, Top).m == after.(trace := after.trace + [NodeDone(n)]);
  }
}
