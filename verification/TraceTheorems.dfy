// What acceptance by the trace automaton means: proper nesting, at most one
// NodeError, and commands that each belong to one open node
// (docs/integration/protocol.md:229-237).

module TraceTheorems {
  import opened Ast
  import opened Semantics
  import opened Growth
  import opened TraceGrammar

  // ---- nesting -------------------------------------------------------------------------------

  function Last(t: Trace): Item
    requires t != []
  {
    t[|t| - 1]
  }

  /** An entry that neither opens nor closes a node nor belongs to the program as a whole. */
  predicate Neutral(item: Item) {
    item.NodeSkipped? || item.Act? || item.Sensed?
  }

  /** The balanced words over matching NodeStart/NodeDone pairs, neutral entries anywhere. */
  ghost predicate Balanced(t: Trace)
    decreases |t|
  {
    || t == []
    || (Neutral(Last(t)) && Balanced(t[..|t| - 1]))
    || (Last(t).NodeDone? && exists k :: 0 <= k < |t| - 1 && t[k] == NodeStart(Last(t).node)
                                         && Balanced(t[..k]) && Balanced(t[k + 1..|t| - 1]))
  }

  /** A balanced word with the starts of `open` in it unmatched, in order. */
  ghost predicate Nested(t: Trace, open: seq<Node>)
    decreases |open|
  {
    if open == [] then Balanced(t)
    else exists k :: 0 <= k < |t| && t[k] == NodeStart(Newest(open))
                     && Nested(t[..k], open[..|open| - 1]) && Balanced(t[k + 1..])
  }

  lemma {:induction false} BalancedPush(t: Trace, item: Item)
    requires Balanced(t) && Neutral(item)
    ensures Balanced(t + [item])
  {
    assert (t + [item])[..|t|] == t;
  }

  lemma {:induction false} BalancedClose(t: Trace, n: Node, inner: Trace)
    requires Balanced(t) && Balanced(inner)
    ensures Balanced(t + [NodeStart(n)] + inner + [NodeDone(n)])
  {
    var u := t + [NodeStart(n)] + inner + [NodeDone(n)];
    assert u[..|t|] == t && u[|t| + 1..|u| - 1] == inner && u[|t|] == NodeStart(n);
  }

  /** Splits the innermost open node's start off a nested word. */
  lemma {:induction false} Innermost(t: Trace, open: seq<Node>) returns (k: nat)
    requires open != [] && Nested(t, open)
    ensures k < |t| && t[k] == NodeStart(Newest(open))
    ensures Nested(t[..k], open[..|open| - 1]) && Balanced(t[k + 1..])
  {
    k :| 0 <= k < |t| && t[k] == NodeStart(Newest(open)) && Nested(t[..k], open[..|open| - 1]) && Balanced(t[k + 1..]);
  }

  lemma {:induction false} NestedIntro(t: Trace, open: seq<Node>, k: nat)
    requires open != [] && k < |t| && t[k] == NodeStart(Newest(open))
    requires Nested(t[..k], open[..|open| - 1]) && Balanced(t[k + 1..])
    ensures Nested(t, open)
  {
  }

  lemma {:induction false} NestedPush(t: Trace, open: seq<Node>, item: Item)
    requires Nested(t, open) && Neutral(item)
    ensures Nested(t + [item], open)
  {
    if open == [] {
      BalancedPush(t, item);
    } else {
      var k := Innermost(t, open);
      BalancedPush(t[k + 1..], item);
      var u := t + [item];
      assert u[..k] == t[..k] && u[k + 1..] == t[k + 1..] + [item] && u[k] == t[k];
    }
  }

  lemma {:induction false} NestedOpen(t: Trace, open: seq<Node>, n: Node)
    requires Nested(t, open)
    ensures Nested(t + [NodeStart(n)], open + [n])
  {
    var u := t + [NodeStart(n)];
    assert u[..|t|] == t && u[|t| + 1..] == [] && u[|t|] == NodeStart(n);
    assert (open + [n])[..|open|] == open;
  }

  lemma {:induction false} NestedClose(t: Trace, open: seq<Node>, n: Node)
    requires open != [] && Newest(open) == n && Nested(t, open)
    ensures Nested(t + [NodeDone(n)], open[..|open| - 1])
  {
    hide Balanced, Nested;
    var k := Innermost(t, open);
    var outer, inner, rest := t[..k], t[k + 1..], open[..|open| - 1];
    var u := t + [NodeDone(n)];
    if rest == [] {
      AllBalanced(outer);
      BalancedClose(outer, n, inner);
      assert u == outer + [NodeStart(n)] + inner + [NodeDone(n)];
      AllBalanced(u);
    } else {
      var j := Innermost(outer, rest);
      var before := outer[j + 1..];
      BalancedClose(before, n, inner);
      assert u[j + 1..] == before + [NodeStart(n)] + inner + [NodeDone(n)];
      assert u[..j] == outer[..j] && u[j] == outer[j];
      NestedIntro(u, rest, j);
    }
  }

  lemma AllBalanced(t: Trace)
    ensures Nested(t, []) <==> Balanced(t)
  {
  }

  /** A live trace is ProgramStart and then a balanced word with exactly the open nodes
      unmatched; so any trace the automaton has not rejected is properly nested. */
  lemma {:induction false} LiveIsNested(t: Trace)
    requires Scan(t).Live?
    ensures t != [] && t[0] == ProgramStart && Nested(t[1..], Scan(t).open)
  {
    hide Nested;
    var init, item := t[..|t| - 1], Last(t);
    if init == [] {
      assert t[1..] == [];
      AllBalanced([]);
    } else {
      LiveIsNested(init);
      var open := Scan(init).open;
      assert t[1..] == init[1..] + [item];
      if item.NodeStart? {
        NestedOpen(init[1..], open, item.node);
      } else if item.NodeDone? {
        NestedClose(init[1..], open, item.node);
      } else {
        NestedPush(init[1..], open, item);
      }
    }
  }

  /** The NodeDones that would close all open nodes, innermost first. */
  function Closers(open: seq<Node>): Trace {
    if open == [] then [] else [NodeDone(Newest(open))] + Closers(open[..|open| - 1])
  }

  /** A nested word is a prefix of a balanced one. */
  lemma {:induction false} NestedCompletes(t: Trace, open: seq<Node>)
    requires Nested(t, open)
    ensures Balanced(t + Closers(open))
    decreases |open|
  {
    hide Nested, Balanced;
    if open == [] {
      AllBalanced(t);
      assert t + Closers(open) == t;
    } else {
      NestedClose(t, open, Newest(open));
      NestedCompletes(t + [NodeDone(Newest(open))], open[..|open| - 1]);
      assert t + [NodeDone(Newest(open))] + Closers(open[..|open| - 1]) == t + Closers(open);
    }
  }

  // ---- errors and program events ----------------------------------------------------------------

  predicate NodeEvent(item: Item) {
    !item.NodeError? && !item.ProgramStart? && !item.ProgramDone? && !item.ProgramError?
  }

  /** While the program is live, nothing has failed and it has not ended. */
  lemma {:induction false} LiveIsClean(t: Trace)
    requires Scan(t).Live?
    ensures t != [] && forall i :: 1 <= i < |t| ==> NodeEvent(t[i])
  {
    var init := t[..|t| - 1];
    if init != [] { LiveIsClean(init); }
  }

  /** The shape of every run. Success is ProgramStart, a balanced word, ProgramDone. A
      cancelled run is ProgramStart, a prefix of a balanced word, the safety stop and
      ProgramError. A failed run has its one NodeError before the safety stop. */
  ghost predicate WellShaped(o: Outcome) {
    var t := o.trace;
    && |t| >= 2 && t[0] == ProgramStart
    && match o.error
       case Running => o.success && Last(t) == ProgramDone && Word(t[1..|t| - 1], [])
       case Cancelled =>
         && !o.success && |t| >= 3
         && t[|t| - 2..] == [Act(StopMotors), ProgramError(RunCancelled)]
         && Begun(t[1..|t| - 2])
       case Errored(span, fault) =>
         && !o.success && |t| >= 4
         && t[|t| - 3].NodeError? && t[|t| - 3].fault == fault && t[|t| - 3].node.span == span
         && t[|t| - 2..] == [Act(StopMotors), ProgramError(RunFailed(fault))]
         && Begun(t[1..|t| - 3])
       case Stuck => false
  }

  /** Node events only, matched but for the starts of `open`, and so the beginning of
      the balanced word that closes them. */
  ghost predicate Word(t: Trace, open: seq<Node>) {
    Nested(t, open) && Balanced(t + Closers(open)) && forall i :: 0 <= i < |t| ==> NodeEvent(t[i])
  }

  /** The word of a run that was stopped with some nodes still open. */
  ghost predicate Begun(t: Trace) {
    exists open :: Word(t, open)
  }

  lemma {:induction false} LiveIsWord(t: Trace)
    requires Scan(t).Live?
    ensures t != [] && t[0] == ProgramStart && Word(t[1..], Scan(t).open)
  {
    hide Scan, Nested, Balanced;
    LiveIsNested(t);
    LiveIsClean(t);
    NestedCompletes(t[1..], Scan(t).open);
  }

  lemma {:induction false} RunsAreWellShaped(host: Host, limits: Limits, root: Node)
    requires !Execute(host, limits, root).error.Stuck?
    ensures WellShaped(Execute(host, limits, root))
  {
    hide Eval, Functions, Scan, Word, Step;
    var w := World(host, limits, Functions(root));
    StartIsLive();
    EvalScans(w, root, START, Top, []);
    EvalGrows(w, root, START, Top);
    var m := Eval(w, root, START, Top).m;
    var t := Execute(host, limits, root).trace;
    match m.status
    case Running =>
      LiveIsWord(m.trace);
      assert t[1..|t| - 1] == m.trace[1..];
    case Cancelled =>
      LiveIsWord(m.trace);
      assert t[1..|t| - 2] == m.trace[1..];
    case Errored(span, fault) =>
      var kept := m.trace[..|m.trace| - 1];
      BeforeFailure(m.trace);
      LiveIsWord(kept);
      assert t[1..|t| - 3] == kept[1..];
    case Stuck =>
  }

  lemma StartIsLive()
    ensures Scan(START.trace) == Live([], false)
  {
    ScanPush([], ProgramStart);
    assert [] + [ProgramStart] == START.trace;
  }

  lemma StepFails(p: Phase, item: Item)
    requires Step(p, item).Failed?
    ensures p.Live? && !p.acted && item.NodeError?
  {
  }

  /** A node fails before it makes its host call, not after. */
  lemma BeforeFailure(t: Trace)
    requires Scan(t).Failed?
    ensures t != [] && Last(t).NodeError? && Scan(t[..|t| - 1]).Live? && !Scan(t[..|t| - 1]).acted
  {
    hide Step;
    StepFails(Scan(t[..|t| - 1]), Last(t));
  }

  // ---- commands ---------------------------------------------------------------------------------------

  /** At position `i`: a host call is followed at once by the NodeDone of the node that
      issues it, and a command or sensor node is done only right after its host call. */
  predicate Owned(t: Trace, i: nat)
    requires i + 1 < |t|
  {
    && (t[i].Act? ==> t[i + 1].NodeDone? && Issues(t[i + 1].node.kind, t[i].command))
    && (t[i].Sensed? ==> t[i + 1].NodeDone? && t[i + 1].node.kind == t[i].sensor)
    && (t[i + 1].NodeDone? && Acts(t[i + 1].node.kind) ==> t[i].Act? || t[i].Sensed?)
  }

  lemma {:induction false} LiveIsOwned(t: Trace)
    requires Scan(t).Live?
    ensures forall i :: 0 <= i < |t| - 1 ==> Owned(t, i)
    ensures Scan(t).acted <==> (Last(t).Act? || Last(t).Sensed?)
    ensures Scan(t).acted && Last(t).Act? ==> Scan(t).open != [] && Issues(Newest(Scan(t).open).kind, Last(t).command)
    ensures Scan(t).acted && Last(t).Sensed? ==> Scan(t).open != [] && Newest(Scan(t).open).kind == Last(t).sensor
  {
    hide Issues, Acts;
    var init := t[..|t| - 1];
    if init != [] {
      LiveIsOwned(init);
      forall i | 0 <= i < |t| - 1 ensures Owned(t, i) {
        if i < |init| - 1 { assert Owned(init, i); }
      }
    }
  }

  /** Every host command of a run except the final safety stop is immediately followed by
      the NodeDone of its own command node, with its arguments in range. */
  lemma {:induction false} CommandsAreOwned(host: Host, limits: Limits, root: Node, i: nat)
    requires !Execute(host, limits, root).error.Stuck?
    requires var o := Execute(host, limits, root); i < |o.trace| - (if o.success then 0 else 2)
    requires Execute(host, limits, root).trace[i].Act?
    ensures var t := Execute(host, limits, root).trace;
            i + 1 < |t| && t[i + 1].NodeDone? && Issues(t[i + 1].node.kind, t[i].command)
  {
    hide Eval, Functions, Scan, Step, Issues;
    var w := World(host, limits, Functions(root));
    StartIsLive();
    EvalScans(w, root, START, Top, []);
    var m := Eval(w, root, START, Top).m;
    var t := Execute(host, limits, root).trace;
    if m.status.Errored? {
      BeforeFailure(m.trace);
      var kept := m.trace[..|m.trace| - 1];
      LiveIsOwned(kept);
      assert t[..|kept|] == kept;
      if i < |kept| - 1 { assert Owned(kept, i); }
    } else {
      LiveIsOwned(m.trace);
      if i < |m.trace| - 1 { assert Owned(m.trace, i); }
    }
  }

  // ---- nodes without a start may still be reported ---------------------------------------------------

  /** The program that is one undefined name: its only node event is an error, and it comes from
      a node that is never started, never counted and never numbered. */
  lemma {:induction false} UnstartedNodesAreReported(host: Host, limits: Limits, n: Node)
    requires n.kind == VarRef && !host.cancel(0, [ProgramStart])
    ensures !Highlightable(n.kind)
    ensures Execute(host, limits, n).trace
         == [ProgramStart, NodeError(n, UndefinedVariable), Act(StopMotors), ProgramError(RunFailed(UndefinedVariable))]
  {
    hide Functions;
    var w := World(host, limits, Functions(n));
    var polled := START.(polls := 1);
    assert Plan(w, n, Operands([]), polled, Top) == Raise(UndefinedVariable);
    assert Eval(w, n, START, Top) == Run(w, n, Operands([]), polled, Top);
    assert [ProgramStart] + [NodeError(n, UndefinedVariable)] == [ProgramStart, NodeError(n, UndefinedVariable)];
  }
}
