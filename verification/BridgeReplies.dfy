// What a client of the bridge is told: each run that it asks for is accepted or refused with one error,
// and the diagnostics of a run are those of its own source (harness/protocol_bridge.hpp:42-89, 113-129;
// docs/integration/protocol.md:40-75).

module BridgeReplies {
  import opened Bridge

  // ---- refusals ------------------------------------------------------------------------------------------

  /** A run that is asked for is accepted, with the next number, exactly if every run accepted before is
      over. Otherwise one error is sent, and nothing else happens. */
  lemma {:induction false} RunsAreAcceptedWhenFree(actions: seq<Action>, ok: bool)
    requires After(actions).control == Ready
    ensures var s := After(actions);
            var s' := Next(s, HandleRun(ok));
            && (LastReleased(s.log) ==> s'.log == s.log + [Accepted(LastAccepted(s.log) + 1)] && s'.control == Joining(ok) && s'.running)
            && (!LastReleased(s.log) ==> s' == s.(log := s.log + [Sent(Reply)]))
  {
    hide Blocks, CancelPending, LastAccepted, LastReleased;
    AlwaysInv(actions);
  }

  /** The messages of the client that have been taken up and that ask for an answer by the control thread. */
  function Asked(actions: seq<Action>): nat {
    if actions == [] then 0
    else
      var before, a := actions[..|actions| - 1], actions[|actions| - 1];
      Asked(before) + if After(before).control == Ready && (a.HandleRun? || a == HandleOther(true)) then 1 else 0
  }

  function Replies(log: seq<Entry>): nat {
    if log == [] then 0 else Replies(log[..|log| - 1]) + if log[|log| - 1] == Sent(Reply) then 1 else 0
  }

  function Acceptances(log: seq<Entry>): nat {
    if log == [] then 0 else Acceptances(log[..|log| - 1]) + if log[|log| - 1].Accepted? then 1 else 0
  }

  lemma CountPush(log: seq<Entry>, e: Entry)
    ensures Replies(log + [e]) == Replies(log) + if e == Sent(Reply) then 1 else 0
    ensures Acceptances(log + [e]) == Acceptances(log) + if e.Accepted? then 1 else 0
  {
    assert (log + [e])[..|log|] == log;
  }

  /** What a step does to the log. */
  function Added(s: State, a: Action): seq<Entry> {
    if |Next(s, a).log| > |s.log| then [Next(s, a).log[|s.log|]] else []
  }

  lemma LogIs(s: State, a: Action)
    ensures Next(s, a).log == s.log + Added(s, a)
  {
    LogGrows(s, a);
    hide Next;
  }

  lemma AnswersOf(s: State, a: Action)
    requires !s.crashed
    ensures var e := Added(s, a);
            && (s.control == Ready && a == HandleOther(true) ==> e == [Sent(Reply)])
            && (s.control == Ready && a.HandleRun? ==> e == [if s.running then Sent(Reply) else Accepted(s.accepted + 1)])
            && (!(s.control == Ready && (a.HandleRun? || a == HandleOther(true))) ==> e == [] || (e != [Sent(Reply)] && !e[0].Accepted?))
    ensures Next(s, a).accepted == s.accepted + if s.control == Ready && a.HandleRun? && !s.running then 1 else 0
  {
  }

  /** Every such message is answered once: with an acceptance or with one reply. Nothing else is
      accepted or replied to. */
  lemma {:induction false} EveryRunIsAnswered(actions: seq<Action>)
    ensures var s := After(actions); Replies(s.log) + Acceptances(s.log) == Asked(actions) && Acceptances(s.log) == s.accepted
  {
    hide Next, Added, Inv, Replies, Acceptances;
    if actions == [] {
      NothingCounted();
    } else {
      var before, a := actions[..|actions| - 1], actions[|actions| - 1];
      EveryRunIsAnswered(before);
      NeverCrashed(before);
      var s := After(before);
      AnswersOf(s, a);
      LogIs(s, a);
      var e := Added(s, a);
      if e == [] { assert s.log + [] == s.log; } else { CountPush(s.log, e[0]); AddedOne(s, a); assert e == [e[0]]; }
    }
  }

  lemma AddedOne(s: State, a: Action)
    ensures |Added(s, a)| <= 1
  {
  }

  lemma NothingCounted()
    ensures Replies([]) == 0 && Acceptances([]) == 0
  {
  }

  lemma NeverCrashed(actions: seq<Action>)
    ensures !After(actions).crashed
  {
    AlwaysInv(actions);
    hide After, Blocks, CancelPending, LastAccepted, LastReleased;
  }

  // ---- diagnostics ---------------------------------------------------------------------------------------------

  /** Whether the source of each accepted run compiles, in the order of the runs. */
  function Compiled(actions: seq<Action>): seq<bool> {
    if actions == [] then []
    else
      var before, a := actions[..|actions| - 1], actions[|actions| - 1];
      if a.HandleRun? && After(before).control == Ready && !After(before).running then Compiled(before) + [a.ok] else Compiled(before)
  }

  predicate Threaded(s: State, oks: seq<bool>) {
    && |oks| == s.accepted
    && (!s.control.Ready? ==> oks != [] && s.control.ok == oks[|oks| - 1])
    && (forall r :: r in s.threads ==> 1 <= r <= |oks| && s.threads[r].ok == oks[r - 1])
  }

  ghost predicate Faithful(s: State, oks: seq<bool>) { Threaded(s, oks) && Truthful(s.log, oks) }

  /** The diagnostics of a run are good exactly if its source compiles, and only then has it a start, events and
      an end. */
  ghost predicate Truthful(log: seq<Entry>, oks: seq<bool>) {
    forall k :: 0 <= k < |log| ==> TruthfulEntry(log[k], oks)
  }

  ghost predicate TruthfulEntry(e: Entry, oks: seq<bool>) {
    match e
    case Sent(Diagnostics(run, ok)) => 1 <= run <= |oks| && ok == oks[run - 1]
    case _ => RunOf(e) > 0 ==> RunOf(e) <= |oks| && oks[RunOf(e) - 1]
  }

  predicate Past(t: Thread) { t.phase == Starting || t.phase == Executing || t.phase == Stopping || t.phase == Ending }

  /** A thread at work past its diagnostics has a source that compiles. */
  predicate Proceeds(s: State) {
    forall r :: r in s.threads && Past(s.threads[r]) ==> s.threads[r].ok
  }

  lemma {:induction false} StepStaysFaithful(s: State, a: Action, oks: seq<bool>)
    requires Faithful(s, oks) && Proceeds(s) && !s.crashed
    ensures Proceeds(Next(s, a))
    ensures Faithful(Next(s, a), Extended(s, a, oks))
  {
    hide Truthful, Next, Added;
    var oks' := Extended(s, a, oks);
    ThreadsStayFaithful(s, a, oks);
    TruthExtends(s.log, oks, oks');
    LogIs(s, a);
    AddedIsTruthful(s, a, oks');
    TruthPush(s.log, Added(s, a), oks');
  }

  function Extended(s: State, a: Action, oks: seq<bool>): seq<bool> {
    if a.HandleRun? && s.control == Ready && !s.running then oks + [a.ok] else oks
  }

  lemma ThreadsStayFaithful(s: State, a: Action, oks: seq<bool>)
    requires Threaded(s, oks) && Proceeds(s) && !s.crashed
    ensures Proceeds(Next(s, a)) && Threaded(Next(s, a), Extended(s, a, oks))
    ensures forall r :: r in s.threads ==> 1 <= r <= |Extended(s, a, oks)| && s.threads[r].ok == Extended(s, a, oks)[r - 1]
  {
    hide Next, Past;
    var s', oks' := Next(s, a), Extended(s, a, oks);
    ControlOf(s, a);
    forall r | r in s'.threads ensures 1 <= r <= |oks'| && s'.threads[r].ok == oks'[r - 1] && (Past(s'.threads[r]) ==> s'.threads[r].ok) {
      ThreadOf(s, a, r);
    }
  }

  /** A thread of the next state was there already, with the same source, or is the one now spawned. */
  lemma ThreadOf(s: State, a: Action, r: nat)
    requires r in Next(s, a).threads
    ensures var t := Next(s, a).threads[r];
            || (r in s.threads && t.ok == s.threads[r].ok && (Past(t) ==> Past(s.threads[r]) || t.ok))
            || (s.control.Spawning? && r == s.accepted && t == Thread(s.control.ok, Compiling) && !Past(t) && s.accepted == Next(s, a).accepted
                && a.Spawn?)
  {
  }

  lemma ControlOf(s: State, a: Action)
    requires !s.crashed
    ensures var s' := Next(s, a);
            if a.HandleRun? && s.control == Ready && !s.running then s'.accepted == s.accepted + 1 && s'.control == Joining(a.ok)
            else s'.accepted == s.accepted && (!s'.control.Ready? ==> !s.control.Ready? && s'.control.ok == s.control.ok)
  {
  }

  lemma AddedIsTruthful(s: State, a: Action, oks: seq<bool>)
    requires Proceeds(s) && !s.crashed
    requires forall r :: r in s.threads ==> 1 <= r <= |oks| && s.threads[r].ok == oks[r - 1]
    ensures forall k :: 0 <= k < |Added(s, a)| ==> TruthfulEntry(Added(s, a)[k], oks)
  {
  }

  lemma TruthPush(log: seq<Entry>, more: seq<Entry>, oks: seq<bool>)
    requires Truthful(log, oks) && forall k :: 0 <= k < |more| ==> TruthfulEntry(more[k], oks)
    ensures Truthful(log + more, oks)
  {
    hide TruthfulEntry;
  }

  lemma TruthExtends(log: seq<Entry>, oks: seq<bool>, oks': seq<bool>)
    requires Truthful(log, oks) && oks <= oks'
    ensures Truthful(log, oks')
  {
    forall k | 0 <= k < |log| ensures TruthfulEntry(log[k], oks') { assert TruthfulEntry(log[k], oks); }
  }

  lemma {:induction false} AlwaysFaithful(actions: seq<Action>)
    ensures Faithful(After(actions), Compiled(actions)) && Proceeds(After(actions))
  {
    hide Next, Faithful, Proceeds;
    if actions == [] {
      StartFaithful();
    } else {
      var before, a := actions[..|actions| - 1], actions[|actions| - 1];
      AlwaysFaithful(before);
      NeverCrashed(before);
      StepStaysFaithful(After(before), a, Compiled(before));
    }
  }

  lemma StartFaithful()
    ensures Faithful(INITIAL, []) && Proceeds(INITIAL)
  {
  }

  /** In every log the diagnostics of a run are good exactly if the source that this very run came with
      compiles, and a run whose source does not compile sends nothing else. */
  lemma {:induction false} DiagnosticsAreTruthful(actions: seq<Action>, k: nat)
    requires k < |After(actions).log|
    ensures |Compiled(actions)| == After(actions).accepted
    ensures match After(actions).log[k]
            case Sent(Diagnostics(run, ok)) => 1 <= run <= |Compiled(actions)| && ok == Compiled(actions)[run - 1]
            case Sent(ProgramStart(run)) => run > 0 ==> run <= |Compiled(actions)| && Compiled(actions)[run - 1]
            case Sent(Event(run)) => run > 0 ==> run <= |Compiled(actions)| && Compiled(actions)[run - 1]
            case Sent(Terminal(run, _)) => run > 0 ==> run <= |Compiled(actions)| && Compiled(actions)[run - 1]
            case _ => true
  {
    AlwaysFaithful(actions);
    hide After, Compiled, Proceeds;
    assert TruthfulEntry(After(actions).log[k], Compiled(actions));
  }

  // ---- ends ------------------------------------------------------------------------------------------------------

  /** The runs that have read a cancel while they were executing. */
  function Stopped(actions: seq<Action>): set<nat> {
    if actions == [] then {}
    else
      var before, a := actions[..|actions| - 1], actions[|actions| - 1];
      if a.Poll? && In(After(before), a.run, Executing) && After(before).cancel then Stopped(before) + {a.run} else Stopped(before)
  }

  ghost predicate Ends(s: State, stopped: set<nat>) {
    && (forall r :: r in stopped ==> r in s.threads)
    && (forall r :: r in s.threads && Unstopped(s.threads[r]) ==> r !in stopped)
    && (forall r :: r in s.threads && (s.threads[r].phase == Stopping || s.threads[r].phase == Ending) ==> r in stopped)
    && (forall k :: 0 <= k < |s.log| ==> EndsRightly(s.log[k], s, stopped))
  }

  predicate Unstopped(t: Thread) { t.phase == Compiling || t.phase == Starting || t.phase == Executing }

  predicate Over(t: Thread) { t.phase == Releasing || t.phase == Leaving || t.phase == Exited }

  /** A terminal message says cancelled exactly if its run has read a cancel, and its thread is past its work. */
  predicate EndsRightly(e: Entry, s: State, stopped: set<nat>) {
    e.Sent? && e.m.Terminal? ==> (e.m.cancelled <==> e.m.run in stopped) && e.m.run in s.threads && Over(s.threads[e.m.run])
  }

  function NowStopped(s: State, a: Action, stopped: set<nat>): set<nat> {
    if a.Poll? && In(s, a.run, Executing) && s.cancel then stopped + {a.run} else stopped
  }

  lemma {:induction false} StepEnds(s: State, a: Action, stopped: set<nat>)
    requires Ends(s, stopped) && !s.crashed && (s.control.Spawning? ==> s.accepted !in s.threads)
    ensures Ends(Next(s, a), NowStopped(s, a, stopped))
  {
    hide Next, EndsRightly, Added;
    var s', stopped' := Next(s, a), NowStopped(s, a, stopped);
    forall r | r in stopped' ensures r in s'.threads { StaysThere(s, a, r); }
    forall r | r in s'.threads
      ensures Unstopped(s'.threads[r]) ==> r !in stopped'
      ensures s'.threads[r].phase == Stopping || s'.threads[r].phase == Ending ==> r in stopped'
    {
      PhaseOf(s, a, r);
    }
    LogIs(s, a);
    AddedOne(s, a);
    forall k | 0 <= k < |s'.log| ensures EndsRightly(s'.log[k], s', stopped') {
      if k < |s.log| { assert s'.log[k] == s.log[k]; StaysRight(s, a, s.log[k], stopped); } else { AddsRight(s, a, stopped); }
    }
  }

  lemma StaysThere(s: State, a: Action, r: nat)
    ensures r in s.threads ==> r in Next(s, a).threads
  {
  }

  /** A thread of the next state has gone on by one phase at most, or is new. */
  lemma PhaseOf(s: State, a: Action, r: nat)
    requires r in Next(s, a).threads
    ensures var t := Next(s, a).threads[r];
            || (a.Spawn? && s.control.Spawning? && r == s.accepted && t.phase == Compiling)
            || (r in s.threads && t == s.threads[r] && !(a == Poll(r) && t.phase == Executing && s.cancel && !s.crashed))
            || (r in s.threads && Unstopped(s.threads[r]) && Unstopped(t) && !a.Poll?)
            || (r in s.threads && s.threads[r].phase == Executing && t.phase == Stopping && a == Poll(r) && s.cancel)
            || (r in s.threads && s.threads[r].phase == Stopping && t.phase == Ending && !a.Poll?)
            || (r in s.threads && Over(t) && !a.Poll?)
  {
  }

  lemma StaysRight(s: State, a: Action, e: Entry, stopped: set<nat>)
    requires EndsRightly(e, s, stopped) && (s.control.Spawning? ==> s.accepted !in s.threads)
    ensures EndsRightly(e, Next(s, a), NowStopped(s, a, stopped))
  {
  }

  lemma AddsRight(s: State, a: Action, stopped: set<nat>)
    requires Ends(s, stopped) && !s.crashed
    ensures forall k :: 0 <= k < |Added(s, a)| ==> EndsRightly(Added(s, a)[k], Next(s, a), NowStopped(s, a, stopped))
  {
    if a.SendTerminal? {
      assert In(s, a.run, Executing) ==> Unstopped(s.threads[a.run]);
    }
  }

  lemma {:induction false} AlwaysEnds(actions: seq<Action>)
    ensures Ends(After(actions), Stopped(actions))
  {
    hide Next, Ends, Inv;
    if actions == [] {
      StartEnds();
    } else {
      var before, a := actions[..|actions| - 1], actions[|actions| - 1];
      AlwaysEnds(before);
      NeverCrashed(before);
      SpawnsNew(before);
      StepEnds(After(before), a, Stopped(before));
    }
  }

  lemma SpawnsNew(actions: seq<Action>)
    ensures After(actions).control.Spawning? ==> After(actions).accepted !in After(actions).threads
  {
    AlwaysInv(actions);
    hide After, Blocks, CancelPending, LastAccepted, LastReleased;
  }

  lemma StartEnds()
    ensures Ends(INITIAL, {})
  {
  }

  /** A run says that it was cancelled exactly if it has read a cancel while it was executing. */
  lemma {:induction false} EndsSayWhether(actions: seq<Action>, k: nat, r: nat, cancelled: bool)
    requires k < |After(actions).log| && After(actions).log[k] == Sent(Terminal(r, cancelled))
    ensures cancelled <==> r in Stopped(actions)
  {
    AlwaysEnds(actions);
    hide After, Stopped;
    assert EndsRightly(After(actions).log[k], After(actions), Stopped(actions));
  }
}
