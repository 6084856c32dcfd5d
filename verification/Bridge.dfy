// The run/cancel protocol of harness/protocol_bridge.hpp: the control thread and the
// worker threads as a system of atomic steps.

module Bridge {
  import opened Options

  /** A protocol message, worker messages with the number of their run. */
  datatype Message =
    | Reply                                     // an error, or the diagnostics of a compile
    | Diagnostics(run: nat, ok: bool)
    | ProgramStart(run: nat)
    | Event(run: nat)                           // node, robotCommand or sensorRead
    | Terminal(run: nat, cancelled: bool)       // programDone or programError

  /** What has happened so far: messages sent, runs accepted, cancels handled, runs over. */
  datatype Entry = Sent(m: Message) | Accepted(run: nat) | CancelHandled | Released(run: nat)

  /** The control thread: between messages, or inside do_run after `running_` was taken. */
  datatype Control = Ready | Joining(ok: bool) | Clearing(ok: bool) | Spawning(ok: bool)

  datatype Phase =
    | Compiling | Starting | Executing
    | Stopping                                  // a poll has read true: the safety stop is next
    | Ending                                    // ... and then the programError message
    | Releasing                                 // about to store running_ = false
    | Leaving                                   // about to return from the thread function
    | Exited

  datatype Thread = Thread(ok: bool, phase: Phase)

  /** `handle` is the thread that `worker_` would join. Assigning over a joinable thread ends
      the process: `crashed`. */
  datatype State = State(running: bool, cancel: bool, control: Control,
                         handle: Option<nat>, threads: map<nat, Thread>,
                         accepted: nat, crashed: bool, log: seq<Entry>)

  const INITIAL := State(false, false, Ready, None, map[], 0, false, [])

  datatype Action =
      // control thread
    | HandleRun(ok: bool)                       // ok: whether the source will compile
    | HandleCancel
    | HandleOther(replies: bool)
    | Join | Clear | Spawn
      // a worker thread
    | SendDiagnostics(run: nat) | SendStart(run: nat) | Poll(run: nat) | SendEvent(run: nat)
    | SendStop(run: nat) | SendTerminal(run: nat) | Release(run: nat) | Exit(run: nat)

  function Sends(s: State, m: Message): State { s.(log := s.log + [Sent(m)]) }

  function Goes(s: State, run: nat, phase: Phase): State
    requires run in s.threads
  {
    s.(threads := s.threads[run := s.threads[run].(phase := phase)])
  }

  predicate In(s: State, run: nat, phase: Phase) {
    run in s.threads && s.threads[run].phase == phase
  }

  /** The step, or the same state if it is not enabled. */
  function Next(s: State, a: Action): State {
    if s.crashed then s
    else
      match a
      case HandleRun(ok) =>
        if s.control != Ready then s
        else if s.running then Sends(s, Reply)
        else s.(running := true, control := Joining(ok), accepted := s.accepted + 1, log := s.log + [Accepted(s.accepted + 1)])
      case HandleCancel =>
        if s.control != Ready then s else s.(cancel := true, log := s.log + [CancelHandled])
      case HandleOther(replies) =>
        if s.control != Ready || !replies then s else Sends(s, Reply)
      case Join =>
        if !s.control.Joining? then s
        else if s.handle.None? then s.(control := Clearing(s.control.ok))
        else if In(s, s.handle.value, Exited) then s.(handle := None, control := Clearing(s.control.ok))
        else s
      case Clear => if !s.control.Clearing? then s else s.(cancel := false, control := Spawning(s.control.ok))
      case Spawn =>
        if !s.control.Spawning? then s
        else if s.handle.Some? then s.(crashed := true)
        else s.(handle := Some(s.accepted), threads := s.threads[s.accepted := Thread(s.control.ok, Compiling)], control := Ready)
      case SendDiagnostics(run) =>
        if !In(s, run, Compiling) then s
        else Goes(Sends(s, Diagnostics(run, s.threads[run].ok)), run, if s.threads[run].ok then Starting else Releasing)
      case SendStart(run) => if !In(s, run, Starting) then s else Goes(Sends(s, ProgramStart(run)), run, Executing)
      case Poll(run) => if !In(s, run, Executing) || !s.cancel then s else Goes(s, run, Stopping)
      case SendEvent(run) => if !In(s, run, Executing) then s else Sends(s, Event(run))
      case SendStop(run) => if !In(s, run, Stopping) then s else Goes(Sends(s, Event(run)), run, Ending)
      case SendTerminal(run) =>
        if In(s, run, Executing) then Goes(Sends(s, Terminal(run, false)), run, Releasing)
        else if In(s, run, Ending) then Goes(Sends(s, Terminal(run, true)), run, Releasing)
        else s
      case Release(run) =>
        if !In(s, run, Releasing) then s else Goes(s.(running := false, log := s.log + [Released(run)]), run, Leaving)
      case Exit(run) => if !In(s, run, Leaving) then s else Goes(s, run, Exited)
  }

  function After(actions: seq<Action>): State {
    if actions == [] then INITIAL else Next(After(actions[..|actions| - 1]), actions[|actions| - 1])
  }

  // ---- the message blocks of the runs ----------------------------------------------------------------

  /** Where the worker messages have got to: `done` runs complete, or inside the block of one. */
  datatype Block = Between(done: nat) | Diagnosed(run: nat) | Started(run: nat) | Garbled

  function StepBlock(b: Block, e: Entry): Block {
    match e
    case Sent(Diagnostics(run, ok)) =>
      if b.Between? && run == b.done + 1 then (if ok then Diagnosed(run) else Between(run)) else Garbled
    case Sent(ProgramStart(run)) => if b == Diagnosed(run) then Started(run) else Garbled
    case Sent(Event(run)) => if b == Started(run) then b else Garbled
    case Sent(Terminal(run, _)) => if b == Started(run) then Between(run) else Garbled
    case _ => b
  }

  function Blocks(log: seq<Entry>): Block {
    if log == [] then Between(0) else StepBlock(Blocks(log[..|log| - 1]), log[|log| - 1])
  }

  // ---- cancels ------------------------------------------------------------------------------------------

  /** A cancel has been handled since the last run was accepted. */
  function CancelPending(log: seq<Entry>): bool {
    if log == [] then false
    else
      match log[|log| - 1]
      case Accepted(_) => false
      case CancelHandled => true
      case _ => CancelPending(log[..|log| - 1])
  }

  /** The number of the run accepted last, 0 if none has been. */
  function LastAccepted(log: seq<Entry>): nat {
    if log == [] then 0
    else if log[|log| - 1].Accepted? then log[|log| - 1].run
    else LastAccepted(log[..|log| - 1])
  }

  /** The run accepted last is over. */
  function LastReleased(log: seq<Entry>): bool {
    if log == [] then true
    else
      match log[|log| - 1]
      case Accepted(_) => false
      case Released(_) => true
      case _ => LastReleased(log[..|log| - 1])
  }

  lemma LogPush(log: seq<Entry>, e: Entry)
    ensures Blocks(log + [e]) == StepBlock(Blocks(log), e)
    ensures CancelPending(log + [e]) == (if e.Accepted? then false else e.CancelHandled? || CancelPending(log))
    ensures LastAccepted(log + [e]) == if e.Accepted? then e.run else LastAccepted(log)
    ensures LastReleased(log + [e]) == (if e.Accepted? then false else e.Released? || LastReleased(log))
  {
    assert (log + [e])[..|log|] == log;
  }

  // ---- the invariant ----------------------------------------------------------------------------------------

  /** The block the messages are in, from the phase of the last run's thread. */
  predicate BlockFits(b: Block, run: nat, phase: Phase) {
    match phase
    case Compiling => b == Between(if run > 0 then run - 1 else 0)
    case Starting => b == Diagnosed(run)
    case Executing | Stopping | Ending => b == Started(run)
    case _ => b == Between(run)
  }

  predicate Busy(t: Thread) { t.phase != Leaving && t.phase != Exited }

  ghost predicate Inv(s: State) {
    && !s.crashed
    && LastAccepted(s.log) == s.accepted
    && (s.running <==> !LastReleased(s.log))
    && (forall r :: r in s.threads ==> 1 <= r <= s.accepted)
    && (forall r :: r in s.threads && r < s.accepted ==> !Busy(s.threads[r]))
    && (s.handle.Some? ==> s.handle.value in s.threads)
    && (forall r :: r in s.threads && s.threads[r].phase != Exited ==> s.handle == Some(r))
    && (if s.control == Ready then
          && (s.cancel <==> CancelPending(s.log))
          && (s.accepted == 0 ==> s.threads == map[] && !s.running && Blocks(s.log) == Between(0))
          && (s.accepted > 0 ==>
                && s.accepted in s.threads
                && (s.running <==> Busy(s.threads[s.accepted]))
                && BlockFits(Blocks(s.log), s.accepted, s.threads[s.accepted].phase)
                && (s.threads[s.accepted].phase == Stopping || s.threads[s.accepted].phase == Ending ==> CancelPending(s.log)))
        else
          && s.running && s.accepted > 0 && s.accepted !in s.threads
          && Blocks(s.log) == Between(s.accepted - 1)
          && !CancelPending(s.log)
          && (s.control.Spawning? ==> !s.cancel)
          && (!s.control.Joining? ==> s.handle == None))
  }

  lemma {:induction false} ControlStepKeepsInv(s: State, a: Action)
    requires Inv(s)
    requires a.HandleRun? || a.HandleCancel? || a.HandleOther? || a.Join? || a.Clear? || a.Spawn?
    ensures Inv(Next(s, a))
  {
    hide Blocks, CancelPending, LastAccepted, LastReleased;
    match a
    case HandleRun(_) => LogPush(s.log, Accepted(s.accepted + 1)); LogPush(s.log, Sent(Reply));
    case HandleCancel => LogPush(s.log, CancelHandled);
    case HandleOther(_) => LogPush(s.log, Sent(Reply));
    case _ =>
  }

  /** Only the last run's thread is ever at work, and then the control thread is ready. */
  lemma {:induction false} WorkerIsLast(s: State, run: nat)
    requires Inv(s) && run in s.threads && Busy(s.threads[run])
    ensures run == s.accepted && s.control == Ready && s.handle == Some(run) && s.running
  {
    hide Blocks, CancelPending, LastAccepted, LastReleased;
  }

  lemma {:induction false} SendDiagnosticsKeepsInv(s: State, run: nat)
    requires Inv(s)
    ensures Inv(Next(s, SendDiagnostics(run)))
  {
    hide Blocks, CancelPending, LastAccepted, LastReleased;
    if run in s.threads && Busy(s.threads[run]) {
      WorkerIsLast(s, run);
      LogPush(s.log, Sent(Diagnostics(run, s.threads[run].ok)));
    }
  }

  lemma {:induction false} SendStartKeepsInv(s: State, run: nat)
    requires Inv(s)
    ensures Inv(Next(s, SendStart(run)))
  {
    hide Blocks, CancelPending, LastAccepted, LastReleased;
    if run in s.threads && Busy(s.threads[run]) {
      WorkerIsLast(s, run);
      LogPush(s.log, Sent(ProgramStart(run)));
    }
  }

  lemma {:induction false} PollKeepsInv(s: State, run: nat)
    requires Inv(s)
    ensures Inv(Next(s, Poll(run)))
  {
    hide Blocks, CancelPending, LastAccepted, LastReleased;
    if run in s.threads && Busy(s.threads[run]) {
      WorkerIsLast(s, run);
    }
  }

  lemma {:induction false} SendEventKeepsInv(s: State, run: nat)
    requires Inv(s)
    ensures Inv(Next(s, SendEvent(run)))
  {
    hide Blocks, CancelPending, LastAccepted, LastReleased;
    if run in s.threads && Busy(s.threads[run]) {
      WorkerIsLast(s, run);
      LogPush(s.log, Sent(Event(run)));
    }
  }

  lemma {:induction false} SendStopKeepsInv(s: State, run: nat)
    requires Inv(s)
    ensures Inv(Next(s, SendStop(run)))
  {
    hide Blocks, CancelPending, LastAccepted, LastReleased;
    if run in s.threads && Busy(s.threads[run]) {
      WorkerIsLast(s, run);
      LogPush(s.log, Sent(Event(run)));
    }
  }

  lemma {:induction false} FinishKeepsInv(s: State, run: nat)
    requires Inv(s)
    ensures Inv(Next(s, SendTerminal(run)))
  {
    hide Blocks, CancelPending, LastAccepted, LastReleased;
    if run in s.threads && Busy(s.threads[run]) {
      WorkerIsLast(s, run);
      LogPush(s.log, Sent(Terminal(run, s.threads[run].phase == Ending)));
    }
  }

  lemma {:induction false} ReleaseKeepsInv(s: State, run: nat)
    requires Inv(s)
    ensures Inv(Next(s, Release(run)))
  {
    hide Blocks, CancelPending, LastAccepted, LastReleased;
    if run in s.threads && Busy(s.threads[run]) {
      WorkerIsLast(s, run);
      LogPush(s.log, Released(run));
    }
  }

  lemma {:induction false} ExitKeepsInv(s: State, run: nat)
    requires Inv(s)
    ensures Inv(Next(s, Exit(run)))
  {
    hide Blocks, CancelPending, LastAccepted, LastReleased;
  }

  /** Every step of every thread keeps the invariant. */
  lemma {:induction false} StepKeepsInv(s: State, a: Action)
    requires Inv(s)
    ensures Inv(Next(s, a))
  {
    hide Inv, Next;
    match a
    case SendDiagnostics(run) => SendDiagnosticsKeepsInv(s, run);
    case SendStart(run) => SendStartKeepsInv(s, run);
    case Poll(run) => PollKeepsInv(s, run);
    case SendEvent(run) => SendEventKeepsInv(s, run);
    case SendStop(run) => SendStopKeepsInv(s, run);
    case SendTerminal(run) => FinishKeepsInv(s, run);
    case Release(run) => ReleaseKeepsInv(s, run);
    case Exit(run) => ExitKeepsInv(s, run);
    case _ => ControlStepKeepsInv(s, a);
  }

  /** The invariant holds in every state the bridge can get into, whatever messages arrive and
      however the threads interleave. */
  lemma {:induction false} AlwaysInv(actions: seq<Action>)
    ensures Inv(After(actions))
  {
    hide Inv, Next;
    if actions == [] {
      StartInv();
    } else {
      AlwaysInv(actions[..|actions| - 1]);
      StepKeepsInv(After(actions[..|actions| - 1]), actions[|actions| - 1]);
    }
  }

  lemma StartInv()
    ensures Inv(INITIAL)
  {
  }

  // ---- the theorems --------------------------------------------------------------------------------------------

  /** One run at a time: no two threads are ever at work, no joinable thread is overwritten, and
      a join only ever waits for a thread that has nothing left to do but return. */
  lemma {:induction false} OneRunAtATime(actions: seq<Action>, r: nat, q: nat)
    requires r in After(actions).threads && Busy(After(actions).threads[r])
    requires q in After(actions).threads && Busy(After(actions).threads[q])
    ensures r == q && After(actions).running && r == After(actions).accepted
  {
    hide Blocks, CancelPending, LastAccepted, LastReleased;
    AlwaysInv(actions);
  }

  lemma {:induction false} JoinNeverWaitsForWork(actions: seq<Action>)
    ensures var s := After(actions);
            && !s.crashed
            && (s.control.Joining? && s.handle.Some? ==>
                  s.handle.value in s.threads && (In(s, s.handle.value, Leaving) || In(s, s.handle.value, Exited)))
  {
    hide Blocks, CancelPending, LastAccepted, LastReleased;
    AlwaysInv(actions);
  }

  function RunOf(e: Entry): nat {
    match e
    case Sent(Diagnostics(run, _)) => run
    case Sent(ProgramStart(run)) => run
    case Sent(Event(run)) => run
    case Sent(Terminal(run, _)) => run
    case _ => 0
  }

  function Current(b: Block): nat {
    match b
    case Between(done) => done
    case Diagnosed(run) => run
    case Started(run) => run
    case Garbled => 0
  }

  /** In an ungarbled log the runs' messages come in the order of the runs. */
  lemma {:induction false} RunsInOrder(log: seq<Entry>)
    requires Blocks(log) != Garbled
    ensures forall j :: 0 <= j < |log| ==> RunOf(log[j]) <= Current(Blocks(log))
    ensures forall i, j :: 0 <= i < j < |log| && RunOf(log[j]) > 0 ==> RunOf(log[i]) <= RunOf(log[j])
  {
    if log != [] { RunsInOrder(log[..|log| - 1]); }
  }

  /** The messages of successive runs never overlap: each run sends its diagnostics and then, if
      it compiled, programStart, its events and one terminal message, before the next begins. */
  lemma {:induction false} BlocksNeverOverlap(actions: seq<Action>)
    ensures Blocks(After(actions).log) != Garbled
    ensures var log := After(actions).log;
            forall i, j :: 0 <= i < j < |log| && RunOf(log[j]) > 0 ==> RunOf(log[i]) <= RunOf(log[j])
  {
    AlwaysInv(actions);
    hide Next;
    RunsInOrder(After(actions).log);
  }

  /** What a run at work reads from the cancel flag: whether a cancel has been handled since that
      very run was accepted. So a cancel before the run never affects it. */
  lemma {:induction false} CancelIsSinceAcceptance(actions: seq<Action>, r: nat)
    requires r in After(actions).threads && Busy(After(actions).threads[r])
    ensures var s := After(actions); (s.cancel <==> CancelPending(s.log)) && LastAccepted(s.log) == r
  {
    hide Blocks, CancelPending, LastAccepted, LastReleased;
    AlwaysInv(actions);
  }

  /** A cancel after acceptance stays set until that run is over. */
  lemma {:induction false} CancelStays(actions: seq<Action>, a: Action, r: nat)
    requires r in After(actions).threads && Busy(After(actions).threads[r]) && After(actions).cancel
    ensures var s := Next(After(actions), a); s.cancel && r in s.threads
  {
    hide Blocks, CancelPending, LastAccepted, LastReleased;
    AlwaysInv(actions);
  }

  /** A cancel was handled at some point after run `r` was accepted, and no other since. */
  ghost predicate CancelledAfter(log: seq<Entry>, r: nat) {
    exists i, j :: 0 <= i < j < |log| && log[i] == Accepted(r) && log[j] == CancelHandled
                   && forall k :: i < k < |log| ==> !log[k].Accepted?
  }

  lemma {:induction false} AcceptedSomewhere(log: seq<Entry>) returns (i: nat)
    requires LastAccepted(log) > 0
    ensures i < |log| && log[i] == Accepted(LastAccepted(log))
    ensures forall k :: i < k < |log| ==> !log[k].Accepted?
  {
    if log[|log| - 1].Accepted? { i := |log| - 1; } else { i := AcceptedSomewhere(log[..|log| - 1]); }
  }

  lemma {:induction false} CancelSomewhere(log: seq<Entry>) returns (j: nat)
    requires CancelPending(log)
    ensures j < |log| && log[j] == CancelHandled
    ensures forall k :: j < k < |log| ==> !log[k].Accepted?
  {
    if log[|log| - 1].CancelHandled? { j := |log| - 1; } else { j := CancelSomewhere(log[..|log| - 1]); }
  }

  /** A run that ends as cancelled was cancelled: after it was accepted, before it ended. */
  lemma {:induction false} CancelledRunsWereCancelled(actions: seq<Action>, k: nat, r: nat)
    requires k < |After(actions).log| && After(actions).log[k] == Sent(Terminal(r, true))
    ensures CancelledAfter(After(actions).log[..k], r)
  {
    hide Blocks, CancelPending, LastAccepted, LastReleased, Inv;
    var before, a := actions[..|actions| - 1], actions[|actions| - 1];
    var s, s' := After(before), After(actions);
    LogGrows(s, a);
    if k < |s.log| {
      assert s'.log[..k] == s.log[..k];
      CancelledRunsWereCancelled(before, k, r);
    } else {
      CancelledNow(before, a, k, r);
    }
  }

  lemma {:induction false} LogGrows(s: State, a: Action)
    ensures s.log <= Next(s, a).log && |Next(s, a).log| <= |s.log| + 1
  {
  }

  lemma {:induction false} CancelledNow(before: seq<Action>, a: Action, k: nat, r: nat)
    requires var s, s' := After(before), Next(After(before), a);
             |s.log| <= k < |s'.log| && s'.log[k] == Sent(Terminal(r, true))
    ensures CancelledAfter(Next(After(before), a).log[..k], r)
  {
    hide Blocks, CancelPending, LastAccepted, LastReleased;
    AlwaysInv(before);
    var s := After(before);
    OnlyStoppedRunsAreCancelled(s, a, k, r);
    hide Next, Inv;
    var log := s.log;
    var i := AcceptedSomewhere(log);
    var j := CancelSomewhere(log);
    assert log[i] == Accepted(r) && log[j] == CancelHandled;
  }

  lemma {:induction false} OnlyStoppedRunsAreCancelled(s: State, a: Action, k: nat, r: nat)
    requires Inv(s) && |s.log| <= k < |Next(s, a).log| && Next(s, a).log[k] == Sent(Terminal(r, true))
    ensures Next(s, a).log[..k] == s.log
    ensures CancelPending(s.log) && LastAccepted(s.log) == r && r > 0
  {
    hide Blocks, CancelPending, LastAccepted, LastReleased;
    assert a == SendTerminal(r) && In(s, r, Ending);
    WorkerIsLast(s, r);
  }

  // ---- the object whose fields the steps update ------------------------------------------------------------

  /** The bridge and its worker threads; each method is one atomic step of one thread, called
      where that thread has got to. */
  class ProtocolBridge {
    var running: bool
    var cancel: bool
    var worker: Option<nat>
    var control: Control
    var threads: map<nat, Thread>
    var accepted: nat
    var crashed: bool
    var log: seq<Entry>

    ghost function Abs(): State
      reads this
    {
      State(running, cancel, control, worker, threads, accepted, crashed, log)
    }

    /** The invariant of the protocol, and with it all that is proved from it, for this object. */
    ghost predicate Valid()
      reads this
    {
      Inv(Abs())
    }

    predicate At(run: nat, phase: Phase)
      reads this
    {
      run in threads && threads[run].phase == phase
    }

    constructor ()
      ensures Abs() == INITIAL && Valid()
    {
      running, cancel, worker, control, threads, accepted, crashed, log := false, false, None, Ready, map[], 0, false, [];
      new;
      StartInv();
    }

    method Emit(m: Message)
      modifies this`log
      ensures log == old(log) + [Sent(m)]
    {
      log := log + [Sent(m)];
    }

    // the control thread

    method HandleRun(ok: bool)
      requires Valid() && control == Ready
      modifies this
      ensures Valid() && Abs() == Next(old(Abs()), Action.HandleRun(ok))
    {
      hide Inv;
      Enabled(Action.HandleRun(ok));
      var was := running;
      running := true;
      if was {
        Emit(Reply);
        return;
      }
      accepted := accepted + 1;
      control := Joining(ok);
      log := log + [Accepted(accepted)];
    }

    method HandleCancel()
      requires Valid() && control == Ready
      modifies this
      ensures Valid() && Abs() == Next(old(Abs()), Action.HandleCancel)
    {
      hide Inv;
      Enabled(Action.HandleCancel);
      cancel := true;
      log := log + [Entry.CancelHandled];
    }

    /** compile, setSensor, reset and malformed messages: at most a reply. */
    method HandleOther(replies: bool)
      requires Valid() && control == Ready
      modifies this
      ensures Valid() && Abs() == Next(old(Abs()), Action.HandleOther(replies))
    {
      hide Inv;
      Enabled(Action.HandleOther(replies));
      if replies { Emit(Reply); }
    }

    /** Reaps the previous run's thread; false if it has to wait for that thread to return. */
    method TryJoin() returns (done: bool)
      requires Valid() && control.Joining?
      modifies this
      ensures Valid() && Abs() == Next(old(Abs()), Join) && done == control.Clearing?
    {
      hide Inv;
      Enabled(Join);
      if worker.Some? { HandleIsThread(); }
      if worker.Some? {
        if threads[worker.value].phase != Exited { return false; }
        worker := None;
      }
      control := Clearing(control.ok);
      return true;
    }

    method ClearCancel()
      requires Valid() && control.Clearing?
      modifies this
      ensures Valid() && Abs() == Next(old(Abs()), Clear)
    {
      hide Inv;
      Enabled(Clear);
      cancel := false;
      control := Spawning(control.ok);
    }

    /** Assigning over a joinable thread would end the process; it never is one. */
    method SpawnWorker()
      requires Valid() && control.Spawning?
      modifies this
      ensures Valid() && Abs() == Next(old(Abs()), Spawn) && !crashed
    {
      hide Inv;
      Enabled(Spawn);
      NothingToOverwrite();
      worker := Some(accepted);
      threads := threads[accepted := Thread(control.ok, Compiling)];
      control := Ready;
    }

    // the job of a worker thread

    method Advance(run: nat, phase: Phase)
      requires run in threads
      modifies this`threads
      ensures threads == old(threads)[run := old(threads)[run].(phase := phase)]
    {
      threads := threads[run := threads[run].(phase := phase)];
    }

    method EmitDiagnostics(run: nat)
      requires Valid() && At(run, Compiling)
      modifies this
      ensures Valid() && Abs() == Next(old(Abs()), SendDiagnostics(run))
    {
      hide Inv;
      Enabled(SendDiagnostics(run));
      Emit(Diagnostics(run, threads[run].ok));
      Advance(run, if threads[run].ok then Starting else Releasing);
    }

    method StartProgram(run: nat)
      requires Valid() && At(run, Starting)
      modifies this
      ensures Valid() && Abs() == Next(old(Abs()), SendStart(run))
    {
      hide Inv;
      Enabled(SendStart(run));
      Emit(ProgramStart(run));
      Advance(run, Executing);
    }

    /** One read of the flag, before an evaluation. */
    method PollCancel(run: nat) returns (stop: bool)
      requires Valid() && At(run, Executing)
      modifies this
      ensures Valid() && Abs() == Next(old(Abs()), Poll(run)) && stop == At(run, Stopping)
      ensures stop <==> CancelPending(log)
    {
      hide Inv;
      Enabled(Poll(run));
      FlagIsPending(run);
      stop := cancel;
      if stop { Advance(run, Stopping); }
    }

    method EmitEvent(run: nat)
      requires Valid() && At(run, Executing)
      modifies this
      ensures Valid() && Abs() == Next(old(Abs()), SendEvent(run))
    {
      hide Inv;
      Enabled(SendEvent(run));
      Emit(Event(run));
    }

    method EmitStop(run: nat)
      requires Valid() && At(run, Stopping)
      modifies this
      ensures Valid() && Abs() == Next(old(Abs()), SendStop(run))
    {
      hide Inv;
      Enabled(SendStop(run));
      Emit(Event(run));
      Advance(run, Ending);
    }

    method EndProgram(run: nat)
      requires Valid() && (At(run, Executing) || At(run, Ending))
      modifies this
      ensures Valid() && Abs() == Next(old(Abs()), SendTerminal(run))
    {
      hide Inv;
      Enabled(SendTerminal(run));
      Emit(Terminal(run, threads[run].phase == Ending));
      Advance(run, Releasing);
    }

    method ReleaseBridge(run: nat)
      requires Valid() && At(run, Releasing)
      modifies this
      ensures Valid() && Abs() == Next(old(Abs()), Release(run))
    {
      hide Inv;
      Enabled(Release(run));
      running := false;
      log := log + [Released(run)];
      Advance(run, Leaving);
    }

    method ReturnFromThread(run: nat)
      requires Valid() && At(run, Leaving)
      modifies this
      ensures Valid() && Abs() == Next(old(Abs()), Exit(run))
    {
      hide Inv;
      Enabled(Exit(run));
      Advance(run, Exited);
    }

    // ---- the threads together

    /** The next step of one thread, if that thread is where it can make it. */
    method Perform(a: Action)
      requires Valid()
      modifies this
      ensures Valid() && Abs() == Next(old(Abs()), a)
    {
      hide Inv;
      Enabled(a);
      match a {
        case HandleRun(ok) => if control == Ready { HandleRun(ok); }
        case HandleCancel => if control == Ready { HandleCancel(); }
        case HandleOther(replies) => if control == Ready { HandleOther(replies); }
        case Join => if control.Joining? { var done := TryJoin(); }
        case Clear => if control.Clearing? { ClearCancel(); }
        case Spawn => if control.Spawning? { SpawnWorker(); }
        case SendDiagnostics(run) => if At(run, Compiling) { EmitDiagnostics(run); }
        case SendStart(run) => if At(run, Starting) { StartProgram(run); }
        case Poll(run) => if At(run, Executing) { var stop := PollCancel(run); }
        case SendEvent(run) => if At(run, Executing) { EmitEvent(run); }
        case SendStop(run) => if At(run, Stopping) { EmitStop(run); }
        case SendTerminal(run) => if At(run, Executing) || At(run, Ending) { EndProgram(run); }
        case Release(run) => if At(run, Releasing) { ReleaseBridge(run); }
        case Exit(run) => if At(run, Leaving) { ReturnFromThread(run); }
      }
    }

    lemma Enabled(a: Action)
      requires Valid()
      ensures !crashed && Inv(Next(Abs(), a))
    {
      StepKeepsInv(Abs(), a);
      hide Blocks, CancelPending, LastAccepted, LastReleased;
    }

    lemma HandleIsThread()
      requires Valid() && worker.Some?
      ensures worker.value in threads
    {
    }

    lemma NothingToOverwrite()
      requires Valid() && control.Spawning?
      ensures worker.None?
    {
    }

    lemma FlagIsPending(run: nat)
      requires Valid() && At(run, Executing)
      ensures cancel <==> CancelPending(log)
    {
      hide Blocks, CancelPending, LastAccepted, LastReleased;
    }
  }

  /** Any schedule of the threads, carried out on a bridge: it ends where the step system does, and
      so with everything that is proved of that. */
  method RunSchedule(actions: seq<Action>) returns (bridge: ProtocolBridge)
    ensures fresh(bridge) && bridge.Valid() && bridge.Abs() == After(actions)
  {
    hide Inv, Next;
    bridge := new ProtocolBridge();
    for i := 0 to |actions|
      invariant fresh(bridge) && bridge.Valid() && bridge.Abs() == After(actions[..i])
    {
      assert actions[..i + 1][..i] == actions[..i];
      bridge.Perform(actions[i]);
    }
    assert actions[..|actions|] == actions;
  }
}
