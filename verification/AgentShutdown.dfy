/** How the agent stops: the worker pool runs dry, Shutdown joins it, and when neither
    of these nor the absence of a panic can be relied on (internal/agent/agent.go). */
module AgentShutdown {
  import opened Model
  import opened Agent
  import opened AgentRuns

  // ---------- The pool runs dry ----------

  /** Steps of the worker pool itself. */
  predicate PoolStep(a: Action) {
    ConcernsWorker(a)
  }

  /** How much the pool still has to do once nothing can be added. */
  function Remaining(s: State): nat {
    2 * |Queue(s)| + AllLeft(s.workers)
  }

  lemma ClosedStepCounts(s: State, a: Action)
    requires Inv(s) && Enabled(s, a) && Closed(s)
    ensures Closed(Do(s, a))
    ensures PoolStep(a) ==> Remaining(Do(s, a)) < Remaining(s)
    ensures !PoolStep(a) ==> Remaining(Do(s, a)) == Remaining(s)
  {
    OneWorkerChanges(s, a);
    if PoolStep(a) {
      LeftAfter(s.workers, WorkerOf(s, a), Do(s, a).workers[WorkerOf(s, a)]);
    }
  }

  function PoolSteps(acts: seq<Action>): nat {
    if acts == [] then 0 else (if PoolStep(acts[0]) then 1 else 0) + PoolSteps(acts[1..])
  }

  /** After close no run, however long, has more pool steps in it than what remained to be done. */
  lemma {:induction false} PoolRunsDry(s: State, acts: seq<Action>)
    requires Inv(s) && Closed(s) && Play(s, acts).Some?
    ensures Closed(Play(s, acts).value)
    ensures PoolSteps(acts) + Remaining(Play(s, acts).value) <= Remaining(s)
    decreases |acts|
  {
    if acts != [] {
      ClosedStepCounts(s, acts[0]);
      StepKeepsInv(s, acts[0]);
      PoolRunsDry(Do(s, acts[0]), acts[1..]);
    }
  }

  /** While Shutdown waits, either it can return or some worker can take a step. */
  lemma WaitNeverDeadlocks(s: State) returns (a: Action)
    requires Inv(s) && s.closer.Joining? && !s.panicked
    ensures Enabled(s, a)
    ensures a == WaitReturns <==> Live(s.workers) == 0
    ensures a != WaitReturns ==> PoolStep(a) && !a.Spawn?
  {
    if Live(s.workers) == 0 {
      a := WaitReturns;
    } else {
      var w := SomeoneLives(s.workers);
      a := if s.workers[w].Busy? then SendReturns(w) else if Queue(s) == [] then WorkerSeesClose(w) else Take(w);
    }
  }

  /** What a drain leaves alone. */
  predicate SameButPool(s: State, s': State) {
    && s'.runner == s.runner && s'.dispatcher == s.dispatcher && s'.closer == s.closer
    && s'.panicked == s.panicked && s'.rateLimit == s.rateLimit && |s'.workers| == |s.workers|
  }

  /** If every SendBatch returns, the workers can finish: from every state in which Shutdown
      waits there is a run of worker steps alone after which nobody is left. */
  lemma {:induction false} Drain(s: State) returns (s': State)
    requires Inv(s) && s.closer.Joining? && !s.panicked
    ensures CanReach(s, s') && Inv(s') && SameButPool(s, s') && Live(s'.workers) == 0
    decreases Remaining(s)
  {
    var a := WaitNeverDeadlocks(s);
    if a == WaitReturns {
      ReachSelf(s);
      s' := s;
    } else {
      ClosedStepCounts(s, a);
      StepKeepsInv(s, a);
      OneWorkerChanges(s, a);
      s' := Drain(Do(s, a));
      StepThenReach(s, a, s');
    }
  }

  lemma StepThenReach(s: State, a: Action, s': State)
    requires Enabled(s, a) && CanReach(Do(s, a), s')
    ensures CanReach(s, s')
  {
    var acts :| Leads(Do(s, a), acts, s');
    assert ([a] + acts)[1..] == acts;
    assert Leads(s, [a] + acts, s');
  }

  lemma ReachThenReach(s: State, t: State, u: State)
    requires CanReach(s, t) && CanReach(t, u)
    ensures CanReach(s, u)
  {
    var a :| Leads(s, a, t);
    var b :| Leads(t, b, u);
    PlayConcat(s, a, b);
    assert Leads(s, a + b, u);
  }

  /** So Shutdown can return from wherever it waits, with nobody left running. */
  lemma WaitCanEnd(s: State) returns (s': State)
    requires Reachable(s) && s.closer.Joining? && !s.panicked
    ensures CanReach(s, s') && s'.closer.Finished? && Live(s'.workers) == 0
  {
    ReachableInv(s);
    var t := Drain(s);
    s' := Do(t, WaitReturns);
    ReachOn(s, t, WaitReturns);
  }

  /** Steps of the pool, and Wait returning: what a scheduler owes a Shutdown that waits. */
  function EndingSteps(acts: seq<Action>): nat {
    if acts == [] then 0
    else (if PoolStep(acts[0]) || acts[0].WaitReturns? then 1 else 0) + EndingSteps(acts[1..])
  }

  lemma WaitingStep(s: State, a: Action)
    requires Enabled(s, a)
    ensures s.closer.Finished? ==> Do(s, a).closer.Finished?
    ensures s.closer.Joining? ==> if a.WaitReturns? then Do(s, a).closer.Finished? else Do(s, a).closer.Joining?
  {
  }

  lemma {:induction false} FinishedStays(s: State, acts: seq<Action>)
    requires s.closer.Finished? && Play(s, acts).Some?
    ensures Play(s, acts).value.closer.Finished?
    decreases |acts|
  {
    if acts != [] {
      WaitingStep(s, acts[0]);
      FinishedStays(Do(s, acts[0]), acts[1..]);
    }
  }

  /** However the steps are scheduled: once there were more of them, by workers or by Wait
      returning, than the pool had left to do, Wait has returned. */
  lemma {:induction false} WaitEnds(s: State, acts: seq<Action>)
    requires Inv(s) && s.closer.Joining? && Play(s, acts).Some? && EndingSteps(acts) > Remaining(s)
    ensures Play(s, acts).value.closer.Finished?
    decreases |acts|
  {
    WaitingStep(s, acts[0]);
    if acts[0].WaitReturns? {
      FinishedStays(Do(s, acts[0]), acts[1..]);
    } else {
      ClosedStepCounts(s, acts[0]);
      StepKeepsInv(s, acts[0]);
      WaitEnds(Do(s, acts[0]), acts[1..]);
    }
  }

  // ---------- Shutdown joins the workers ----------

  /** All workers there will ever be have been started. */
  predicate AllStarted(s: State) {
    forall i :: 0 <= i < |s.workers| ==> !s.workers[i].Unborn?
  }

  ghost predicate JoinInv(s: State) {
    && Inv(s) && AllStarted(s)
    && (s.closer.Closing? || s.closer.Joining? || s.closer.Finished?)
    && (s.closer.Finished? ==> Live(s.workers) == 0)
  }

  lemma StepKeepsJoinInv(s: State, a: Action)
    requires JoinInv(s) && Enabled(s, a)
    ensures JoinInv(Do(s, a))
  {
    StepKeepsInv(s, a);
    OneWorkerChanges(s, a);
    if ConcernsWorker(a) {
      LiveAfter(s.workers, WorkerOf(s, a), Do(s, a).workers[WorkerOf(s, a)]);
    }
    if a.CloseJobs? && s.rateLimit == 0 {
      BusyAtMostAll(s.workers);
    }
  }

  lemma {:induction false} PlayKeepsJoinInv(s: State, acts: seq<Action>)
    requires JoinInv(s) && Play(s, acts).Some?
    ensures JoinInv(Play(s, acts).value)
    decreases |acts|
  {
    if acts != [] {
      StepKeepsJoinInv(s, acts[0]);
      PlayKeepsJoinInv(Do(s, acts[0]), acts[1..]);
    }
  }

  /** Whatever happens from s on, no worker runs once Shutdown has returned. */
  ghost predicate ShutdownJoins(s: State) {
    forall s' :: CanReach(s, s') && s'.closer.Finished? ==> Live(s'.workers) == 0
  }

  lemma OneLives(ws: seq<Worker>, i: nat)
    requires i < |ws| && Alive(ws[i]) == 1
    ensures Live(ws) > 0
  {
    LiveAfter(ws, i, Gone);
    assert Live(ws[i := Gone]) >= 0;
  }

  /** With a worker still to be started, Shutdown can return and the worker run afterwards. */
  lemma LateWorker(s: State) returns (s': State)
    requires Inv(s) && s.closer.Closing? && !s.panicked && !AllStarted(s)
    ensures CanReach(s, s') && s'.closer.Finished? && Live(s'.workers) > 0
  {
    ReachSelf(s);
    var t := Do(s, CloseJobs);
    ReachOn(s, s, CloseJobs);
    StepKeepsInv(s, CloseJobs);
    if s.runner.Fresh? {
      var u := Do(t, StartWorkers);
      ReachOn(s, t, StartWorkers);
      s' := Do(u, Spawn);
      ReachOn(s, u, Spawn);
    } else {
      var u := Drain(t);
      ReachThenReach(s, t, u);
      var v := Do(u, WaitReturns);
      ReachOn(s, u, WaitReturns);
      s' := Do(v, Spawn);
      ReachOn(s, v, Spawn);
    }
    OneLives(s'.workers, s'.runner.next - 1);
  }

  /** Shutdown is sure to leave no worker behind exactly when startWorkers has started all
      of them by the time Shutdown looks at the channel. */
  lemma ShutdownJoinsExactlyWhenStarted(s: State)
    requires Reachable(s) && s.closer.Closing? && !s.panicked
    ensures ShutdownJoins(s) <==> AllStarted(s)
  {
    ReachableInv(s);
    if AllStarted(s) {
      forall s' | CanReach(s, s') && s'.closer.Finished?
        ensures Live(s'.workers) == 0
      {
        var acts :| Leads(s, acts, s');
        PlayKeepsJoinInv(s, acts);
      }
    } else {
      var s' := LateWorker(s);
    }
  }

  /** On every run that goes on long enough Shutdown returns, and nobody runs any more if all
      workers had been started. */
  lemma ShutdownReturns(s: State, acts: seq<Action>)
    requires Reachable(s) && s.closer.Joining? && Play(s, acts).Some? && EndingSteps(acts) > Remaining(s)
    ensures Play(s, acts).value.closer.Finished?
    ensures AllStarted(s) ==> Live(Play(s, acts).value.workers) == 0
  {
    ReachableInv(s);
    WaitEnds(s, acts);
    if AllStarted(s) {
      PlayKeepsJoinInv(s, acts);
    }
  }

  lemma StoppedAtOnce(s: State) returns (s': State)
    requires Reachable(s) && !s.panicked && s.closer.Off? && s.metrics == map[]
    ensures Reachable(s') && s' == s.(cancelled := true, closer := Closing)
  {
    ReachableOn(s, Cancel);
    s' := Do(s, Cancel);
    ReachableOn(s', ShutdownSkips);
    s' := Do(s', ShutdownSkips);
  }

  /** An agent can be stopped before its workers have been started: here it is. */
  lemma StopDuringStart() returns (s: State)
    ensures Reachable(s) && s.closer.Closing? && !s.panicked && !AllStarted(s)
    ensures !ShutdownJoins(s)
  {
    var s0 := Start(1);
    s := StoppedAtOnce(s0);
    assert s.workers[0].Unborn?;
    ShutdownJoinsExactlyWhenStarted(s);
  }

  // ---------- Everybody can go home ----------

  /** Once cancelled, a running agent's runner, collector and dispatcher can all return, from
      whatever they are doing. */
  lemma EverybodyCanLeave(s: State) returns (s': State)
    requires Reachable(s) && s.cancelled && !s.panicked && (s.runner.Polling? || s.runner.Exited?)
    ensures CanReach(s, s') && s'.runner.Exited? && s'.collector.Stopped? && s'.dispatcher.Returned?
  {
    ReachableInv(s);
    s' := DispatcherLeaves(s);
    if s'.runner.Polling? {
      ReachOn(s, s', RunnerExits);
      s' := Do(s', RunnerExits);
    }
    if s'.collector.Collecting? {
      ReachOn(s, s', CollectorExits);
      s' := Do(s', CollectorExits);
    }
  }

  lemma DispatcherLeaves(s: State) returns (s': State)
    requires Inv(s) && s.cancelled && !s.panicked && !s.dispatcher.NotStarted?
    ensures CanReach(s, s') && s'.dispatcher.Returned?
    ensures s'.runner == s.runner && s'.collector == s.collector && s'.cancelled && !s'.panicked
  {
    ReachSelf(s);
    s' := s;
    if !s.dispatcher.Returned? {
      if !s.dispatcher.Waiting? {
        var a := if s.dispatcher.Offering? then OfferAborts else SyncSendReturns;
        ReachOn(s, s, a);
        s' := Do(s, a);
      }
      ReachOn(s, s', DispatcherExits);
      s' := Do(s', DispatcherExits);
    }
  }

  // ---------- What is sent before the end ----------

  /** The final SendBatch has been called and has returned, or nothing had been collected. */
  ghost predicate FinallySent(acts: seq<Action>) {
    || (exists i, j :: 0 <= i < j < |acts| && acts[i].ShutdownSends? && acts[j].FinalSendReturns?)
    || (exists i :: 0 <= i < |acts| && acts[i].ShutdownSkips? && forall j, id :: 0 <= j < i ==> !Reports(acts[j], id))
  }

  predicate FinalBegun(acts: seq<Action>) {
    exists i :: 0 <= i < |acts| && acts[i].ShutdownSends?
  }

  lemma NothingReported(s: State, acts: seq<Action>)
    requires Init(s) && Play(s, acts).Some? && Play(s, acts).value.metrics == map[]
    ensures forall j, id :: 0 <= j < |acts| ==> !Reports(acts[j], id)
  {
    forall id
      ensures !EverReported(acts, id)
    {
      TableIsLastReports(s, acts, id);
    }
    forall j, id | 0 <= j < |acts|
      ensures !Reports(acts[j], id)
    {
      assert !EverReported(acts, id);
    }
  }

  lemma {:induction false} CloserFollows(s: State, acts: seq<Action>)
    requires Init(s) && Play(s, acts).Some?
    ensures var c := Play(s, acts).value.closer;
      && (c.Final? ==> FinalBegun(acts))
      && (c.Closing? || c.Joining? || c.Finished? ==> FinallySent(acts))
    decreases |acts|
  {
    if acts != [] {
      var front, a := acts[..|acts| - 1], acts[|acts| - 1];
      var n := |front|;
      PlayLast(s, acts);
      CloserFollows(s, front);
      assert forall i :: 0 <= i < n ==> front[i] == acts[i];
      if a.ShutdownSends? {
        assert acts[n].ShutdownSends?;
      } else if a.FinalSendReturns? {
        var i :| 0 <= i < |front| && front[i].ShutdownSends?;
        assert 0 <= i < n < |acts| && acts[i].ShutdownSends? && acts[n].FinalSendReturns?;
      } else if a.ShutdownSkips? {
        NothingReported(s, front);
        assert acts[n].ShutdownSkips?;
      } else {
        Longer(front, acts);
      }
    }
  }

  lemma Longer(front: seq<Action>, acts: seq<Action>)
    requires |front| < |acts| && acts[..|front|] == front
    ensures FinalBegun(front) ==> FinalBegun(acts)
    ensures FinallySent(front) ==> FinallySent(acts)
  {
    assert forall i :: 0 <= i < |front| ==> front[i] == acts[i];
    if FinalBegun(front) {
      var i :| 0 <= i < |front| && front[i].ShutdownSends?;
      assert acts[i].ShutdownSends?;
    }
    if i, j :| 0 <= i < j < |front| && front[i].ShutdownSends? && front[j].FinalSendReturns? {
      assert acts[i].ShutdownSends? && acts[j].FinalSendReturns?;
    } else if FinallySent(front) {
      var i :| 0 <= i < |front| && front[i].ShutdownSkips? && forall j, id :: 0 <= j < i ==> !Reports(front[j], id);
      assert acts[i].ShutdownSkips?;
    }
  }

  /** Before the channel is closed Shutdown has sent all that was collected, and that SendBatch
      has returned; it sends nothing only if nothing had ever been reported. */
  lemma ClosedAfterFinalSend(s: State, acts: seq<Action>, k: nat)
    requires Init(s) && Play(s, acts).Some? && k < |acts| && acts[k].CloseJobs?
    ensures FinallySent(acts[..k])
  {
    PlayPrefix(s, acts, k);
    CloserFollows(s, acts[..k]);
  }

  ghost predicate SomeoneLeft(s: State) {
    exists i :: 0 <= i < |s.workers| && s.workers[i].Gone?
  }

  /** A worker only leaves a channel that is closed and empty. */
  ghost predicate LeavesEmpty(s: State) {
    Inv(s) && (SomeoneLeft(s) ==> Closed(s) && Queue(s) == [])
  }

  lemma StepLeavesEmpty(s: State, a: Action)
    requires LeavesEmpty(s) && Enabled(s, a) && !a.WorkerSeesCancel?
    ensures LeavesEmpty(Do(s, a))
  {
    StepKeepsInv(s, a);
    OneWorkerChanges(s, a);
    var s' := Do(s, a);
    if SomeoneLeft(s') && !a.WorkerSeesClose? {
      var i :| 0 <= i < |s'.workers| && s'.workers[i].Gone?;
      assert s.workers[i].Gone?;
    }
  }

  lemma {:induction false} PlayLeavesEmpty(s: State, acts: seq<Action>)
    requires LeavesEmpty(s) && Play(s, acts).Some? && forall a :: a in acts ==> !a.WorkerSeesCancel?
    ensures LeavesEmpty(Play(s, acts).value)
    decreases |acts|
  {
    if acts != [] {
      assert acts[0] in acts && forall a :: a in acts[1..] ==> a in acts;
      StepLeavesEmpty(s, acts[0]);
      PlayLeavesEmpty(Do(s, acts[0]), acts[1..]);
    }
  }

  /** A run in which no worker leaves because of the cancelled context loses no batch: when a
      worker has left, all that was put into the channel has been taken. */
  lemma NothingLostWithoutCancel(s: State, acts: seq<Action>)
    requires Init(s) && Play(s, acts).Some? && (forall a :: a in acts ==> !a.WorkerSeesCancel?)
    requires SomeoneLeft(Play(s, acts).value)
    ensures Play(s, acts).value.enqueued == BatchesOf(Play(s, acts).value.taken)
  {
    InitHolds(s);
    PlayLeavesEmpty(s, acts);
  }

  // ---------- Sending on the closed channel ----------

  ghost predicate MayPanic(s: State) {
    exists s' :: CanReach(s, s') && s'.panicked
  }

  ghost predicate Quiet(s: State) {
    Inv(s) && !s.panicked && s.dispatcher.Returned?
  }

  lemma StepStaysQuiet(s: State, a: Action)
    requires Quiet(s) && Enabled(s, a)
    ensures Quiet(Do(s, a))
  {
    StepKeepsInv(s, a);
  }

  lemma {:induction false} PlayStaysQuiet(s: State, acts: seq<Action>)
    requires Quiet(s) && Play(s, acts).Some?
    ensures Quiet(Play(s, acts).value)
    decreases |acts|
  {
    if acts != [] {
      StepStaysQuiet(s, acts[0]);
      PlayStaysQuiet(Do(s, acts[0]), acts[1..]);
    }
  }

  lemma OfferingPanics(s: State)
    requires Inv(s) && Closed(s) && !s.panicked && s.dispatcher.Offering?
    ensures MayPanic(s)
  {
    ReachSelf(s);
    ReachOn(s, s, OfferPanics);
    assert Do(s, OfferPanics).panicked;
  }

  lemma MayPanicBefore(s: State, a: Action)
    requires Enabled(s, a) && MayPanic(Do(s, a))
    ensures MayPanic(s)
  {
    var s' :| CanReach(Do(s, a), s') && s'.panicked;
    StepThenReach(s, a, s');
  }

  lemma WaitingPanics(s: State)
    requires Inv(s) && Closed(s) && !s.panicked && s.dispatcher.Waiting? && s.metrics != map[]
    ensures MayPanic(s)
  {
    var batch := SomeEnumeration(s.metrics);
    var a := Snapshot(batch);
    StepKeepsInv(s, a);
    OfferingPanics(Do(s, a));
    MayPanicBefore(s, a);
  }

  lemma LaunchedPanics(s: State)
    requires Inv(s) && Closed(s) && !s.panicked && s.dispatcher.Waiting?
    ensures MayPanic(s)
  {
    if s.metrics != map[] {
      WaitingPanics(s);
    } else {
      var m := CounterMetric("PollCount", 1);
      var a := FirstPoll(map["PollCount" := m]);
      assert "PollCount" in a.found;
      StepKeepsInv(s, a);
      assert "PollCount" in Do(s, a).metrics;
      WaitingPanics(Do(s, a));
      MayPanicBefore(s, a);
    }
  }

  lemma {:induction false} SpawningPanics(s: State)
    requires Inv(s) && Closed(s) && !s.panicked && s.runner.Spawning?
    ensures MayPanic(s)
    decreases s.rateLimit - s.runner.next
  {
    var a := if s.runner.next < s.rateLimit then Spawn else Launch;
    StepKeepsInv(s, a);
    if a.Spawn? {
      SpawningPanics(Do(s, a));
    } else {
      LaunchedPanics(Do(s, a));
    }
    MayPanicBefore(s, a);
  }

  /** Once the channel is closed the agent can panic exactly when the dispatcher's loop has
      not returned, be it waiting for its next tick. */
  lemma PanicsExactlyWhenDispatcherLives(s: State)
    requires Reachable(s) && Closed(s) && !s.panicked
    ensures MayPanic(s) <==> !s.dispatcher.Returned?
  {
    ReachableInv(s);
    match s.dispatcher
    case NotStarted => SpawningPanics(s);
    case Waiting => LaunchedPanics(s);
    case Offering(_) => OfferingPanics(s);
    case Sending(_) => assert false;
    case Returned =>
      if MayPanic(s) {
        var s' :| CanReach(s, s') && s'.panicked;
        var acts :| Leads(s, acts, s');
        PlayStaysQuiet(s, acts);
      }
  }

  /** And a channel can be closed under a living dispatcher. */
  lemma CloseUnderDispatcher() returns (s: State)
    ensures Reachable(s) && Closed(s) && !s.panicked && !s.dispatcher.Returned?
    ensures MayPanic(s)
  {
    var s0 := Start(1);
    ReachableOn(s0, StartWorkers);
    var s1 := StoppedAtOnce(Do(s0, StartWorkers));
    ReachableOn(s1, CloseJobs);
    s := Do(s1, CloseJobs);
    PanicsExactlyWhenDispatcherLives(s);
  }

  // ---------- Runs in which the channel is closed only after the dispatcher has gone ----------

  ghost predicate Patient(s: State, acts: seq<Action>)
    decreases |acts|
  {
    acts == [] || (Enabled(s, acts[0])
      && (acts[0].CloseJobs? ==> s.dispatcher.Returned?)
      && Patient(Do(s, acts[0]), acts[1..]))
  }

  ghost predicate Safe(s: State) {
    Inv(s) && !s.panicked && (Closed(s) ==> s.dispatcher.Returned?)
  }

  lemma {:induction false} PatientRunsNeverPanic(s: State, acts: seq<Action>)
    requires Safe(s) && Patient(s, acts)
    ensures Play(s, acts).Some? && Safe(Play(s, acts).value)
    decreases |acts|
  {
    if acts != [] {
      StepKeepsInv(s, acts[0]);
      PatientRunsNeverPanic(Do(s, acts[0]), acts[1..]);
    }
  }

  /** A whole run in which Shutdown closes the channel only once the dispatcher's loop has
      returned never sends on the closed channel. */
  lemma NoPanicWhenPatient(s: State, acts: seq<Action>)
    requires Init(s) && Patient(s, acts)
    ensures Play(s, acts).Some? && !Play(s, acts).value.panicked
  {
    InitHolds(s);
    PatientRunsNeverPanic(s, acts);
  }
}
