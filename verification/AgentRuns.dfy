/** What the actions of a run alone say about the agent: what its table and its channel hold,
    in which order its goroutines go, and that its bounds are reached (internal/agent/agent.go). */
module AgentRuns {
  import opened Model
  import opened Agent

  // ---------- What the table and the channel hold, from the actions alone ----------

  /** The action brings in a metric of this id. */
  predicate Reports(a: Action, id: string) {
    (a.FirstPoll? || a.Poll? || a.SystemPoll?) && id in a.found
  }

  predicate LastReport(acts: seq<Action>, i: nat, id: string) {
    i < |acts| && Reports(acts[i], id) && forall j :: i < j < |acts| ==> !Reports(acts[j], id)
  }

  predicate EverReported(acts: seq<Action>, id: string) {
    exists i :: 0 <= i < |acts| && Reports(acts[i], id)
  }

  lemma StepReports(s: State, a: Action, id: string)
    requires Enabled(s, a)
    ensures id in Do(s, a).metrics <==> id in s.metrics || Reports(a, id)
    ensures Reports(a, id) ==> Do(s, a).metrics[id] == a.found[id]
    ensures id in s.metrics && !Reports(a, id) ==> Do(s, a).metrics[id] == s.metrics[id]
  {
  }

  lemma {:induction false} ReportsFrom(s: State, acts: seq<Action>, id: string)
    requires Play(s, acts).Some?
    ensures var t := Play(s, acts).value;
      && (id in t.metrics <==> id in s.metrics || EverReported(acts, id))
      && (forall i: nat :: LastReport(acts, i, id) ==> t.metrics[id] == acts[i].found[id])
      && (id in s.metrics && !EverReported(acts, id) ==> t.metrics[id] == s.metrics[id])
    decreases |acts|
  {
    if acts != [] {
      var a, rest := acts[0], acts[1..];
      StepReports(s, a, id);
      ReportsFrom(Do(s, a), rest, id);
      assert EverReported(acts, id) <==> Reports(a, id) || EverReported(rest, id) by {
        if EverReported(rest, id) {
          var j :| 0 <= j < |rest| && Reports(rest[j], id);
          assert Reports(acts[j + 1], id);
        }
        if EverReported(acts, id) && !Reports(a, id) {
          var i :| 0 <= i < |acts| && Reports(acts[i], id);
          assert Reports(rest[i - 1], id);
        }
      }
      forall i: nat | LastReport(acts, i, id)
        ensures Play(s, acts).value.metrics[id] == acts[i].found[id]
      {
        if i == 0 {
          assert forall j :: 0 <= j < |rest| ==> rest[j] == acts[j + 1];
          assert !EverReported(rest, id);
        } else {
          assert forall j :: i - 1 < j < |rest| ==> rest[j] == acts[j + 1];
          assert LastReport(rest, i - 1, id);
        }
      }
    }
  }

  /** Over any run the table holds exactly the ids that were ever reported, each with what the
      last poll that reported it said. */
  lemma TableIsLastReports(s: State, acts: seq<Action>, id: string)
    requires Init(s) && Play(s, acts).Some?
    ensures var t := Play(s, acts).value;
      && (id in t.metrics <==> exists i :: 0 <= i < |acts| && Reports(acts[i], id))
      && (forall i: nat :: LastReport(acts, i, id) ==> t.metrics[id] == acts[i].found[id])
  {
    ReportsFrom(s, acts, id);
  }

  lemma PlayPrefix(s: State, acts: seq<Action>, k: nat)
    requires Play(s, acts).Some? && k < |acts|
    ensures Play(s, acts[..k]).Some? && Enabled(Play(s, acts[..k]).value, acts[k])
  {
    assert acts == acts[..k] + acts[k..];
    PlayConcat(s, acts[..k], acts[k..]);
    assert acts[k..][0] == acts[k];
  }

  lemma {:induction false} LastReportExists(acts: seq<Action>, id: string) returns (i: nat)
    requires EverReported(acts, id)
    ensures LastReport(acts, i, id)
    decreases |acts|
  {
    var n := |acts| - 1;
    if Reports(acts[n], id) {
      i := n;
    } else {
      var j :| 0 <= j < |acts| && Reports(acts[j], id);
      assert Reports(acts[..n][j], id);
      i := LastReportExists(acts[..n], id);
    }
  }

  /** Every batch handed to a sender lists exactly those last reports, each once. */
  lemma BatchIsLastReports(s: State, acts: seq<Action>, k: nat, m: Metric)
    requires Init(s) && Play(s, acts).Some? && k < |acts| && (acts[k].Snapshot? || acts[k].ShutdownSends?)
    ensures m in acts[k].batch <==>
      exists i: nat :: LastReport(acts[..k], i, m.id) && m == acts[i].found[m.id]
    ensures forall i, j :: 0 <= i < j < |acts[k].batch| ==> acts[k].batch[i].id != acts[k].batch[j].id
  {
    PlayPrefix(s, acts, k);
    var t := Play(s, acts[..k]).value;
    TableIsLastReports(s, acts[..k], m.id);
    if m in acts[k].batch {
      assert EverReported(acts[..k], m.id);
      var i := LastReportExists(acts[..k], m.id);
      assert m == acts[i].found[m.id];
    }
    if i: nat :| LastReport(acts[..k], i, m.id) && m == acts[i].found[m.id] {
      InitHolds(s);
      PlayKeepsInv(s, acts[..k]);
      assert t.metrics[m.id] == m;
    }
  }

  /** The batch of a tick that has been neither handed on nor given up. */
  function Pending(acts: seq<Action>): Option<Batch> {
    if acts == [] then None
    else
      var last := acts[|acts| - 1];
      if last.Snapshot? then Some(last.batch)
      else if last.Offer? || last.OfferAborts? || last.SyncSendReturns? then None
      else Pending(acts[..|acts| - 1])
  }

  /** What each successful offer put into the channel: the batch of the tick before it. */
  function Offered(acts: seq<Action>): seq<Option<Batch>> {
    if acts == [] then []
    else
      var front := acts[..|acts| - 1];
      if acts[|acts| - 1].Offer? then Offered(front) + [Pending(front)] else Offered(front)
  }

  function Somes(bs: seq<Batch>): seq<Option<Batch>> {
    seq(|bs|, i requires 0 <= i < |bs| => Some(bs[i]))
  }

  lemma PlayLast(s: State, acts: seq<Action>)
    requires acts != [] && Play(s, acts).Some?
    ensures var front, a := acts[..|acts| - 1], acts[|acts| - 1];
      Play(s, front).Some? && Enabled(Play(s, front).value, a) && Play(s, acts).value == Do(Play(s, front).value, a)
  {
    var front, a := acts[..|acts| - 1], acts[|acts| - 1];
    assert acts == front + [a];
    PlayConcat(s, front, [a]);
    assert [a][1..] == [];
  }

  /** The batch the dispatcher is about to hand on. */
  function InHand(d: Dispatcher): Option<Batch> {
    if d.Offering? || d.Sending? then Some(d.batch) else None
  }

  lemma StepInHand(s: State, a: Action)
    requires Stages(s) && Enabled(s, a)
    ensures InHand(Do(s, a).dispatcher) ==
      if a.Snapshot? then Some(a.batch)
      else if a.Offer? || a.OfferAborts? || a.SyncSendReturns? then None
      else InHand(s.dispatcher)
    ensures Somes(Do(s, a).enqueued) == if a.Offer? then Somes(s.enqueued) + [InHand(s.dispatcher)] else Somes(s.enqueued)
  {
    if a.Offer? {
      assert Somes(s.enqueued + [s.dispatcher.batch]) == Somes(s.enqueued) + [Some(s.dispatcher.batch)];
    }
  }

  /** In every run what went into the channel is, in order, the batches of the ticks whose offer
      got through, each once; an offer given up leaves nothing behind. */
  lemma {:induction false} ChannelGetsTicks(s: State, acts: seq<Action>)
    requires Init(s) && Play(s, acts).Some?
    ensures Somes(Play(s, acts).value.enqueued) == Offered(acts)
    ensures InHand(Play(s, acts).value.dispatcher) == Pending(acts)
    decreases |acts|
  {
    if acts == [] {
      assert Somes([]) == [];
    } else {
      var front := acts[..|acts| - 1];
      PlayLast(s, acts);
      ChannelGetsTicks(s, front);
      InitHolds(s);
      PlayKeepsInv(s, front);
      StepInHand(Play(s, front).value, acts[|acts| - 1]);
    }
  }

  // ---------- The order of the steps ----------

  /** Steps each goroutine takes once. */
  predicate OneTime(a: Action) {
    || a.StartWorkers? || a.Launch? || a.FirstPoll? || a.RunnerExits? || a.CollectorExits? || a.DispatcherExits?
    || a.ShutdownSends? || a.ShutdownSkips? || a.FinalSendReturns? || a.CloseJobs? || a.WaitReturns?
  }

  predicate Past(s: State, a: Action)
    requires OneTime(a)
  {
    match a
    case StartWorkers => !s.runner.Fresh?
    case Launch => s.runner.Launched? || s.runner.Polling? || s.runner.Exited?
    case FirstPoll(_) => s.runner.Polling? || s.runner.Exited?
    case RunnerExits => s.runner.Exited?
    case CollectorExits => s.collector.Stopped?
    case DispatcherExits => s.dispatcher.Returned?
    case ShutdownSends(_) => !s.closer.Off?
    case ShutdownSkips => !s.closer.Off?
    case FinalSendReturns => s.closer.Closing? || s.closer.Joining? || s.closer.Finished?
    case CloseJobs => s.closer.Joining? || s.closer.Finished?
    case WaitReturns => s.closer.Finished?
    case _ => true
  }

  lemma StepIsPast(s: State, a: Action)
    requires Stages(s) && Enabled(s, a) && OneTime(a)
    ensures !Past(s, a) && Past(Do(s, a), a)
  {
  }

  lemma StepStaysPast(s: State, a: Action, once: Action)
    requires Stages(s) && Enabled(s, a) && OneTime(once) && Past(s, once)
    ensures Past(Do(s, a), once)
  {
  }

  lemma {:induction false} PlayStaysPast(s: State, acts: seq<Action>, once: Action)
    requires Inv(s) && Play(s, acts).Some? && OneTime(once) && Past(s, once)
    ensures Past(Play(s, acts).value, once)
    decreases |acts|
  {
    if acts != [] {
      StepStaysPast(s, acts[0], once);
      StepKeepsInv(s, acts[0]);
      PlayStaysPast(Do(s, acts[0]), acts[1..], once);
    }
  }

  predicate SameStep(a: Action, b: Action) {
    || (a.StartWorkers? && b.StartWorkers?) || (a.Launch? && b.Launch?) || (a.FirstPoll? && b.FirstPoll?)
    || (a.RunnerExits? && b.RunnerExits?) || (a.CollectorExits? && b.CollectorExits?)
    || (a.DispatcherExits? && b.DispatcherExits?) || (a.FinalSendReturns? && b.FinalSendReturns?)
    || ((a.ShutdownSends? || a.ShutdownSkips?) && (b.ShutdownSends? || b.ShutdownSkips?))
    || (a.CloseJobs? && b.CloseJobs?) || (a.WaitReturns? && b.WaitReturns?)
  }

  lemma PlayBetween(s: State, acts: seq<Action>, i: nat, j: nat)
    requires Play(s, acts).Some? && i < j < |acts|
    ensures Play(s, acts[..i]).Some? && Enabled(Play(s, acts[..i]).value, acts[i]) && Play(s, acts[..j]).Some?
    ensures var t := Do(Play(s, acts[..i]).value, acts[i]);
      Play(t, acts[i + 1..j]).Some? && Play(t, acts[i + 1..j]).value == Play(s, acts[..j]).value
  {
    PlayPrefix(s, acts, i);
    PlayPrefix(s, acts, j);
    assert acts[..j] == acts[..i] + acts[i..j];
    PlayConcat(s, acts[..i], acts[i..j]);
    assert acts[i..j][0] == acts[i] && acts[i..j][1..] == acts[i + 1..j];
  }

  lemma PastAfterwards(s: State, acts: seq<Action>, i: nat, j: nat)
    requires Init(s) && Play(s, acts).Some? && i < j < |acts| && OneTime(acts[i])
    ensures Play(s, acts[..j]).Some? && Past(Play(s, acts[..j]).value, acts[i])
  {
    PlayBetween(s, acts, i, j);
    var t := Play(s, acts[..i]).value;
    InitHolds(s);
    PlayKeepsInv(s, acts[..i]);
    StepIsPast(t, acts[i]);
    StepKeepsInv(t, acts[i]);
    PlayStaysPast(Do(t, acts[i]), acts[i + 1..j], acts[i]);
  }

  /** In no run does a goroutine take one of these steps twice. */
  lemma StepsAreTakenOnce(s: State, acts: seq<Action>, i: nat, j: nat)
    requires Init(s) && Play(s, acts).Some? && i < j < |acts|
    ensures !SameStep(acts[i], acts[j])
  {
    if SameStep(acts[i], acts[j]) {
      PastAfterwards(s, acts, i, j);
      PlayPrefix(s, acts, j);
      var t := Play(s, acts[..j]).value;
      InitHolds(s);
      PlayKeepsInv(s, acts[..j]);
      StepIsPast(t, acts[j]);
      SamePast(t, acts[i], acts[j]);
    }
  }

  lemma SamePast(s: State, a: Action, b: Action)
    requires SameStep(a, b)
    ensures Past(s, a) == Past(s, b)
  {
  }

  /** What a goroutine that has returned no longer does. */
  predicate ForbiddenAfter(a: Action, b: Action) {
    || (a.RunnerExits? && (b.StartWorkers? || b.Spawn? || b.Launch? || b.FirstPoll? || b.Poll?))
    || (a.CollectorExits? && b.SystemPoll?)
    || (a.DispatcherExits? && (b.Snapshot? || b.Offer? || b.OfferAborts? || b.OfferPanics? || b.SyncSendReturns?))
    || (a.WaitReturns? && (b.ShutdownSends? || b.ShutdownSkips? || b.FinalSendReturns? || b.CloseJobs?))
  }

  /** Returned goroutines do nothing more. */
  lemma NothingAfterReturn(s: State, acts: seq<Action>, i: nat, j: nat)
    requires Init(s) && Play(s, acts).Some? && i < j < |acts|
    ensures !ForbiddenAfter(acts[i], acts[j])
  {
    if ForbiddenAfter(acts[i], acts[j]) {
      PastAfterwards(s, acts, i, j);
      PlayPrefix(s, acts, j);
      InitHolds(s);
      PlayKeepsInv(s, acts[..j]);
      ForbiddenIsDisabled(Play(s, acts[..j]).value, acts[i], acts[j]);
    }
  }

  lemma ForbiddenIsDisabled(s: State, a: Action, b: Action)
    requires Stages(s) && OneTime(a) && Past(s, a) && ForbiddenAfter(a, b)
    ensures !Enabled(s, b)
  {
  }

  lemma {:induction false} PollingFollowsFirst(s: State, acts: seq<Action>)
    requires Init(s) && Play(s, acts).Some?
    ensures var r := Play(s, acts).value.runner;
      r.Polling? || r.Exited? <==> exists i :: 0 <= i < |acts| && acts[i].FirstPoll?
    decreases |acts|
  {
    if acts != [] {
      var front, n := acts[..|acts| - 1], |acts| - 1;
      PlayLast(s, acts);
      PollingFollowsFirst(s, front);
      if i :| 0 <= i < n && front[i].FirstPoll? {
        assert acts[i].FirstPoll?;
      }
      if acts[n].FirstPoll? {
        assert 0 <= n < |acts|;
      }
    }
  }

  /** The ticker's polls come after the first one, and so does the runner's return. */
  lemma PollsFollowFirst(s: State, acts: seq<Action>, k: nat)
    requires Init(s) && Play(s, acts).Some? && k < |acts| && (acts[k].Poll? || acts[k].RunnerExits?)
    ensures exists i :: 0 <= i < k && acts[i].FirstPoll?
  {
    PlayPrefix(s, acts, k);
    PollingFollowsFirst(s, acts[..k]);
    var i :| 0 <= i < k && acts[..k][i].FirstPoll?;
    assert acts[i].FirstPoll?;
  }

  function Spawns(acts: seq<Action>): nat {
    if acts == [] then 0 else Spawns(acts[..|acts| - 1]) + if acts[|acts| - 1].Spawn? then 1 else 0
  }

  lemma StepCountsSpawns(s: State, a: Action)
    requires Workers(s) && Enabled(s, a)
    ensures Started(Do(s, a)) == Started(s) + if a.Spawn? then 1 else 0
  {
  }

  lemma {:induction false} StartedAreSpawned(s: State, acts: seq<Action>)
    requires Init(s) && Play(s, acts).Some?
    ensures Started(Play(s, acts).value) == Spawns(acts)
    decreases |acts|
  {
    if acts != [] {
      var front := acts[..|acts| - 1];
      PlayLast(s, acts);
      StartedAreSpawned(s, front);
      InitHolds(s);
      PlayKeepsInv(s, front);
      StepCountsSpawns(Play(s, front).value, acts[|acts| - 1]);
    }
  }

  /** The dispatcher and the collector start only after all the workers have been started. */
  lemma WorkersComeFirst(s: State, acts: seq<Action>, k: nat)
    requires Init(s) && Play(s, acts).Some? && k < |acts|
    requires acts[k].Launch? || acts[k].FirstPoll? || acts[k].Poll? || acts[k].SystemPoll? || acts[k].Snapshot?
    ensures Spawns(acts[..k]) == s.rateLimit
  {
    PlayPrefix(s, acts, k);
    StartedAreSpawned(s, acts[..k]);
    LimitStays(s, acts[..k]);
    InitHolds(s);
    PlayKeepsInv(s, acts[..k]);
  }

  lemma {:induction false} LimitStays(s: State, acts: seq<Action>)
    requires Play(s, acts).Some?
    ensures Play(s, acts).value.rateLimit == s.rateLimit
    decreases |acts|
  {
    if acts != [] {
      LimitStays(Do(s, acts[0]), acts[1..]);
    }
  }

  // ---------- Nothing stops before the cancel ----------

  predicate Stops(a: Action) {
    || a.RunnerExits? || a.CollectorExits? || a.OfferAborts? || a.DispatcherExits? || a.WorkerSeesCancel? || a.WorkerSeesClose?
    || a.ShutdownSends? || a.ShutdownSkips? || a.FinalSendReturns? || a.CloseJobs? || a.WaitReturns? || a.OfferPanics?
  }

  lemma {:induction false} CancelledByCancel(s: State, acts: seq<Action>)
    requires Init(s) && Play(s, acts).Some?
    ensures Play(s, acts).value.cancelled <==> exists i :: 0 <= i < |acts| && acts[i].Cancel?
    decreases |acts|
  {
    if acts != [] {
      var front, n := acts[..|acts| - 1], |acts| - 1;
      PlayLast(s, acts);
      CancelledByCancel(s, front);
      if i :| 0 <= i < n && front[i].Cancel? {
        assert acts[i].Cancel?;
      }
      if acts[n].Cancel? {
        assert 0 <= n < |acts|;
      }
    }
  }

  lemma StopsMeansCancelled(s: State, a: Action)
    requires Shutdown(s) && Enabled(s, a) && Stops(a)
    ensures s.cancelled
  {
  }

  /** No goroutine returns, no offer is given up and nothing is closed before the context is
      cancelled: until then every collected tick is on its way to a sender. */
  lemma NothingStopsBeforeCancel(s: State, acts: seq<Action>, k: nat)
    requires Init(s) && Play(s, acts).Some? && k < |acts| && Stops(acts[k])
    ensures exists i :: 0 <= i < k && acts[i].Cancel?
  {
    PlayPrefix(s, acts, k);
    CancelledByCancel(s, acts[..k]);
    InitHolds(s);
    PlayKeepsInv(s, acts[..k]);
    StopsMeansCancelled(Play(s, acts[..k]).value, acts[k]);
    var i :| 0 <= i < k && acts[..k][i].Cancel?;
    assert acts[i].Cancel?;
  }

  predicate NobodyLeft(s: State) {
    && s.closer.Off? && !s.collector.Stopped? && !s.dispatcher.Returned? && !s.runner.Exited?
    && forall w :: 0 <= w < |s.workers| ==> !s.workers[w].Gone?
  }

  lemma StepLeavesNobody(s: State, a: Action)
    requires Shutdown(s) && NobodyLeft(s) && !s.cancelled && Enabled(s, a)
    ensures NobodyLeft(Do(s, a))
  {
  }

  lemma {:induction false} NobodyLeftBeforeCancel(s: State, acts: seq<Action>)
    requires Init(s) && Play(s, acts).Some? && !Play(s, acts).value.cancelled
    ensures NobodyLeft(Play(s, acts).value)
    decreases |acts|
  {
    if acts != [] {
      var front := acts[..|acts| - 1];
      PlayLast(s, acts);
      NobodyLeftBeforeCancel(s, front);
      InitHolds(s);
      PlayKeepsInv(s, front);
      StepLeavesNobody(Play(s, front).value, acts[|acts| - 1]);
    }
  }

  lemma {:induction false} LaunchStays(s: State, acts: seq<Action>)
    requires Init(s) && Play(s, acts).Some?
    requires exists i :: 0 <= i < |acts| && acts[i].Launch?
    ensures var r := Play(s, acts).value.runner; r.Launched? || r.Polling? || r.Exited?
    decreases |acts|
  {
    var front, n := acts[..|acts| - 1], |acts| - 1;
    PlayLast(s, acts);
    if !acts[n].Launch? {
      var i :| 0 <= i < |acts| && acts[i].Launch?;
      assert front[i].Launch?;
      LaunchStays(s, front);
    }
  }

  /** Until the cancel everybody who was started is at work: the collector and the dispatcher from the
      launch on, the ticker from the first poll on, and each spawned worker. */
  lemma EverybodyWorksBeforeCancel(s: State, acts: seq<Action>)
    requires Init(s) && Play(s, acts).Some?
    requires forall i :: 0 <= i < |acts| ==> !acts[i].Cancel?
    ensures var t := Play(s, acts).value;
      && t.closer.Off? && Spawns(acts) <= |t.workers|
      && (forall w :: 0 <= w < Spawns(acts) ==> t.workers[w].Ready? || t.workers[w].Busy?)
      && ((exists i :: 0 <= i < |acts| && acts[i].Launch?) ==>
            t.collector.Collecting? && (t.dispatcher.Waiting? || t.dispatcher.Offering? || t.dispatcher.Sending?))
      && ((exists i :: 0 <= i < |acts| && acts[i].FirstPoll?) ==> t.runner.Polling?)
  {
    CancelledByCancel(s, acts);
    NobodyLeftBeforeCancel(s, acts);
    StartedAreSpawned(s, acts);
    PollingFollowsFirst(s, acts);
    InitHolds(s);
    PlayKeepsInv(s, acts);
    if exists i :: 0 <= i < |acts| && acts[i].Launch? {
      LaunchStays(s, acts);
    }
  }

  // ---------- The bounds are reached ----------

  lemma ReachableOn(s: State, a: Action)
    requires Reachable(s) && Enabled(s, a)
    ensures Reachable(Do(s, a))
  {
    var s0 :| Init(s0) && CanReach(s0, s);
    ReachOn(s0, s, a);
  }

  lemma Start(limit: nat) returns (s: State)
    ensures Init(s) && s.rateLimit == limit && Reachable(s)
  {
    s := State(limit, map[], false, None, seq(limit, i => Unborn), 0, Fresh, NotCollecting, NotStarted, Off, false,
               [], [], [], multiset{});
    ReachSelf(s);
  }

  /** Running, with n batches queued and the first `busy` workers sending. */
  predicate Loaded(s: State, n: nat, busy: nat) {
    && s.dispatcher.Waiting? && s.closer.Off? && !s.panicked && !Closed(s) && s.metrics != map[]
    && |Queue(s)| == n && |s.workers| == s.rateLimit
    && (forall i :: 0 <= i < |s.workers| ==> if i < busy then s.workers[i].Busy? else s.workers[i].Ready?)
  }

  lemma {:induction false} AllSpawned(limit: nat, k: nat) returns (s: State)
    requires k <= limit
    ensures Reachable(s) && s.rateLimit == limit && s.runner == Spawning(k) && s.dispatcher.NotStarted? && s.closer.Off?
    ensures !s.panicked && !Closed(s) && s.metrics == map[] && Queue(s) == [] && |s.workers| == limit
    ensures forall i :: 0 <= i < limit ==> if i < k then s.workers[i].Ready? else s.workers[i].Unborn?
    decreases k
  {
    if k == 0 {
      var s0 := Start(limit);
      ReachableOn(s0, StartWorkers);
      s := Do(s0, StartWorkers);
    } else {
      var s0 := AllSpawned(limit, k - 1);
      ReachableOn(s0, Spawn);
      s := Do(s0, Spawn);
    }
  }

  lemma {:induction false} Queued(limit: nat, n: nat) returns (s: State)
    requires n <= limit
    ensures Reachable(s) && s.rateLimit == limit && Loaded(s, n, 0)
    decreases n
  {
    if n == 0 {
      var s0 := AllSpawned(limit, limit);
      ReachableOn(s0, Launch);
      var m := CounterMetric("PollCount", 1);
      var a := FirstPoll(map["PollCount" := m]);
      assert "PollCount" in a.found;
      ReachableOn(Do(s0, Launch), a);
      s := Do(Do(s0, Launch), a);
      assert "PollCount" in s.metrics;
    } else {
      var s0 := Queued(limit, n - 1);
      ReachableInv(s0);
      var batch := SomeEnumeration(s0.metrics);
      ReachableOn(s0, Snapshot(batch));
      var s1 := Do(s0, Snapshot(batch));
      ReachableOn(s1, Offer);
      s := Do(s1, Offer);
    }
  }

  lemma {:induction false} AllSending(limit: nat, busy: nat) returns (s: State)
    requires busy <= limit
    ensures Reachable(s) && s.rateLimit == limit && Loaded(s, limit - busy, busy)
    decreases busy
  {
    if busy == 0 {
      s := Queued(limit, limit);
    } else {
      var s0 := AllSending(limit, busy - 1);
      ReachableInv(s0);
      AllGoodTail(Queue(s0));
      ReachableOn(s0, Take(busy - 1));
      s := Do(s0, Take(busy - 1));
    }
  }

  lemma {:induction false} AllBusy(ws: seq<Worker>)
    requires forall i :: 0 <= i < |ws| ==> ws[i].Busy?
    ensures BusyCount(ws) == |ws|
    decreases |ws|
  {
    if ws != [] {
      AllBusy(ws[..|ws| - 1]);
    }
  }

  /** The bounds are met: for every limit the channel can be full, and for every limit but 0
      all workers and Shutdown's final SendBatch can be under way at once. */
  lemma BoundsAreReached(limit: nat) returns (full: State, busy: State)
    ensures Reachable(full) && full.rateLimit == limit && |Queue(full)| == limit
    ensures Reachable(busy) && busy.rateLimit == limit && InFlight(busy) == limit + 1
  {
    full := Queued(limit, limit);
    var s := AllSending(limit, limit);
    ReachableInv(s);
    var batch := SomeEnumeration(s.metrics);
    ReachableOn(s, Cancel);
    ReachableOn(Do(s, Cancel), ShutdownSends(batch));
    busy := Do(Do(s, Cancel), ShutdownSends(batch));
    AllBusy(busy.workers);
  }
}
