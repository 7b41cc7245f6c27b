/** The agent's goroutines as a labelled transition system: the runner that polls, the
    system collector, the dispatcher, the worker pool behind a bounded channel, and
    Shutdown (internal/agent/agent.go). */
module Agent {
  import opened Model

  type Batch = seq<Metric>

  // ---------- State ----------

  datatype Worker = Unborn | Ready | Busy(batch: Batch) | Gone

  /** Run: not yet started, starting worker `next`, workers and loops started, polling, returned. */
  datatype Runner = Fresh | Spawning(next: nat) | Launched | Polling | Exited

  datatype Collector = NotCollecting | Collecting | Stopped

  /** dispatchLoop: waiting for a tick, in the select that offers a snapshot to the
      channel, or inside a synchronous SendBatch. */
  datatype Dispatcher = NotStarted | Waiting | Offering(batch: Batch) | Sending(batch: Batch) | Returned

  /** Shutdown: not called, in the final SendBatch, about to close the channel, in Wait, done. */
  datatype Closer = Off | Final(batch: Batch) | Closing | Joining | Finished

  datatype Channel = Channel(queue: seq<Batch>, closed: bool)

  datatype Job = Job(worker: nat, batch: Batch)

  /** The last four fields are bookkeeping: what went into the channel, what came out and
      into whose hands, which SendBatch calls workers began and which returned. */
  datatype State = State(
    rateLimit: nat,
    metrics: map<string, Metric>,
    cancelled: bool,
    jobs: Option<Channel>,
    workers: seq<Worker>,
    wg: int,
    runner: Runner,
    collector: Collector,
    dispatcher: Dispatcher,
    closer: Closer,
    panicked: bool,
    enqueued: seq<Batch>,
    taken: seq<Job>,
    begun: seq<Job>,
    ended: multiset<Job>)

  datatype Action =
    | StartWorkers                              // make the channel, if there is a limit
    | Spawn                                     // wg.Add(1) and go
    | Launch                                    // go dispatchLoop, go collectSystemLoop
    | FirstPoll(found: map<string, Metric>)
    | Poll(found: map<string, Metric>)
    | RunnerExits
    | SystemPoll(found: map<string, Metric>)
    | CollectorExits
    | Snapshot(batch: Batch)                    // a tick with something to send
    | Offer
    | OfferAborts
    | OfferPanics                               // send on a closed channel
    | SyncSendReturns
    | DispatcherExits
    | Take(w: nat)
    | SendReturns(w: nat)
    | WorkerSeesCancel(w: nat)
    | WorkerSeesClose(w: nat)
    | Cancel
    | ShutdownSends(batch: Batch)
    | ShutdownSkips
    | FinalSendReturns
    | CloseJobs
    | WaitReturns

  // ---------- Metrics ----------

  /** What the collectors build: an id and the one field its type needs. */
  predicate Good(m: Metric) {
    && m.id != "" && m.hash == ""
    && ((m.mtype == GAUGE && m.value.Some? && m.delta.None?) || (m.mtype == COUNTER && m.delta.Some? && m.value.None?))
  }

  predicate GoodTable(metrics: map<string, Metric>) {
    forall id :: id in metrics ==> metrics[id].id == id && Good(metrics[id])
  }

  /** A snapshot of a good table: at least one item, all good, all ids different. */
  ghost predicate GoodBatch(b: Batch) {
    && b != []
    && (forall m :: m in b ==> Good(m))
    && (forall i, j :: 0 <= i < j < |b| ==> b[i].id != b[j].id)
  }

  // ---------- Steps ----------

  function Queue(s: State): seq<Batch> {
    if s.jobs.Some? then s.jobs.value.queue else []
  }

  predicate Closed(s: State) {
    s.jobs.Some? && s.jobs.value.closed
  }

  ghost predicate Enabled(s: State, a: Action) {
    !s.panicked &&
    match a
    case StartWorkers => s.runner.Fresh?
    case Spawn => s.runner.Spawning? && s.runner.next < |s.workers|
    case Launch => s.runner == Spawning(s.rateLimit)
    case FirstPoll(found) => s.runner.Launched? && found != map[] && GoodTable(found)
    case Poll(found) => s.runner.Polling? && GoodTable(found)
    case RunnerExits => s.runner.Polling? && s.cancelled
    case SystemPoll(found) => s.collector.Collecting? && GoodTable(found)
    case CollectorExits => s.collector.Collecting? && s.cancelled
    case Snapshot(batch) => s.dispatcher.Waiting? && s.metrics != map[] && Enumerates(batch, s.metrics)
    case Offer => s.dispatcher.Offering? && s.jobs.Some? && !Closed(s) && |Queue(s)| < s.rateLimit
    case OfferAborts => s.dispatcher.Offering? && s.cancelled
    case OfferPanics => s.dispatcher.Offering? && Closed(s)
    case SyncSendReturns => s.dispatcher.Sending?
    case DispatcherExits => s.dispatcher.Waiting? && s.cancelled
    case Take(w) => w < |s.workers| && s.workers[w].Ready? && Queue(s) != []
    case SendReturns(w) => w < |s.workers| && s.workers[w].Busy?
    case WorkerSeesCancel(w) => w < |s.workers| && s.workers[w].Ready? && s.cancelled
    case WorkerSeesClose(w) => w < |s.workers| && s.workers[w].Ready? && Closed(s) && Queue(s) == []
    case Cancel => true
    case ShutdownSends(batch) =>
      s.closer.Off? && s.cancelled && s.metrics != map[] && Enumerates(batch, s.metrics)
    case ShutdownSkips => s.closer.Off? && s.cancelled && s.metrics == map[]
    case FinalSendReturns => s.closer.Final?
    case CloseJobs => s.closer.Closing?
    case WaitReturns => s.closer.Joining? && s.wg == 0
  }

  ghost function Do(s: State, a: Action): State
    requires Enabled(s, a)
  {
    match a
    case StartWorkers =>
      s.(runner := Spawning(0), jobs := if s.rateLimit > 0 then Some(Channel([], false)) else None)
    case Spawn =>
      s.(runner := Spawning(s.runner.next + 1), workers := s.workers[s.runner.next := Ready], wg := s.wg + 1)
    case Launch => s.(runner := Launched, dispatcher := Waiting, collector := Collecting)
    case FirstPoll(found) => s.(runner := Polling, metrics := s.metrics + found)
    case Poll(found) => s.(metrics := s.metrics + found)
    case RunnerExits => s.(runner := Exited)
    case SystemPoll(found) => s.(metrics := s.metrics + found)
    case CollectorExits => s.(collector := Stopped)
    case Snapshot(batch) =>
      s.(dispatcher := if s.rateLimit == 0 || s.jobs.None? then Sending(batch) else Offering(batch))
    case Offer =>
      s.(dispatcher := Waiting,
         jobs := Some(s.jobs.value.(queue := Queue(s) + [s.dispatcher.batch])),
         enqueued := s.enqueued + [s.dispatcher.batch])
    case OfferAborts => s.(dispatcher := Waiting)
    case OfferPanics => s.(panicked := true)
    case SyncSendReturns => s.(dispatcher := Waiting)
    case DispatcherExits => s.(dispatcher := Returned)
    case Take(w) =>
      var b := Queue(s)[0];
      var s' := s.(jobs := Some(s.jobs.value.(queue := Queue(s)[1..])), taken := s.taken + [Job(w, b)]);
      if b == [] then s' else s'.(workers := s.workers[w := Busy(b)], begun := s.begun + [Job(w, b)])
    case SendReturns(w) =>
      s.(workers := s.workers[w := Ready], ended := s.ended + multiset{Job(w, s.workers[w].batch)})
    case WorkerSeesCancel(w) => s.(workers := s.workers[w := Gone], wg := s.wg - 1)
    case WorkerSeesClose(w) => s.(workers := s.workers[w := Gone], wg := s.wg - 1)
    case Cancel => s.(cancelled := true)
    case ShutdownSends(batch) => s.(closer := Final(batch))
    case ShutdownSkips => s.(closer := Closing)
    case FinalSendReturns => s.(closer := Closing)
    case CloseJobs =>
      if s.rateLimit > 0 && s.jobs.Some? then s.(closer := Joining, jobs := Some(s.jobs.value.(closed := true)))
      else s.(closer := Finished)
    case WaitReturns => s.(closer := Finished)
  }

  ghost predicate Init(s: State) {
    && s.metrics == map[] && !s.cancelled && s.jobs.None? && s.wg == 0
    && |s.workers| == s.rateLimit && (forall i :: 0 <= i < s.rateLimit ==> s.workers[i].Unborn?)
    && s.runner.Fresh? && s.collector.NotCollecting? && s.dispatcher.NotStarted? && s.closer.Off?
    && !s.panicked && s.enqueued == [] && s.taken == [] && s.begun == [] && s.ended == multiset{}
  }

  // ---------- Runs ----------

  ghost function Play(s: State, acts: seq<Action>): Option<State>
    decreases |acts|
  {
    if acts == [] then Some(s)
    else if Enabled(s, acts[0]) then Play(Do(s, acts[0]), acts[1..])
    else None
  }

  ghost predicate Leads(s: State, acts: seq<Action>, s': State) {
    Play(s, acts) == Some(s')
  }

  ghost predicate CanReach(s: State, s': State) {
    exists acts :: Leads(s, acts, s')
  }

  lemma {:induction false} PlayConcat(s: State, a: seq<Action>, b: seq<Action>)
    ensures Play(s, a + b) == if Play(s, a).Some? then Play(Play(s, a).value, b) else None
    decreases |a|
  {
    if a == [] {
      assert a + b == b;
    } else if Enabled(s, a[0]) {
      PlayConcat(Do(s, a[0]), a[1..], b);
      assert (a + b)[1..] == a[1..] + b;
    }
  }

  lemma ReachSelf(s: State)
    ensures CanReach(s, s)
  {
    assert Leads(s, [], s);
  }

  lemma ReachOn(s: State, t: State, a: Action)
    requires CanReach(s, t) && Enabled(t, a)
    ensures CanReach(s, Do(t, a))
  {
    var acts :| Leads(s, acts, t);
    PlayConcat(s, acts, [a]);
    assert [a][1..] == [];
    assert Play(t, [a]) == Play(Do(t, a), [a][1..]);
    assert Leads(s, acts + [a], Do(t, a));
  }

  // ---------- Counting workers ----------

  function Alive(w: Worker): nat {
    if w.Ready? || w.Busy? then 1 else 0
  }

  function Live(ws: seq<Worker>): nat {
    if ws == [] then 0 else Live(ws[..|ws| - 1]) + Alive(ws[|ws| - 1])
  }

  function BusyCount(ws: seq<Worker>): nat {
    if ws == [] then 0 else BusyCount(ws[..|ws| - 1]) + if ws[|ws| - 1].Busy? then 1 else 0
  }

  /** How often job j is in a worker's hands. */
  function HandCount(ws: seq<Worker>, j: Job): nat {
    if ws == [] then 0 else HandCount(ws[..|ws| - 1], j) + Holds(|ws| - 1, ws[|ws| - 1], j)
  }

  function Holds(i: nat, w: Worker, j: Job): nat {
    if w.Busy? && j == Job(i, w.batch) then 1 else 0
  }

  /** Steps a worker still has before it: start, finish a send, exit. */
  function Left(w: Worker): nat {
    match w
    case Unborn => 2
    case Busy(_) => 2
    case Ready => 1
    case Gone => 0
  }

  function AllLeft(ws: seq<Worker>): nat {
    if ws == [] then 0 else AllLeft(ws[..|ws| - 1]) + Left(ws[|ws| - 1])
  }

  lemma {:induction false} LiveAfter(ws: seq<Worker>, i: nat, w: Worker)
    requires i < |ws|
    ensures Live(ws[i := w]) == Live(ws) - Alive(ws[i]) + Alive(w)
    decreases |ws|
  {
    var n := |ws| - 1;
    if i < n {
      LiveAfter(ws[..n], i, w);
      assert ws[i := w][..n] == ws[..n][i := w];
    } else {
      assert ws[i := w][..n] == ws[..n];
    }
  }

  lemma {:induction false} LeftAfter(ws: seq<Worker>, i: nat, w: Worker)
    requires i < |ws|
    ensures AllLeft(ws[i := w]) == AllLeft(ws) - Left(ws[i]) + Left(w)
    decreases |ws|
  {
    var n := |ws| - 1;
    if i < n {
      LeftAfter(ws[..n], i, w);
      assert ws[i := w][..n] == ws[..n][i := w];
    } else {
      assert ws[i := w][..n] == ws[..n];
    }
  }

  lemma {:induction false} HandCountAfter(ws: seq<Worker>, i: nat, w: Worker, j: Job)
    requires i < |ws|
    ensures HandCount(ws[i := w], j) == HandCount(ws, j) - Holds(i, ws[i], j) + Holds(i, w, j)
    decreases |ws|
  {
    var n := |ws| - 1;
    if i < n {
      HandCountAfter(ws[..n], i, w, j);
      assert ws[i := w][..n] == ws[..n][i := w];
    } else {
      assert ws[i := w][..n] == ws[..n];
    }
  }

  lemma {:induction false} BusyAtMostAll(ws: seq<Worker>)
    ensures BusyCount(ws) <= Live(ws) <= |ws|
    ensures (forall i :: 0 <= i < |ws| ==> Alive(ws[i]) == 0) ==> Live(ws) == 0
    decreases |ws|
  {
    if ws != [] {
      BusyAtMostAll(ws[..|ws| - 1]);
    }
  }

  lemma {:induction false} SomeoneLives(ws: seq<Worker>) returns (i: nat)
    requires Live(ws) > 0
    ensures i < |ws| && Alive(ws[i]) == 1
    decreases |ws|
  {
    if Alive(ws[|ws| - 1]) == 1 {
      i := |ws| - 1;
    } else {
      i := SomeoneLives(ws[..|ws| - 1]);
    }
  }

  // ---------- Invariants ----------

  /** How many workers startWorkers has started. */
  function Started(s: State): nat {
    match s.runner
    case Fresh => 0
    case Spawning(next) => next
    case _ => s.rateLimit
  }

  ghost predicate Workers(s: State) {
    && |s.workers| == s.rateLimit
    && Started(s) <= s.rateLimit
    && (forall i :: 0 <= i < |s.workers| ==> (s.workers[i].Unborn? <==> i >= Started(s)))
  }

  ghost predicate Stages(s: State) {
    && (s.jobs.Some? <==> s.rateLimit > 0 && !s.runner.Fresh?)
    && (s.dispatcher.NotStarted? <==> s.runner.Fresh? || s.runner.Spawning?)
    && (s.collector.NotCollecting? <==> s.runner.Fresh? || s.runner.Spawning?)
    && (s.runner.Polling? || s.runner.Exited? ==> s.metrics != map[])
    && (s.dispatcher.Sending? ==> s.rateLimit == 0)
    && (s.dispatcher.Offering? ==> s.rateLimit > 0)
  }

  ghost predicate Shutdown(s: State) {
    && (!s.closer.Off? ==> s.cancelled)
    && (Closed(s) ==> s.closer.Joining? || s.closer.Finished?)
    && (s.closer.Joining? ==> Closed(s))
    && |Queue(s)| <= s.rateLimit
  }

  ghost predicate AllGood(bs: seq<Batch>) {
    forall b :: b in bs ==> GoodBatch(b)
  }

  ghost predicate WorkerGood(w: Worker) {
    w.Busy? ==> GoodBatch(w.batch)
  }

  ghost predicate Senders(s: State) {
    && (forall i :: 0 <= i < |s.workers| ==> WorkerGood(s.workers[i]))
    && (s.dispatcher.Offering? || s.dispatcher.Sending? ==> GoodBatch(s.dispatcher.batch))
    && (s.closer.Final? ==> GoodBatch(s.closer.batch))
  }

  ghost predicate Batches(s: State) {
    GoodTable(s.metrics) && AllGood(Queue(s)) && AllGood(s.enqueued) && Senders(s)
  }

  function BatchesOf(jobs: seq<Job>): seq<Batch> {
    seq(|jobs|, i requires 0 <= i < |jobs| => jobs[i].batch)
  }

  /** Nothing put into the channel is lost, duplicated or reordered ... */
  ghost predicate InOrder(s: State) {
    s.enqueued == BatchesOf(s.taken) + Queue(s) && s.begun == s.taken
  }

  /** ... and each batch taken out is in the hands of, or was sent by, the worker that took it. */
  ghost predicate InHands(s: State) {
    forall j: Job :: multiset(s.taken)[j] == s.ended[j] + HandCount(s.workers, j)
  }

  ghost predicate Inv(s: State) {
    Workers(s) && s.wg == Live(s.workers) && Stages(s) && Shutdown(s) && Batches(s) && InOrder(s) && InHands(s)
  }

  lemma {:induction false} NobodyHolds(ws: seq<Worker>, j: Job)
    requires forall i :: 0 <= i < |ws| ==> ws[i].Unborn?
    ensures HandCount(ws, j) == 0 && Live(ws) == 0
    decreases |ws|
  {
    if ws != [] {
      NobodyHolds(ws[..|ws| - 1], j);
    }
  }

  lemma InitHolds(s: State)
    requires Init(s)
    ensures Inv(s)
  {
    NobodyHolds(s.workers, Job(0, []));
    forall j: Job
      ensures multiset(s.taken)[j] == s.ended[j] + HandCount(s.workers, j)
    {
      NobodyHolds(s.workers, j);
    }
  }

  predicate ConcernsWorker(a: Action) {
    a.Spawn? || a.Take? || a.SendReturns? || a.WorkerSeesCancel? || a.WorkerSeesClose?
  }

  function WorkerOf(s: State, a: Action): nat
    requires ConcernsWorker(a) && (a.Spawn? ==> s.runner.Spawning?)
  {
    if a.Spawn? then s.runner.next else a.w
  }

  /** A step changes at most the worker it concerns. */
  lemma OneWorkerChanges(s: State, a: Action)
    requires Workers(s) && Batches(s) && Enabled(s, a)
    ensures !ConcernsWorker(a) ==> Do(s, a).workers == s.workers
    ensures ConcernsWorker(a) ==>
      var w := WorkerOf(s, a);
      && w < |s.workers| && |Do(s, a).workers| == |s.workers|
      && Do(s, a).workers == s.workers[w := Do(s, a).workers[w]]
      && (s.workers[w].Unborn? <==> a.Spawn?)
      && !Do(s, a).workers[w].Unborn?
      && Do(s, a).wg == s.wg - Alive(s.workers[w]) + Alive(Do(s, a).workers[w])
  {
    if a.Take? {
      assert Queue(s)[0] in Queue(s);
    }
  }

  lemma StepKeepsWorkers(s: State, a: Action)
    requires Workers(s) && Batches(s) && Enabled(s, a)
    ensures Workers(Do(s, a))
  {
    OneWorkerChanges(s, a);
  }

  lemma StepKeepsCount(s: State, a: Action)
    requires Inv(s) && Enabled(s, a)
    ensures Do(s, a).wg == Live(Do(s, a).workers)
  {
    OneWorkerChanges(s, a);
    if ConcernsWorker(a) {
      LiveAfter(s.workers, WorkerOf(s, a), Do(s, a).workers[WorkerOf(s, a)]);
    }
  }

  lemma StepKeepsStages(s: State, a: Action)
    requires Stages(s) && Enabled(s, a)
    ensures Stages(Do(s, a))
  {
    if a.FirstPoll? {
      var id :| id in a.found;
      assert id in Do(s, a).metrics;
    }
    if a.Poll? || a.SystemPoll? {
      assert forall id :: id in s.metrics ==> id in Do(s, a).metrics;
    }
  }

  lemma StepKeepsShutdown(s: State, a: Action)
    requires Stages(s) && Shutdown(s) && Enabled(s, a)
    ensures Shutdown(Do(s, a))
  {
  }

  lemma SnapshotIsGood(metrics: map<string, Metric>, batch: Batch)
    requires GoodTable(metrics) && metrics != map[] && Enumerates(batch, metrics)
    ensures GoodBatch(batch)
  {
    var id :| id in metrics;
    assert metrics[id] in batch;
  }

  lemma AllGoodAfter(bs: seq<Batch>, b: Batch)
    requires AllGood(bs) && GoodBatch(b)
    ensures AllGood(bs + [b])
  {
  }

  lemma AllGoodTail(bs: seq<Batch>)
    requires AllGood(bs) && bs != []
    ensures GoodBatch(bs[0]) && AllGood(bs[1..])
  {
    assert bs[0] in bs;
    assert forall b :: b in bs[1..] ==> b in bs;
  }

  lemma StepKeepsChannelGood(s: State, a: Action)
    requires Stages(s) && Batches(s) && Enabled(s, a)
    ensures AllGood(Queue(Do(s, a))) && AllGood(Do(s, a).enqueued)
  {
    if a.Offer? {
      AllGoodAfter(Queue(s), s.dispatcher.batch);
      AllGoodAfter(s.enqueued, s.dispatcher.batch);
    } else if a.Take? {
      AllGoodTail(Queue(s));
    } else {
      assert Queue(Do(s, a)) == Queue(s) && Do(s, a).enqueued == s.enqueued;
    }
  }

  lemma StepKeepsSenders(s: State, a: Action)
    requires Batches(s) && Enabled(s, a)
    ensures Senders(Do(s, a))
  {
    if a.Snapshot? || a.ShutdownSends? {
      SnapshotIsGood(s.metrics, a.batch);
    }
    if a.Take? {
      AllGoodTail(Queue(s));
    }
  }

  lemma StepKeepsTable(s: State, a: Action)
    requires GoodTable(s.metrics) && Enabled(s, a)
    ensures GoodTable(Do(s, a).metrics)
  {
  }

  lemma TakeKeepsOrder(s: State, a: Action)
    requires Inv(s) && Enabled(s, a) && a.Take?
    ensures InOrder(Do(s, a))
  {
    AllGoodTail(Queue(s));
    var b := Queue(s)[0];
    assert Queue(s) == [b] + Queue(s)[1..];
    assert BatchesOf(s.taken + [Job(a.w, b)]) == BatchesOf(s.taken) + [b];
    assert BatchesOf(s.taken) + ([b] + Queue(s)[1..]) == BatchesOf(s.taken) + [b] + Queue(s)[1..];
  }

  lemma StepKeepsOrder(s: State, a: Action)
    requires Inv(s) && Enabled(s, a)
    ensures InOrder(Do(s, a))
  {
    if a.Take? {
      TakeKeepsOrder(s, a);
    } else if a.Offer? {
      assert BatchesOf(s.taken) + Queue(s) + [s.dispatcher.batch] == BatchesOf(s.taken) + (Queue(s) + [s.dispatcher.batch]);
    } else {
      assert Queue(Do(s, a)) == Queue(s) && Do(s, a).taken == s.taken;
    }
  }

  lemma TakeKeepsJob(s: State, a: Action, j: Job)
    requires Inv(s) && Enabled(s, a) && a.Take?
    ensures multiset(Do(s, a).taken)[j] == Do(s, a).ended[j] + HandCount(Do(s, a).workers, j)
  {
    AllGoodTail(Queue(s));
    var b := Queue(s)[0];
    HandCountAfter(s.workers, a.w, Busy(b), j);
    assert multiset(s.taken)[j] == s.ended[j] + HandCount(s.workers, j);
    assert multiset(s.taken + [Job(a.w, b)]) == multiset(s.taken) + multiset{Job(a.w, b)};
  }

  lemma OnlyPoolTouchesJobs(s: State, a: Action)
    requires Enabled(s, a) && !ConcernsWorker(a)
    ensures Do(s, a).taken == s.taken && Do(s, a).ended == s.ended && Do(s, a).workers == s.workers
  {
  }

  lemma WorkerKeepsJob(s: State, a: Action, j: Job)
    requires Workers(s) && Batches(s) && InHands(s) && Enabled(s, a) && ConcernsWorker(a) && !a.Take?
    ensures multiset(Do(s, a).taken)[j] == Do(s, a).ended[j] + HandCount(Do(s, a).workers, j)
  {
    assert multiset(s.taken)[j] == s.ended[j] + HandCount(s.workers, j);
    OneWorkerChanges(s, a);
    HandCountAfter(s.workers, WorkerOf(s, a), Do(s, a).workers[WorkerOf(s, a)], j);
  }

  lemma StepKeepsHands(s: State, a: Action)
    requires Inv(s) && Enabled(s, a)
    ensures InHands(Do(s, a))
  {
    forall j: Job
      ensures multiset(Do(s, a).taken)[j] == Do(s, a).ended[j] + HandCount(Do(s, a).workers, j)
    {
      if a.Take? {
        TakeKeepsJob(s, a, j);
      } else if ConcernsWorker(a) {
        WorkerKeepsJob(s, a, j);
      } else {
        OnlyPoolTouchesJobs(s, a);
      }
    }
  }

  lemma StepKeepsInv(s: State, a: Action)
    requires Inv(s) && Enabled(s, a)
    ensures Inv(Do(s, a))
  {
    StepKeepsWorkers(s, a);
    StepKeepsCount(s, a);
    StepKeepsStages(s, a);
    StepKeepsShutdown(s, a);
    StepKeepsTable(s, a);
    StepKeepsChannelGood(s, a);
    StepKeepsSenders(s, a);
    StepKeepsOrder(s, a);
    StepKeepsHands(s, a);
  }

  lemma {:induction false} PlayKeepsInv(s: State, acts: seq<Action>)
    requires Inv(s) && Play(s, acts).Some?
    ensures Inv(Play(s, acts).value)
    decreases |acts|
  {
    if acts != [] {
      StepKeepsInv(s, acts[0]);
      PlayKeepsInv(Do(s, acts[0]), acts[1..]);
    }
  }

  ghost predicate Reachable(s: State) {
    exists s0 :: Init(s0) && CanReach(s0, s)
  }

  lemma ReachableInv(s: State)
    requires Reachable(s)
    ensures Inv(s)
  {
    var s0 :| Init(s0) && CanReach(s0, s);
    var acts :| Leads(s0, acts, s);
    InitHolds(s0);
    PlayKeepsInv(s0, acts);
  }

  /** In every reachable state, for any limit and any interleaving: what was put into the
      channel is what was taken out followed by what is still there, in order; each batch
      taken out goes to one SendBatch call of the worker that took it; and the channel
      never holds more than the limit. */
  lemma QueueConservation(s: State)
    requires Reachable(s)
    ensures s.enqueued == BatchesOf(s.taken) + Queue(s)
    ensures s.begun == s.taken
    ensures forall j: Job :: multiset(s.begun)[j] == s.ended[j] + HandCount(s.workers, j)
    ensures |Queue(s)| <= s.rateLimit
  {
    ReachableInv(s);
  }

  /** SendBatch calls under way. */
  function InFlight(s: State): nat {
    BusyCount(s.workers) + (if s.dispatcher.Sending? then 1 else 0) + if s.closer.Final? then 1 else 0
  }

  /** The wait group counts the live workers, and at most max(limit, 1) + 1 SendBatch calls run at once. */
  lemma ConcurrencyIsBounded(s: State)
    requires Reachable(s)
    ensures s.wg == Live(s.workers)
    ensures InFlight(s) <= (if s.rateLimit > 1 then s.rateLimit else 1) + 1
  {
    ReachableInv(s);
    BusyAtMostAll(s.workers);
  }

  /** Every batch the agent hands to a sender is a good one. */
  lemma BatchesAreGood(s: State, b: Batch)
    requires Reachable(s)
    requires b in s.enqueued || s.dispatcher == Sending(b) || s.closer == Final(b)
    ensures GoodBatch(b)
  {
    ReachableInv(s);
  }
}
