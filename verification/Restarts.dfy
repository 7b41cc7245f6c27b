/** What a server's counters are worth across restarts, for the storages that are not a
    database (internal/repository/factory.go, storage.go, filestorage.go). */
module Restarts {
  import opened Model
  import opened Storage
  import opened FileStorage
  import opened Delivery

  // ---------- A server that stops and starts again ----------

  /** With a file: saved after every update or by a ticker, and loaded at the start or not. */
  datatype Mode = InMemory | OnFile(syncWrite: bool, restore: bool)

  /** What the storage holds, and what its file would give a storage that loads it. */
  datatype Server = Server(mem: State, disk: State)

  /** Done: an item has been applied and, in synchronous mode, saved if it can be. Reboot: the
      process ends, by the stop hook or at once, and another one starts; an item applied but
      not yet saved goes with it and does not count as done. */
  datatype Event = Done(m: Metric) | Tick | Reboot(graceful: bool)

  function Boot(mode: Mode, disk: State): Server {
    Server(if mode.OnFile? && mode.restore then disk else EMPTY, disk)
  }

  /** A save goes through exactly if JSON can hold the state. */
  function Saved(s: Server): Server {
    if Savable(s.mem) then s.(disk := Visible(s.mem)) else s
  }

  function Step(mode: Mode, s: Server, e: Event): Server {
    match e
    case Done(m) =>
      if !SetsGauge(m) && !AddsCounter(m) then s
      else
        var s' := s.(mem := Apply(s.mem, m));
        if mode.OnFile? && mode.syncWrite then Saved(s') else s'
    case Tick => if mode.OnFile? && !mode.syncWrite then Saved(s) else s
    case Reboot(graceful) => Boot(mode, if mode.OnFile? && graceful then Saved(s).disk else s.disk)
  }

  function Play(mode: Mode, s: Server, run: seq<Event>): Server {
    if run == [] then s else Step(mode, Play(mode, s, run[..|run| - 1]), run[|run| - 1])
  }

  /** The items done. */
  function Executed(run: seq<Event>): seq<Metric> {
    if run == [] then []
    else
      var before, last := Executed(run[..|run| - 1]), run[|run| - 1];
      if last.Done? then before + [last.m] else before
  }

  // ---------- The file storage behaves like that ----------

  /** The run of a server on a file, object by object, without I/O failure. */
  method RunServer(codec: Codec, syncWrite: bool, restore: bool, target: Option<seq<Byte>>, run: seq<Event>)
    returns (repo: FileBackedStorage)
    requires Lawful(codec) && (target.Some? ==> codec.decode(target.value).Some?)
    ensures var mode := OnFile(syncWrite, restore);
      Server(repo.mem.Contents(), Shown(codec, repo.target)) == Play(mode, Boot(mode, Shown(codec, target)), run)
  {
    ghost var mode := OnFile(syncWrite, restore);
    ghost var start := Boot(mode, Shown(codec, target));
    var started := NewFileStorage(codec, syncWrite, restore, target, None);
    repo := started.value;
    for i := 0 to |run|
      invariant repo.codec == codec && repo.syncWrite == syncWrite && fresh(repo) && fresh(repo.mem)
      invariant repo.target.Some? ==> codec.decode(repo.target.value).Some?
      invariant Server(repo.mem.Contents(), Shown(codec, repo.target)) == Play(mode, start, run[..i])
    {
      assert run[..i + 1][..i] == run[..i];
      repo := RunEvent(repo, restore, run[i]);
    }
    assert run[..|run|] == run;
  }

  method RunEvent(repo: FileBackedStorage, restore: bool, e: Event) returns (repo': FileBackedStorage)
    requires Lawful(repo.codec) && (repo.target.Some? ==> repo.codec.decode(repo.target.value).Some?)
    modifies repo, repo.mem
    ensures repo'.codec == repo.codec && repo'.syncWrite == repo.syncWrite
    ensures repo' == repo || fresh(repo')
    ensures repo'.mem == repo.mem || fresh(repo'.mem)
    ensures repo'.target.Some? ==> repo'.codec.decode(repo'.target.value).Some?
    ensures Server(repo'.mem.Contents(), Shown(repo'.codec, repo'.target))
         == Step(OnFile(repo.syncWrite, restore), old(Server(repo.mem.Contents(), Shown(repo.codec, repo.target))), e)
  {
    repo' := repo;
    match e
    case Done(m) =>
      if m.mtype == GAUGE && m.value.Some? {
        repo.UpdateGauge(m.id, m.value.value, NoFault);
      } else if m.mtype == COUNTER && m.delta.Some? {
        repo.UpdateCounter(m.id, m.delta.value, NoFault);
      }
    case Tick =>
      if !repo.syncWrite {
        var _ := repo.Save(NoFault);
      }
    case Reboot(graceful) =>
      if graceful {
        var _ := repo.OnStop(NoFault);
      }
      var started := NewFileStorage(repo.codec, repo.syncWrite, restore, repo.target, repo.tmp);
      repo' := started.value;
  }

  // ---------- When restarts cannot be noticed ----------

  /** Each reboot finds a state JSON can hold, and that state on the disk: put there by the
      last update or by the stop hook. */
  predicate Careful(mode: Mode, s: Server, run: seq<Event>) {
    run == [] ||
    (var front, e := run[..|run| - 1], run[|run| - 1];
      && Careful(mode, s, front)
      && (e.Reboot? ==> Savable(Play(mode, s, front).mem) && (e.graceful || (mode.OnFile? && mode.syncWrite))))
  }

  lemma VisibleFollows(a: State, b: State, m: Metric)
    requires Visible(a) == Visible(b)
    ensures Visible(Apply(a, m)) == Visible(Apply(b, m))
  {
    var x, y := Visible(Apply(a, m)), Visible(Apply(b, m));
    assert a.counters == Visible(a).counters == b.counters;
    forall id
      ensures id in x.gauges <==> id in y.gauges
      ensures id in x.gauges ==> x.gauges[id] == y.gauges[id]
    {
      assert id in Visible(a).gauges <==> id in a.gauges && id !in a.counters;
      assert id in Visible(b).gauges <==> id in b.gauges && id !in b.counters;
    }
    assert x.gauges == y.gauges;
  }

  lemma VisibleTwice(st: State)
    ensures Visible(Visible(st)) == Visible(st)
  {
    assert Visible(Visible(st)).gauges == Visible(st).gauges;
  }

  ghost predicate Synced(s: Server) {
    Savable(s.mem) ==> Visible(s.disk) == Visible(s.mem)
  }

  lemma StepStaysSynced(mode: Mode, s: Server, e: Event)
    requires mode.OnFile? && mode.restore && mode.syncWrite && Synced(s)
    ensures Synced(Step(mode, s, e))
  {
    VisibleTwice(Step(mode, s, e).mem);
  }

  lemma {:induction false} SyncedWhenSavable(mode: Mode, disk: State, run: seq<Event>)
    requires mode.OnFile? && mode.restore && mode.syncWrite
    ensures Synced(Play(mode, Boot(mode, disk), run))
    decreases |run|
  {
    if run != [] {
      SyncedWhenSavable(mode, disk, run[..|run| - 1]);
      StepStaysSynced(mode, Play(mode, Boot(mode, disk), run[..|run| - 1]), run[|run| - 1]);
    }
  }

  lemma CarefulRebootIsInvisible(mode: Mode, s: Server, graceful: bool)
    requires mode.OnFile? && mode.restore && Savable(s.mem) && (graceful || Synced(s))
    ensures Visible(Step(mode, s, Reboot(graceful)).mem) == Visible(s.mem)
  {
    VisibleTwice(s.mem);
  }

  /** A server that loads its file at the start: if all its reboots are careful, what it holds
      is what it would hold had it never stopped, but for gauges hidden by a counter. */
  lemma {:induction false} RestartsAreInvisible(mode: Mode, disk: State, run: seq<Event>)
    requires mode.OnFile? && mode.restore && Careful(mode, Boot(mode, disk), run)
    ensures Visible(Play(mode, Boot(mode, disk), run).mem) == Visible(Fold(disk, Executed(run)))
    decreases |run|
  {
    if run != [] {
      var front, e := run[..|run| - 1], run[|run| - 1];
      var before := Play(mode, Boot(mode, disk), front);
      RestartsAreInvisible(mode, disk, front);
      if e.Done? {
        VisibleFollows(before.mem, Fold(disk, Executed(front)), e.m);
        FoldConcat(disk, Executed(front), [e.m]);
        FoldOne(Fold(disk, Executed(front)), e.m);
      } else if e.Reboot? {
        if !e.graceful {
          SyncedWhenSavable(mode, disk, front);
        }
        CarefulRebootIsInvisible(mode, before, e.graceful);
      }
    }
  }

  lemma {:induction false} UpdatesLeaveDisk(mode: Mode, s: Server, run: seq<Event>)
    requires mode.OnFile? && !mode.syncWrite && forall e :: e in run ==> e.Done?
    ensures Play(mode, s, run).disk == s.disk
    decreases |run|
  {
    if run != [] {
      UpdatesLeaveDisk(mode, s, run[..|run| - 1]);
      assert run[|run| - 1] in run;
    }
  }

  lemma {:induction false} PlayConcat(mode: Mode, s: Server, a: seq<Event>, b: seq<Event>)
    ensures Play(mode, s, a + b) == Play(mode, Play(mode, s, a), b)
    decreases |b|
  {
    if b == [] {
      assert a + b == a;
    } else {
      assert (a + b)[..|a + b| - 1] == a + b[..|b| - 1];
      PlayConcat(mode, s, a, b[..|b| - 1]);
    }
  }

  /** A crash of a server saved by a ticker takes what it holds back to the last tick: the
      updates since are gone, those before are not. A state JSON cannot hold is not saved. */
  lemma CrashGoesBackToTick(mode: Mode, disk: State, run: seq<Event>, since: seq<Event>)
    requires mode.OnFile? && mode.restore && !mode.syncWrite && forall e :: e in since ==> e.Done?
    ensures var ticked := Play(mode, Boot(mode, disk), run);
      Play(mode, Boot(mode, disk), run + [Tick] + since + [Reboot(false)]).mem
      == if Savable(ticked.mem) then Visible(ticked.mem) else ticked.disk
  {
    var start := Boot(mode, disk);
    var before := run + [Tick] + since;
    assert (before + [Reboot(false)])[..|before|] == before;
    PlayConcat(mode, start, run + [Tick], since);
    assert (run + [Tick])[..|run|] == run;
    UpdatesLeaveDisk(mode, Play(mode, start, run + [Tick]), since);
  }

  lemma StepInOneLife(mode: Mode, s: Server, e: Event)
    requires !e.Reboot?
    ensures Step(mode, s, e).mem == if e.Done? then Apply(s.mem, e.m) else s.mem
  {
  }

  predicate NeverReboots(run: seq<Event>) {
    forall e :: e in run ==> !e.Reboot?
  }

  lemma {:induction false} OneLife(mode: Mode, s: Server, run: seq<Event>)
    requires NeverReboots(run)
    ensures Play(mode, s, run).mem == Fold(s.mem, Executed(run))
    decreases |run|
  {
    if run != [] {
      var front, e := run[..|run| - 1], run[|run| - 1];
      OneLife(mode, s, front);
      assert e in run;
      if e.Done? {
        FoldConcat(s.mem, Executed(front), [e.m]);
        FoldOne(Fold(s.mem, Executed(front)), e.m);
      }
      StepInOneLife(mode, Play(mode, s, front), e);
    }
  }

  // ---------- A counter never gains by a restart ----------

  lemma ApplyAddsAtMost(st: State, m: Metric, id: string, bound: int)
    requires CounterOr0(st, id) <= bound && DeltaOf(m, id) >= 0 && bound + DeltaOf(m, id) < TWO63
    ensures CounterOr0(Apply(st, m), id) <= bound + DeltaOf(m, id)
  {
    if AddsCounter(m) && m.id == id {
      WrapInRange(CounterOr0(st, id) + m.delta.value);
    }
  }

  function Added(e: Event, id: string): int {
    if e.Done? then DeltaOf(e.m, id) else 0
  }

  lemma ExecutedNext(run: seq<Event>, id: string)
    requires run != [] && NonNegativeDeltas(Executed(run), id)
    ensures var front, e := run[..|run| - 1], run[|run| - 1];
      && NonNegativeDeltas(Executed(front), id)
      && DeltaSum(Executed(run), id) == DeltaSum(Executed(front), id) + Added(e, id)
      && Added(e, id) >= 0
  {
    var front, e := run[..|run| - 1], run[|run| - 1];
    assert forall m :: m in Executed(front) ==> m in Executed(run);
    if e.Done? {
      assert Executed(run)[|Executed(front)|] == e.m;
      assert Executed(run)[..|Executed(run)| - 1] == Executed(front);
    }
  }

  /** The counter is at most `bound`, now and after a reboot. */
  predicate Below(mode: Mode, s: Server, id: string, bound: int) {
    && CounterOr0(s.mem, id) <= bound
    && (if mode.OnFile? && mode.restore then CounterOr0(s.disk, id) <= bound else 0 <= bound)
  }

  lemma StepStaysBelow(mode: Mode, s: Server, e: Event, id: string, bound: int)
    requires Below(mode, s, id, bound) && Added(e, id) >= 0 && bound + Added(e, id) < TWO63
    ensures Below(mode, Step(mode, s, e), id, bound + Added(e, id))
  {
    if e.Done? {
      ApplyAddsAtMost(s.mem, e.m, id, bound);
    }
  }

  lemma {:induction false} StaysBelow(mode: Mode, s: Server, run: seq<Event>, id: string, bound: int)
    requires Below(mode, s, id, bound) && NonNegativeDeltas(Executed(run), id)
    requires bound + DeltaSum(Executed(run), id) < TWO63
    ensures Below(mode, Play(mode, s, run), id, bound + DeltaSum(Executed(run), id))
    decreases |run|
  {
    if run != [] {
      var front, e := run[..|run| - 1], run[|run| - 1];
      ExecutedNext(run, id);
      StaysBelow(mode, s, front, id, bound);
      StepStaysBelow(mode, Play(mode, s, front), e, id, bound + DeltaSum(Executed(front), id));
    }
  }

  /** In every mode, whenever the server is stopped and however, a counter is at most what it
      was at the start plus all that was executed. */
  lemma NeverGains(mode: Mode, disk: State, run: seq<Event>, id: string)
    requires NonNegativeDeltas(Executed(run), id)
    requires CounterOr0(Boot(mode, disk).mem, id) + DeltaSum(Executed(run), id) < TWO63
    ensures CounterOr0(Play(mode, Boot(mode, disk), run).mem, id)
         <= CounterOr0(Boot(mode, disk).mem, id) + DeltaSum(Executed(run), id)
  {
    StaysBelow(mode, Boot(mode, disk), run, id, CounterOr0(Boot(mode, disk).mem, id));
  }

  // ---------- Acknowledged deltas ----------

  /** The server's run is what the agent's sends got executed, in any order, with reboots and
      saves anywhere in between. */
  ghost predicate Serves(mode: Mode, disk: State, run: seq<Event>, sends: seq<Send>, limit: nat, id: string) {
    && OverMemory(sends) && AllNonNegative(sends, id)
    && multiset(Executed(run)) == multiset(AllDelivered(sends, limit))
    && InRange(CounterOr0(Boot(mode, disk).mem, id) + (limit + 1) * AttemptedSum(sends, id))
  }

  function Grown(mode: Mode, disk: State, run: seq<Event>, id: string): int {
    CounterOr0(Play(mode, Boot(mode, disk), run).mem, id) - CounterOr0(Boot(mode, disk).mem, id)
  }

  lemma ServedRange(mode: Mode, disk: State, run: seq<Event>, sends: seq<Send>, limit: nat, id: string)
    requires Serves(mode, disk, run, sends, limit, id)
    ensures 0 <= AcknowledgedSum(sends, limit, id) <= DeltaSum(Executed(run), id) <= (limit + 1) * AttemptedSum(sends, id)
    ensures NonNegativeDeltas(Executed(run), id)
  {
    OnceRange(sends, limit, id, Executed(run));
    DeliveredNonNegative(sends, limit, id);
    SameItems(Executed(run), AllDelivered(sends, limit));
  }

  lemma FoldIsExact(st: State, ms: seq<Metric>, id: string)
    requires InRange(CounterOr0(st, id) + DeltaSum(ms, id))
    ensures CounterOr0(Fold(st, ms), id) == CounterOr0(st, id) + DeltaSum(ms, id)
  {
    FoldCounter(st, ms, id);
    WrapInRange(CounterOr0(st, id) + DeltaSum(ms, id));
  }

  /** With non-negative deltas and no overflow, a counter grows by at most limit + 1 times what
      was attempted, in every mode and whatever the reboots. It grows by at least what was
      acknowledged if the server is never rebooted, or loads its file at the start and is
      rebooted carefully. */
  lemma CounterBounds(mode: Mode, disk: State, run: seq<Event>, sends: seq<Send>, limit: nat, id: string)
    requires Serves(mode, disk, run, sends, limit, id)
    ensures Grown(mode, disk, run, id) <= (limit + 1) * AttemptedSum(sends, id)
    ensures NeverReboots(run) || (mode.OnFile? && mode.restore && Careful(mode, Boot(mode, disk), run)) ==>
      AcknowledgedSum(sends, limit, id) <= Grown(mode, disk, run, id)
  {
    ServedRange(mode, disk, run, sends, limit, id);
    var start := Boot(mode, disk);
    NeverGains(mode, disk, run, id);
    FoldIsExact(start.mem, Executed(run), id);
    if NeverReboots(run) {
      OneLife(mode, start, run);
    } else if mode.OnFile? && mode.restore && Careful(mode, start, run) {
      RestartsAreInvisible(mode, disk, run);
      var end := Play(mode, start, run).mem;
      assert end.counters == Visible(end).counters == Fold(disk, Executed(run)).counters;
    }
  }

  // ---------- Exactly which modes keep what was acknowledged ----------

  predicate Savables(mode: Mode, s: Server, run: seq<Event>) {
    run == [] ||
    (var front, e := run[..|run| - 1], run[|run| - 1];
      Savables(mode, s, front) && (e.Reboot? ==> Savable(Play(mode, s, front).mem)))
  }

  predicate NeverCrashes(run: seq<Event>) {
    forall e :: e in run ==> !(e.Reboot? && !e.graceful)
  }

  /** Across any reboots at which JSON can hold the state, crashes among them or not. */
  ghost predicate KeepsAcknowledged(mode: Mode, crashes: bool) {
    forall disk, run, sends, limit, id ::
      Serves(mode, disk, run, sends, limit, id) && Savables(mode, Boot(mode, disk), run) && (crashes || NeverCrashes(run)) ==>
        AcknowledgedSum(sends, limit, id) <= Grown(mode, disk, run, id)
  }

  lemma {:induction false} SavablesAreCareful(mode: Mode, s: Server, run: seq<Event>)
    requires mode.OnFile? && Savables(mode, s, run) && (mode.syncWrite || NeverCrashes(run))
    ensures Careful(mode, s, run)
    decreases |run|
  {
    if run != [] {
      var front, e := run[..|run| - 1], run[|run| - 1];
      assert e in run && forall x :: x in front ==> x in run;
      SavablesAreCareful(mode, s, front);
    }
  }

  /** A batch of one item, acknowledged at the first attempt. */
  lemma OneAcknowledged(m: Metric, limit: nat) returns (send: Send)
    requires m == CounterMetric("c", 5)
    ensures OverMemory([send]) && AllNonNegative([send], "c")
    ensures AllDelivered([send], limit) == [m]
    ensures AcknowledgedSum([send], limit, "c") == 5 && AttemptedSum([send], "c") == 5
  {
    var fates: nat -> Fate := (k: nat) => Answered;
    send := Send([m], MemorySending([m], fates));
    var s := send.sending;
    assert ToMemory(send);
    assert fates(0) == Answered && s.exchange(0) == Answer([m], fates(0));
    assert Last(s, limit) == 0 && Sent(s, limit);
    assert [m][..0] == [] && DeltaSum([m], "c") == DeltaSum([m][..0], "c") + 5;
    assert ExecutedIn([m], s, 0, 1) == ExecutedIn([m], s, 0, 0) + Repeated([m], 1);
    assert Repeated([m], 1) == Repeated([m], 0) + [m];
    assert ExecutedBefore([m], s, 1) == ExecutedBefore([m], s, 0) + ExecutedIn([m], s, 0, 1);
    assert [send][..0] == [];
    assert AllDelivered([send], limit) == AllDelivered([send][..0], limit) + Delivered([m], s, limit);
    assert AttemptedSum([send], "c") == AttemptedSum([send][..0], "c") + 5;
    assert AcknowledgedSum([send], limit, "c") == AcknowledgedSum([send][..0], limit, "c") + 5;
  }

  lemma LosingRun(mode: Mode, crash: bool, run: seq<Event>)
    requires mode.InMemory? || !mode.restore || (crash && !mode.syncWrite)
    requires run == [Done(CounterMetric("c", 5)), Reboot(!crash)]
    ensures Savables(mode, Boot(mode, EMPTY), run) && Play(mode, Boot(mode, EMPTY), run).mem == EMPTY
  {
    var s0 := Boot(mode, EMPTY);
    assert run[..1] == [run[0]] && run[..1][..0] == [];
    assert Play(mode, s0, run[..1][..0]) == s0 && Savables(mode, s0, run[..1][..0]);
    assert Play(mode, s0, run[..1]) == Step(mode, s0, run[0]);
    assert Savable(Step(mode, s0, run[0]).mem);
    assert Savables(mode, s0, run[..1]);
  }

  /** The run that loses: five are acknowledged, the server goes down before they are on disk,
      or comes up without looking there, and the counter is gone. */
  lemma RestartLoses(mode: Mode, crash: bool) returns (run: seq<Event>, sends: seq<Send>)
    requires mode.InMemory? || !mode.restore || (crash && !mode.syncWrite)
    ensures run == [Done(CounterMetric("c", 5)), Reboot(!crash)]
    ensures Serves(mode, EMPTY, run, sends, 0, "c") && Savables(mode, Boot(mode, EMPTY), run)
    ensures AcknowledgedSum(sends, 0, "c") == 5 && Grown(mode, EMPTY, run, "c") == 0
  {
    var m := CounterMetric("c", 5);
    run := [Done(m), Reboot(!crash)];
    var send := OneAcknowledged(m, 0);
    sends := [send];
    assert run[..1] == [Done(m)] && run[..1][..0] == [];
    assert Executed(run[..1]) == Executed([]) + [m];
    assert Executed(run) == [m];
    LosingRun(mode, crash, run);
  }

  /** Across reboots an acknowledged delta is kept for good exactly by a storage that loads its
      file at the start and, if the process can crash, saves after every update. */
  lemma KeepsAcknowledgedExactly(mode: Mode, crashes: bool)
    ensures KeepsAcknowledged(mode, crashes) <==> mode.OnFile? && mode.restore && (mode.syncWrite || !crashes)
  {
    if mode.OnFile? && mode.restore && (mode.syncWrite || !crashes) {
      forall disk, run, sends, limit, id |
        Serves(mode, disk, run, sends, limit, id) && Savables(mode, Boot(mode, disk), run) && (crashes || NeverCrashes(run))
        ensures AcknowledgedSum(sends, limit, id) <= Grown(mode, disk, run, id)
      {
        SavablesAreCareful(mode, Boot(mode, disk), run);
        CounterBounds(mode, disk, run, sends, limit, id);
      }
    } else {
      var run, sends := RestartLoses(mode, crashes);
      assert NeverCrashes([Done(CounterMetric("c", 5)), Reboot(true)]);
      assert crashes || NeverCrashes(run);
    }
  }
}
