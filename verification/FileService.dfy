/** The service in front of the file storage (internal/service/metrics_service.go over
    internal/repository/filestorage.go): item by item, and in synchronous mode with one save
    an item. */
module FileService {
  import opened Model
  import opened Storage
  import opened Service
  import opened FileStorage

  datatype ServiceCall =
    | GaugeCall(id: string, value: Float64)
    | CounterCall(id: string, delta: Int64)
    | BatchCall(items: seq<Metric>)

  /** The items a call applies. */
  function Applied(call: ServiceCall): seq<Metric> {
    match call
    case GaugeCall(id, value) => if id == "" then [] else [GaugeMetric(id, value)]
    case CounterCall(id, delta) => if id == "" then [] else [CounterMetric(id, delta)]
    case BatchCall(items) => items[..ValidLength(items)]
  }

  function AllApplied(calls: seq<ServiceCall>): seq<Metric> {
    if calls == [] then [] else AllApplied(calls[..|calls| - 1]) + Applied(calls[|calls| - 1])
  }

  class FileBackedService {
    const repo: FileBackedStorage

    constructor (repo: FileBackedStorage)
      ensures this.repo == repo
    {
      this.repo := repo;
    }

    /** The file shows the current state if JSON can hold it, and not otherwise (unless it is
        a foreign file JSON could not have written). */
    ghost predicate InStep()
      reads repo, repo.mem
    {
      && (Savable(repo.mem.Contents()) ==> repo.Durable())
      && (repo.Readable() ==> (repo.Durable() <==> Savable(repo.mem.Contents())))
    }

    method UpdateGauge(id: string, value: Float64) returns (err: Option<ServiceError>)
      requires Lawful(repo.codec)
      modifies repo, repo.mem
      ensures old(repo.Readable()) ==> repo.Readable()
      ensures err == if id == "" then Some(InvalidMetricID) else None
      ensures id == "" ==> repo.mem.Contents() == old(repo.mem.Contents()) && repo.target == old(repo.target)
      ensures id != "" ==> repo.mem.Contents() == SetGauge(old(repo.mem.Contents()), id, value)
      ensures id != "" && repo.syncWrite ==> InStep()
      ensures !repo.syncWrite ==> repo.target == old(repo.target)
    {
      if id == "" {
        return Some(InvalidMetricID);
      }
      repo.UpdateGauge(id, value, NoFault);
      err := None;
    }

    method UpdateCounter(id: string, delta: Int64) returns (r: Result<Int64, ServiceError>)
      requires Lawful(repo.codec)
      modifies repo, repo.mem
      ensures old(repo.Readable()) ==> repo.Readable()
      ensures id == "" ==> r == Err(InvalidMetricID)
      ensures id == "" ==> repo.mem.Contents() == old(repo.mem.Contents()) && repo.target == old(repo.target)
      ensures id != "" ==>
        && repo.mem.Contents() == AddCounter(old(repo.mem.Contents()), id, delta)
        && r == Ok(CounterOr0(repo.mem.Contents(), id))
      ensures id != "" && repo.syncWrite ==> InStep()
      ensures !repo.syncWrite ==> repo.target == old(repo.target)
    {
      if id == "" {
        return Err(InvalidMetricID);
      }
      repo.UpdateCounter(id, delta, NoFault);
      var current := repo.mem.GetCounter(id);
      match current
      case Ok(v) => r := Ok(v);
      case Err(e) => r := Err(Passed(e));
    }

    /** One save an item, up to the first invalid one. */
    method UpdateBatch(metrics: seq<Metric>) returns (err: Option<ServiceError>, applied: nat)
      requires Lawful(repo.codec)
      modifies repo, repo.mem
      ensures old(repo.Readable()) ==> repo.Readable()
      ensures LongestValidPrefix(metrics, applied)
      ensures err == if applied < |metrics| then Complaint(metrics[applied]) else None
      ensures repo.mem.Contents() == Fold(old(repo.mem.Contents()), metrics[..applied])
      ensures if applied > 0 && repo.syncWrite then InStep() else repo.target == old(repo.target)
    {
      applied := 0;
      err := None;
      while applied < |metrics|
        invariant applied <= |metrics| && NoComplaint(metrics, applied) && err == None
        invariant repo.mem.Contents() == Fold(old(repo.mem.Contents()), metrics[..applied])
        invariant old(repo.Readable()) ==> repo.Readable()
        invariant if applied > 0 && repo.syncWrite then InStep() else repo.target == old(repo.target)
      {
        assert metrics[..applied + 1][..applied] == metrics[..applied];
        err := Handle(metrics[applied]);
        if err.Some? {
          break;
        }
        NoComplaintNext(metrics, applied);
        applied := applied + 1;
      }
      PrefixFound(metrics, applied);
    }

    /** One turn of the loop: check, then update. */
    method Handle(m: Metric) returns (err: Option<ServiceError>)
      requires Lawful(repo.codec)
      modifies repo, repo.mem
      ensures old(repo.Readable()) ==> repo.Readable()
      ensures err == Complaint(m)
      ensures err.Some? ==> repo.mem.Contents() == old(repo.mem.Contents()) && repo.target == old(repo.target)
      ensures err.None? ==> repo.mem.Contents() == Apply(old(repo.mem.Contents()), m)
      ensures err.None? && repo.syncWrite ==> InStep()
      ensures !repo.syncWrite ==> repo.target == old(repo.target)
    {
      if m.id == "" {
        return Some(InvalidMetricID);
      }
      if m.mtype == GAUGE {
        if m.value.None? {
          return Some(MissingValue);
        }
        repo.UpdateGauge(m.id, m.value.value, NoFault);
      } else if m.mtype == COUNTER {
        if m.delta.None? {
          return Some(MissingDelta);
        }
        repo.UpdateCounter(m.id, m.delta.value, NoFault);
      } else {
        return Some(InvalidMetricType);
      }
      err := None;
    }

    /** Any sequence of calls, one after the other and without I/O failure: in synchronous mode,
        once anything has been applied, the file shows the current state exactly when JSON can
        hold it. As this holds of every sequence, it holds after each of its calls. */
    method Serve(calls: seq<ServiceCall>)
      requires Lawful(repo.codec)
      modifies repo, repo.mem
      ensures old(repo.Readable()) ==> repo.Readable()
      ensures repo.mem.Contents() == Fold(old(repo.mem.Contents()), AllApplied(calls))
      ensures if repo.syncWrite && AllApplied(calls) != [] then InStep() else repo.target == old(repo.target)
    {
      for i := 0 to |calls|
        invariant old(repo.Readable()) ==> repo.Readable()
        invariant repo.mem.Contents() == Fold(old(repo.mem.Contents()), AllApplied(calls[..i]))
        invariant if repo.syncWrite && AllApplied(calls[..i]) != [] then InStep() else repo.target == old(repo.target)
      {
        assert calls[..i + 1][..i] == calls[..i];
        ServeOne(calls[i]);
        FoldConcat(old(repo.mem.Contents()), AllApplied(calls[..i]), Applied(calls[i]));
      }
      assert calls[..|calls|] == calls;
    }

    /** In either mode the file shows the final state after the stop hook. */
    method ServeThenStop(calls: seq<ServiceCall>)
      requires Lawful(repo.codec)
      modifies repo, repo.mem
      ensures repo.mem.Contents() == Fold(old(repo.mem.Contents()), AllApplied(calls))
      ensures InStep()
    {
      Serve(calls);
      var _ := repo.OnStop(NoFault);
    }

    method ServeOne(call: ServiceCall)
      requires Lawful(repo.codec)
      modifies repo, repo.mem
      ensures old(repo.Readable()) ==> repo.Readable()
      ensures repo.mem.Contents() == Fold(old(repo.mem.Contents()), Applied(call))
      ensures if repo.syncWrite && Applied(call) != [] then InStep() else repo.target == old(repo.target)
    {
      match call
      case GaugeCall(id, value) =>
        FoldOne(repo.mem.Contents(), GaugeMetric(id, value));
        var _ := UpdateGauge(id, value);
      case CounterCall(id, delta) =>
        FoldOne(repo.mem.Contents(), CounterMetric(id, delta));
        var _ := UpdateCounter(id, delta);
      case BatchCall(items) =>
        var _, applied := UpdateBatch(items);
        ValidLengthIsLongest(items);
        PrefixIsUnique(items, applied, ValidLength(items));
    }
  }
}
