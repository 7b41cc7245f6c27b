/** The validating service in front of a storage (internal/service/metrics_service.go). */
module Service {
  import opened Model
  import opened Storage

  /** Errors of the storage the service has no name for are passed on. */
  datatype ServiceError =
    InvalidMetricType | MetricNotFound | InvalidMetricID | MissingValue | MissingDelta | Passed(e: StorageError)

  /** The complaint about one item, if any, in the order the service looks. */
  function Complaint(m: Metric): Option<ServiceError> {
    if m.id == "" then Some(InvalidMetricID)
    else if m.mtype == GAUGE then if m.value.None? then Some(MissingValue) else None
    else if m.mtype == COUNTER then if m.delta.None? then Some(MissingDelta) else None
    else Some(InvalidMetricType)
  }

  /** What each complaint is about. */
  lemma ComplaintMeans(m: Metric)
    ensures Complaint(m) == Some(InvalidMetricID) <==> m.id == ""
    ensures Complaint(m) == Some(InvalidMetricType) <==> m.id != "" && m.mtype != "gauge" && m.mtype != "counter"
    ensures Complaint(m) == Some(MissingValue) <==> m.id != "" && m.mtype == "gauge" && m.value == None
    ensures Complaint(m) == Some(MissingDelta) <==> m.id != "" && m.mtype == "counter" && m.delta == None
    ensures Complaint(m) == None <==> Valid(m)
  {
  }

  predicate Valid(m: Metric) {
    m.id != "" && (SetsGauge(m) || AddsCounter(m))
  }

  predicate AllValid(ms: seq<Metric>) {
    forall m :: m in ms ==> Valid(m)
  }

  /** The first k items are valid and no further item can be added to them. */
  ghost predicate LongestValidPrefix(ms: seq<Metric>, k: nat) {
    k <= |ms| && AllValid(ms[..k]) && (k < |ms| ==> !Valid(ms[k]))
  }

  lemma PrefixIsUnique(ms: seq<Metric>, j: nat, k: nat)
    requires LongestValidPrefix(ms, j) && LongestValidPrefix(ms, k)
    ensures j == k
  {
    assert forall i :: 0 <= i < j ==> ms[..j][i] in ms[..j];
    assert forall i :: 0 <= i < k ==> ms[..k][i] in ms[..k];
  }

  function ValidLength(ms: seq<Metric>): (k: nat)
    ensures k <= |ms|
  {
    if ms == [] || !Valid(ms[0]) then 0 else 1 + ValidLength(ms[1..])
  }

  lemma {:induction false} ValidLengthIsLongest(ms: seq<Metric>)
    ensures LongestValidPrefix(ms, ValidLength(ms))
    ensures ValidLength(ms) == |ms| <==> AllValid(ms)
    decreases |ms|
  {
    if ms != [] {
      assert ms[0] in ms && ms == [ms[0]] + ms[1..];
      if Valid(ms[0]) {
        ValidLengthIsLongest(ms[1..]);
        assert ms[..ValidLength(ms)] == [ms[0]] + ms[1..][..ValidLength(ms[1..])];
      }
    }
  }

  predicate NoComplaint(ms: seq<Metric>, k: nat)
    requires k <= |ms|
  {
    k == 0 || (NoComplaint(ms, k - 1) && Complaint(ms[k - 1]) == None)
  }

  lemma NoComplaintNext(ms: seq<Metric>, k: nat)
    requires k < |ms| && NoComplaint(ms, k) && Complaint(ms[k]) == None
    ensures NoComplaint(ms, k + 1)
  {
  }

  lemma {:induction false} NoComplaintMeansValid(ms: seq<Metric>, k: nat)
    requires k <= |ms| && NoComplaint(ms, k)
    ensures AllValid(ms[..k])
  {
    if k > 0 {
      NoComplaintMeansValid(ms, k - 1);
      assert ms[..k] == ms[..k - 1] + [ms[k - 1]];
    }
  }

  lemma PrefixFound(ms: seq<Metric>, k: nat)
    requires k <= |ms| && NoComplaint(ms, k)
    requires k < |ms| ==> Complaint(ms[k]).Some?
    ensures LongestValidPrefix(ms, k) && (AllValid(ms) <==> k == |ms|)
  {
    NoComplaintMeansValid(ms, k);
    assert k == |ms| ==> ms[..k] == ms;
    assert k < |ms| ==> ms[k] in ms;
  }

  // ---------- Over HTTP ----------

  function StatusOf(err: Option<ServiceError>): nat {
    match err
    case None => 200
    case Some(MetricNotFound) => 404
    case Some(Passed(_)) => 500
    case Some(_) => 400
  }

  /** What the handler answers to a batch. */
  function BatchStatus(batch: seq<Metric>): nat {
    var k := ValidLength(batch);
    StatusOf(if k < |batch| then Complaint(batch[k]) else None)
  }

  lemma AcceptedMeansValid(batch: seq<Metric>)
    ensures BatchStatus(batch) == if AllValid(batch) then 200 else 400
  {
    ValidLengthIsLongest(batch);
  }

  class MetricsService {
    const repo: MemStorage

    constructor (repo: MemStorage)
      ensures this.repo == repo
    {
      this.repo := repo;
    }

    method UpdateGauge(id: string, value: Float64) returns (err: Option<ServiceError>)
      modifies repo
      ensures id == "" ==> err == Some(InvalidMetricID) && repo.Contents() == old(repo.Contents())
      ensures id != "" ==> err == None && repo.Contents() == SetGauge(old(repo.Contents()), id, value)
    {
      if id == "" {
        return Some(InvalidMetricID);
      }
      repo.UpdateGauge(id, value);
      err := None;
    }

    /** The value handed back is the counter after this update. */
    method UpdateCounter(id: string, delta: Int64) returns (r: Result<Int64, ServiceError>)
      modifies repo
      ensures id == "" ==> r == Err(InvalidMetricID) && repo.Contents() == old(repo.Contents())
      ensures id != "" ==>
        && repo.Contents() == AddCounter(old(repo.Contents()), id, delta)
        && r == Ok(Wrap(CounterOr0(old(repo.Contents()), id) + delta))
    {
      if id == "" {
        return Err(InvalidMetricID);
      }
      repo.UpdateCounter(id, delta);
      var current := repo.GetCounter(id);
      match current
      case Ok(v) => r := Ok(v);
      case Err(e) => r := Err(Passed(e));
    }

    method GetGauge(id: string) returns (r: Result<Float64, ServiceError>)
      ensures r == if id == "" then Err(InvalidMetricID)
                   else if id in repo.gauges then Ok(repo.gauges[id]) else Err(MetricNotFound)
    {
      if id == "" {
        return Err(InvalidMetricID);
      }
      var v := repo.GetGauge(id);
      r := if v.Ok? then Ok(v.value) else Err(MetricNotFound);
    }

    method GetCounter(id: string) returns (r: Result<Int64, ServiceError>)
      ensures r == if id == "" then Err(InvalidMetricID)
                   else if id in repo.counters then Ok(repo.counters[id]) else Err(MetricNotFound)
    {
      if id == "" {
        return Err(InvalidMetricID);
      }
      var v := repo.GetCounter(id);
      r := if v.Ok? then Ok(v.value) else Err(MetricNotFound);
    }

    /** Applies exactly the longest valid prefix; what stopped it is the error. */
    method UpdateBatch(metrics: seq<Metric>) returns (err: Option<ServiceError>, applied: nat)
      modifies repo
      ensures LongestValidPrefix(metrics, applied)
      ensures repo.Contents() == Fold(old(repo.Contents()), metrics[..applied])
      ensures err == if applied < |metrics| then Complaint(metrics[applied]) else None
      ensures err == None <==> AllValid(metrics)
      ensures err == None ==> repo.Contents() == Fold(old(repo.Contents()), metrics)
    {
      applied := 0;
      while applied < |metrics|
        invariant applied <= |metrics|
        invariant AllValid(metrics[..applied])
        invariant repo.Contents() == Fold(old(repo.Contents()), metrics[..applied])
      {
        var m := metrics[applied];
        assert metrics[..applied + 1][..applied] == metrics[..applied];
        assert m in metrics;
        if m.id == "" {
          return Some(InvalidMetricID), applied;
        }
        if m.mtype == GAUGE {
          if m.value.None? {
            return Some(MissingValue), applied;
          }
          repo.UpdateGauge(m.id, m.value.value);
        } else if m.mtype == COUNTER {
          if m.delta.None? {
            return Some(MissingDelta), applied;
          }
          repo.UpdateCounter(m.id, m.delta.value);
        } else {
          return Some(InvalidMetricType), applied;
        }
        applied := applied + 1;
      }
      assert metrics[..applied] == metrics;
      err := None;
    }
  }

  /** The handler of POST /updates (internal/handler/handler.go); `body` is what the JSON decoder
      makes of the request's body. It answers 200 to exactly the batches that were applied in full. */
  method UpdateBatchJSON(svc: MetricsService, body: Option<seq<Metric>>) returns (status: nat)
    modifies svc.repo
    ensures body.None? ==> status == 400 && svc.repo.Contents() == old(svc.repo.Contents())
    ensures body.Some? ==>
      && status == BatchStatus(body.value)
      && svc.repo.Contents() == Fold(old(svc.repo.Contents()), body.value[..ValidLength(body.value)])
    ensures status == if body.Some? && AllValid(body.value) then 200 else 400
    ensures status == 200 ==> svc.repo.Contents() == Fold(old(svc.repo.Contents()), body.value)
  {
    if body.None? {
      return 400;
    }
    var batch := body.value;
    AcceptedMeansValid(batch);
    ValidLengthIsLongest(batch);
    if |batch| == 0 {
      return 200;
    }
    var err, applied := svc.UpdateBatch(batch);
    PrefixIsUnique(batch, applied, ValidLength(batch));
    status := StatusOf(err);
  }

  // ---------- The values UpdateCounter hands back to concurrent clients ----------

  /** What a read of the counter sees once the first n calls of the log are done. */
  function ReadAfter(st: State, log: seq<Call>, n: nat, id: string): Int64
    requires n <= |log|
  {
    CounterOr0(Fold(st, Items(log[..n])), id)
  }

  ghost predicate NonNegative(log: seq<Call>, id: string) {
    forall i :: 0 <= i < |log| ==> DeltaOf(log[i].item, id) >= 0
  }

  lemma {:induction false} SumsGrow(log: seq<Call>, n: nat, id: string)
    requires n <= |log| && NonNegative(log, id)
    ensures 0 <= DeltaSum(Items(log[..n]), id) <= DeltaSum(Items(log), id)
    decreases |log|
  {
    if n == |log| {
      assert log[..n] == log;
      if n > 0 {
        assert Items(log)[..n - 1] == Items(log[..n - 1]);
        SumsGrow(log[..n - 1], n - 1, id);
        assert log[..n - 1][..n - 1] == log[..n - 1];
      }
    } else {
      var front := log[..|log| - 1];
      assert Items(log)[..|log| - 1] == Items(front);
      assert front[..n] == log[..n];
      SumsGrow(front, n, id);
    }
  }

  lemma {:induction false} OwnShareCounts(log: seq<Call>, c: nat, id: string)
    requires NonNegative(log, id)
    ensures 0 <= DeltaSum(ItemsOf(log, c), id) <= DeltaSum(Items(log), id)
    decreases |log|
  {
    if log != [] {
      var front, call := log[..|log| - 1], log[|log| - 1];
      assert Items(log)[..|log| - 1] == Items(front);
      OwnShareCounts(front, c, id);
      DeltaSumConcat(ItemsOf(front, c), [call.item], id);
      assert DeltaSum([call.item], id) == DeltaSum([call.item][..0], id) + DeltaOf(call.item, id);
      if call.client != c {
        assert ItemsOf(log, c) == ItemsOf(front, c);
      }
    }
  }

  lemma ReadsAreExact(st: State, log: seq<Call>, n: nat, id: string)
    requires n <= |log| && NonNegative(log, id)
    requires InRange(CounterOr0(st, id) + DeltaSum(Items(log), id))
    ensures ReadAfter(st, log, n, id) == CounterOr0(st, id) + DeltaSum(Items(log[..n]), id)
  {
    FoldCounter(st, Items(log[..n]), id);
    SumsGrow(log, n, id);
    WrapInRange(CounterOr0(st, id) + DeltaSum(Items(log[..n]), id));
  }

  /** With non-negative deltas and no overflow, later reads of a counter are never
      smaller, and a read includes everything the reading client has added. */
  lemma ReturnedValuesNeverDecrease(st: State, log: seq<Call>, id: string, m: nat, n: nat, c: nat)
    requires m <= n <= |log| && NonNegative(log, id)
    requires InRange(CounterOr0(st, id) + DeltaSum(Items(log), id))
    ensures ReadAfter(st, log, m, id) <= ReadAfter(st, log, n, id)
    ensures ReadAfter(st, log, n, id) >= CounterOr0(st, id) + DeltaSum(ItemsOf(log[..n], c), id)
  {
    ReadsAreExact(st, log, m, id);
    ReadsAreExact(st, log, n, id);
    assert log[..n][..m] == log[..m];
    SumsGrow(log[..n], m, id);
    OwnShareCounts(log[..n], c, id);
  }
}
