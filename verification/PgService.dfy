/** The service in front of the database storage (internal/service/metrics_service.go over
    internal/repository/pgstorage.go), which drops the errors of its updates. */
module PgService {
  import opened Model
  import opened Storage
  import opened Service
  import opened Retry
  import opened PgStorage

  /** The service's own errors, and those of the database it passes on; NoRows stands for
      the storage's not-found errors. */
  datatype DbError = Refused(reason: ServiceError) | PassedOn(e: PgError)

  // ---------- What becomes of a batch ----------

  /** The table, and what has been executed on it so far. */
  datatype Progress = Progress(rows: Table, executed: seq<Metric>)

  function Next(p: Progress, m: Metric, script: Script): Progress {
    var r := Upserted(p.rows, m, script);
    Progress(r.rows, p.executed + Repeated([m], r.times))
  }

  /** After the first n items, item i under scripts(i). */
  function Handled(t: Table, ms: seq<Metric>, scripts: nat -> Script, n: nat): Progress
    requires n <= |ms|
  {
    if n == 0 then Progress(t, []) else Next(Handled(t, ms, scripts, n - 1), ms[n - 1], scripts(n - 1))
  }

  /** The table is the rows of the state the executed items lead to. */
  ghost predicate Follows(st: State, p: Progress) {
    p.rows == RowsOf(Fold(st, p.executed))
  }

  lemma NextFollows(st: State, p: Progress, m: Metric, script: Script)
    requires Follows(st, p)
    ensures Follows(st, Next(p, m, script))
  {
    var end := Upserted(p.rows, m, script);
    var times := end.times;
    UpsertedSimulates(Fold(st, p.executed), m, script, 0, end);
    ApplyTimesIsFold(Fold(st, p.executed), m, times);
    FoldConcat(st, p.executed, Repeated([m], times));
  }

  lemma HandledNext(t: Table, ms: seq<Metric>, scripts: nat -> Script, n: nat)
    requires 0 < n <= |ms|
    ensures Handled(t, ms, scripts, n) == Next(Handled(t, ms, scripts, n - 1), ms[n - 1], scripts(n - 1))
  {
  }

  lemma {:induction false} HandledFollows(st: State, ms: seq<Metric>, scripts: nat -> Script, n: nat, p: Progress)
    requires n <= |ms| && p == Handled(RowsOf(st), ms, scripts, n)
    ensures Follows(st, p)
  {
    if n > 0 {
      var before := Handled(RowsOf(st), ms, scripts, n - 1);
      HandledFollows(st, ms, scripts, n - 1, before);
      HandledNext(RowsOf(st), ms, scripts, n);
      NextFollows(st, before, ms[n - 1], scripts(n - 1));
    }
  }

  lemma ExecutedExactlyWhen(st: State, m: Metric, script: Script)
    requires Valid(m)
    ensures Landings(RowsOf(st), m, script) >= 1 <==> !Overflows(st, m) && GetsThrough(script)
  {
    LandsExactlyWhenThrough(RowsOf(st), m, script, 0);
    ExecSimulates(st, m);
  }

  /** Item i of a batch is executed exactly when it does not overflow the counter it then meets
      and some attempt gets through; how it ended is never looked at. */
  lemma ItemIsExecuted(st: State, ms: seq<Metric>, scripts: nat -> Script, i: nat)
    requires i < |ms| && Valid(ms[i])
    ensures var p := Handled(RowsOf(st), ms, scripts, i);
      && Follows(st, p)
      && (Landings(p.rows, ms[i], scripts(i)) >= 1 <==>
            !Overflows(Fold(st, p.executed), ms[i]) && GetsThrough(scripts(i)))
  {
    HandledFollows(st, ms, scripts, i, Handled(RowsOf(st), ms, scripts, i));
    ExecutedExactlyWhen(Fold(st, Handled(RowsOf(st), ms, scripts, i).executed), ms[i], scripts(i));
  }

  /** The storage is told only the field an item needs; it is the same statement. */
  lemma {:induction false} OnlyOneFieldCounts(t: Table, m: Metric, script: Script, i: nat)
    requires Valid(m) && i <= |SCHEDULE|
    ensures var n := if m.mtype == GAUGE then GaugeMetric(m.id, m.value.value) else CounterMetric(m.id, m.delta.value);
      Upserted(t, m, script, i) == Upserted(t, n, script, i)
    decreases |SCHEDULE| - i
  {
    if i < |SCHEDULE| {
      OnlyOneFieldCounts(UpsertOnce(t, m, script(i)).rows, m, script, i + 1);
    }
  }

  class DatabaseService {
    const repo: PostgresStorage

    constructor (repo: PostgresStorage)
      ensures this.repo == repo
    {
      this.repo := repo;
    }

    /** No error, whether the gauge was set or not. */
    method UpdateGauge(id: string, value: Float64, script: Script) returns (err: Option<ServiceError>)
      modifies repo
      ensures id == "" ==> err == Some(InvalidMetricID) && repo.rows == old(repo.rows)
      ensures id != "" ==>
        && err == None
        && repo.rows == if GetsThrough(script) then UpsertGauge(old(repo.rows), id, value) else old(repo.rows)
    {
      if id == "" {
        return Some(InvalidMetricID);
      }
      ghost var times := repo.UpdateGauge(id, value, script);
      err := None;
    }

    /** The value handed back is the counter as it is, whether or not this call added to it. */
    method UpdateCounter(id: string, delta: Int64, script: Script, answers: nat -> PgError)
      returns (r: Result<Int64, DbError>, ghost times: nat)
      requires forall i :: answers(i) != NoRows
      modifies repo
      ensures id == "" ==> r == Err(Refused(InvalidMetricID)) && times == 0
      ensures Committed(old(repo.rows), [CounterMetric(id, delta)], times) == Ok(repo.rows)
      ensures id != "" ==>
        && (times >= 1 <==> UpsertCounter(old(repo.rows), id, delta).Ok? && GetsThrough(script))
        && var k := Returned(answers, IsPGConnException, |SCHEDULE|);
           r == if answers(k) != Success then Err(PassedOn(answers(k)))
                else match CounterAnswer(repo.rows, id) case Ok(v) => Ok(v) case Err(e) => Err(PassedOn(e))
    {
      times := 0;
      if id == "" {
        return Err(Refused(InvalidMetricID)), times;
      }
      times := repo.UpdateCounter(id, delta, script);
      var current := repo.GetCounter(id, answers);
      match current
      case Ok(v) => r := Ok(v);
      case Err(e) => r := Err(PassedOn(e));
    }

    method GetGauge(id: string, answers: nat -> PgError) returns (r: Result<Float64, DbError>)
      requires forall i :: answers(i) != NoRows
      ensures id == "" ==> r == Err(Refused(InvalidMetricID))
      ensures var k := Returned(answers, IsPGConnException, |SCHEDULE|);
        id != "" ==>
          r == if answers(k) != Success then Err(PassedOn(answers(k)))
               else match GaugeAnswer(repo.rows, id) case Ok(v) => Ok(v) case Err(_) => Err(Refused(MetricNotFound))
    {
      if id == "" {
        return Err(Refused(InvalidMetricID));
      }
      var v := repo.GetGauge(id, answers);
      match v
      case Ok(x) => r := Ok(x);
      case Err(e) => r := Err(if e == NoRows then Refused(MetricNotFound) else PassedOn(e));
    }

    method GetCounter(id: string, answers: nat -> PgError) returns (r: Result<Int64, DbError>)
      requires forall i :: answers(i) != NoRows
      ensures id == "" ==> r == Err(Refused(InvalidMetricID))
      ensures var k := Returned(answers, IsPGConnException, |SCHEDULE|);
        id != "" ==>
          r == if answers(k) != Success then Err(PassedOn(answers(k)))
               else match CounterAnswer(repo.rows, id) case Ok(v) => Ok(v) case Err(_) => Err(Refused(MetricNotFound))
    {
      if id == "" {
        return Err(Refused(InvalidMetricID));
      }
      var v := repo.GetCounter(id, answers);
      match v
      case Ok(x) => r := Ok(x);
      case Err(e) => r := Err(if e == NoRows then Refused(MetricNotFound) else PassedOn(e));
    }

    /** Goes through the longest valid prefix whatever the database does with its items. */
    method UpdateBatch(metrics: seq<Metric>, scripts: nat -> Script) returns (err: Option<ServiceError>, applied: nat)
      modifies repo
      ensures LongestValidPrefix(metrics, applied)
      ensures err == if applied < |metrics| then Complaint(metrics[applied]) else None
      ensures err == None <==> AllValid(metrics)
      ensures repo.rows == Handled(old(repo.rows), metrics, scripts, applied).rows
    {
      err, applied := GoThrough(metrics, scripts);
      PrefixFound(metrics, applied);
    }

    /** One turn of the loop: check, then upsert. */
    method Handle(m: Metric, script: Script) returns (err: Option<ServiceError>)
      modifies repo
      ensures err == Complaint(m)
      ensures repo.rows == if err == None then Upserted(old(repo.rows), m, script).rows else old(repo.rows)
    {
      if m.id == "" {
        return Some(InvalidMetricID);
      }
      if m.mtype == GAUGE {
        if m.value.None? {
          return Some(MissingValue);
        }
        OnlyOneFieldCounts(repo.rows, m, script, 0);
        ghost var _ := repo.UpdateGauge(m.id, m.value.value, script);
      } else if m.mtype == COUNTER {
        if m.delta.None? {
          return Some(MissingDelta);
        }
        OnlyOneFieldCounts(repo.rows, m, script, 0);
        ghost var _ := repo.UpdateCounter(m.id, m.delta.value, script);
      } else {
        return Some(InvalidMetricType);
      }
      err := None;
    }

    /** The loop of UpdateBatch. */
    method GoThrough(metrics: seq<Metric>, scripts: nat -> Script) returns (err: Option<ServiceError>, applied: nat)
      modifies repo
      ensures applied <= |metrics| && NoComplaint(metrics, applied)
      ensures applied < |metrics| ==> Complaint(metrics[applied]).Some?
      ensures err == if applied < |metrics| then Complaint(metrics[applied]) else None
      ensures repo.rows == Handled(old(repo.rows), metrics, scripts, applied).rows
    {
      applied := 0;
      err := None;
      while applied < |metrics|
        invariant applied <= |metrics| && NoComplaint(metrics, applied) && err == None
        invariant repo.rows == Handled(old(repo.rows), metrics, scripts, applied).rows
      {
        err := Handle(metrics[applied], scripts(applied));
        if err.Some? {
          return err, applied;
        }
        NoComplaintNext(metrics, applied);
        applied := applied + 1;
      }
    }
  }
}
