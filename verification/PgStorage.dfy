/** The database storage: one table, upserts, transactions and retries
    (internal/repository/pgstorage.go, migrations/000001_init.up.sql). */
module PgStorage {
  import opened Model
  import opened Storage
  import opened Retry

  // ---------- The table ----------

  datatype Row = Row(value: Option<Float64>, delta: Option<Int64>)

  /** The primary key. */
  datatype Key = Key(id: string, mtype: string)
  type Table = map<Key, Row>

  type Failure = e: PgError | e != Success witness BadConn

  /** numeric_value_out_of_range, which BIGINT addition raises instead of wrapping. */
  const OVERFLOW: Failure := Pg("22003")

  lemma OverflowIsNotRetried()
    ensures !IsPGConnException(OVERFLOW)
  {
    var code := OVERFLOW.code;
    assert code[0] == '2' && |code| == 5;
    RetryableErrors(OVERFLOW);
    assert CANNOT_CONNECT_NOW[0] == '5';
  }

  function UpsertGauge(t: Table, id: string, v: Float64): Table {
    var k := Key(id, GAUGE);
    t[k := Row(Some(v), if k in t then t[k].delta else None)]
  }

  function UpsertCounter(t: Table, id: string, d: Int64): Result<Table, Failure> {
    var k := Key(id, COUNTER);
    if k !in t then Ok(t[k := Row(None, Some(d))])
    else
      var sum := (if t[k].delta.Some? then t[k].delta.value else 0) + d;
      if InRange(sum) then Ok(t[k := Row(t[k].value, Some(sum))]) else Err(OVERFLOW)
  }

  /** The statement, if any, that one batch item runs. */
  function Exec(t: Table, m: Metric): Result<Table, Failure> {
    if SetsGauge(m) then Ok(UpsertGauge(t, m.id, m.value.value))
    else if AddsCounter(m) then UpsertCounter(t, m.id, m.delta.value)
    else Ok(t)
  }

  function ExecAll(t: Table, ms: seq<Metric>): Result<Table, Failure> {
    if ms == [] then Ok(t)
    else
      var before := ExecAll(t, ms[..|ms| - 1]);
      if before.Ok? then Exec(before.value, ms[|ms| - 1]) else before
  }

  /** A whole batch committed n times over. */
  function Committed(t: Table, ms: seq<Metric>, n: nat): Result<Table, Failure> {
    if n == 0 then Ok(t)
    else
      var before := Committed(t, ms, n - 1);
      if before.Ok? then ExecAll(before.value, ms) else before
  }

  lemma ExecOne(t: Table, m: Metric)
    ensures ExecAll(t, [m]) == Exec(t, m)
  {
    assert [m][..0] == [];
    assert ExecAll(t, [m][..0]) == Ok(t);
  }

  lemma {:induction false} FailureStays(t: Table, ms: seq<Metric>, n: nat)
    requires n <= |ms| && ExecAll(t, ms[..n]).Err?
    ensures ExecAll(t, ms) == ExecAll(t, ms[..n])
    decreases |ms|
  {
    if n == |ms| {
      assert ms[..n] == ms;
    } else {
      assert ms[..|ms| - 1][..n] == ms[..n];
      FailureStays(t, ms[..|ms| - 1], n);
    }
  }

  // ---------- Refinement of the in-memory storage ----------

  ghost function KeysFor(ids: set<string>, mtype: string): (keys: set<Key>)
    ensures forall k {:trigger k in keys} :: k in keys <==> k.mtype == mtype && k.id in ids
    decreases |ids|
  {
    if ids == {} then {}
    else
      var id :| id in ids;
      KeysFor(ids - {id}, mtype) + {Key(id, mtype)}
  }

  /** The rows that stand for a state: gauge rows have a value, counter rows a delta, and nothing else. */
  ghost function RowsOf(st: State): Table {
    map k | k in KeysFor(st.gauges.Keys, GAUGE) + KeysFor(st.counters.Keys, COUNTER) ::
      if k.mtype == GAUGE then Row(Some(st.gauges[k.id]), None) else Row(None, Some(st.counters[k.id]))
  }

  lemma RowLookup(st: State, id: string)
    ensures Key(id, GAUGE) in RowsOf(st) <==> id in st.gauges
    ensures id in st.gauges ==> RowsOf(st)[Key(id, GAUGE)] == Row(Some(st.gauges[id]), None)
    ensures Key(id, COUNTER) in RowsOf(st) <==> id in st.counters
    ensures id in st.counters ==> RowsOf(st)[Key(id, COUNTER)] == Row(None, Some(st.counters[id]))
  {
  }

  /** No two states have the same rows. */
  lemma RowsDetermine(st: State, st': State)
    requires RowsOf(st) == RowsOf(st')
    ensures st == st'
  {
    forall id: string
      ensures id in st.gauges <==> id in st'.gauges
      ensures id in st.gauges ==> st.gauges[id] == st'.gauges[id]
      ensures id in st.counters <==> id in st'.counters
      ensures id in st.counters ==> st.counters[id] == st'.counters[id]
    {
      RowLookup(st, id);
      RowLookup(st', id);
    }
    assert st.gauges == st'.gauges && st.counters == st'.counters;
  }

  lemma RowsOfSetGauge(st: State, id: string, v: Float64)
    ensures RowsOf(SetGauge(st, id, v)) == UpsertGauge(RowsOf(st), id, v)
  {
    RowLookup(st, id);
  }

  lemma RowsOfAddCounter(st: State, id: string, d: Int64)
    requires InRange(CounterOr0(st, id) + d)
    ensures UpsertCounter(RowsOf(st), id, d) == Ok(RowsOf(AddCounter(st, id, d)))
  {
    RowLookup(st, id);
    WrapInRange(CounterOr0(st, id) + d);
    var t := RowsOf(AddCounter(st, id, d));
    assert t == RowsOf(st)[Key(id, COUNTER) := Row(None, Some(CounterOr0(st, id) + d))];
  }

  predicate Overflows(st: State, m: Metric) {
    AddsCounter(m) && !InRange(CounterOr0(st, m.id) + m.delta.value)
  }

  ghost predicate NoOverflow(st: State, ms: seq<Metric>) {
    forall k :: 0 <= k < |ms| ==> !Overflows(Fold(st, ms[..k]), ms[k])
  }

  lemma ExecSimulates(st: State, m: Metric)
    ensures Exec(RowsOf(st), m) == if Overflows(st, m) then Err(OVERFLOW) else Ok(RowsOf(Apply(st, m)))
  {
    if SetsGauge(m) {
      RowsOfSetGauge(st, m.id, m.value.value);
    } else if AddsCounter(m) {
      RowLookup(st, m.id);
      if !Overflows(st, m) {
        RowsOfAddCounter(st, m.id, m.delta.value);
      }
    }
  }

  lemma NoOverflowSnoc(st: State, front: seq<Metric>, m: Metric)
    ensures NoOverflow(st, front + [m]) <==> NoOverflow(st, front) && !Overflows(Fold(st, front), m)
  {
    var ms := front + [m];
    assert ms[..|front|] == front;
    assert forall k :: 0 <= k < |front| ==> front[..k] == ms[..k] && front[k] == ms[k];
    if NoOverflow(st, ms) {
      assert !Overflows(Fold(st, ms[..|front|]), ms[|front|]);
    }
  }

  /** A batch run on the rows of a state gives the rows of what the in-memory storage would
      hold, exactly when no int64 sum on the way overflows; otherwise it is refused. */
  lemma {:induction false} BatchSimulates(st: State, ms: seq<Metric>)
    ensures ExecAll(RowsOf(st), ms) == if NoOverflow(st, ms) then Ok(RowsOf(Fold(st, ms))) else Err(OVERFLOW)
    decreases |ms|
  {
    if ms != [] {
      var front, m := ms[..|ms| - 1], ms[|ms| - 1];
      assert ms == front + [m];
      BatchSimulates(st, front);
      NoOverflowSnoc(st, front, m);
      if NoOverflow(st, front) {
        ExecSimulates(Fold(st, front), m);
      }
    }
  }

  lemma {:induction false} ExecAllConcat(t: Table, a: seq<Metric>, b: seq<Metric>)
    ensures ExecAll(t, a + b) == if ExecAll(t, a).Ok? then ExecAll(ExecAll(t, a).value, b) else ExecAll(t, a)
    decreases |b|
  {
    if b == [] {
      assert a + b == a;
    } else {
      assert (a + b)[..|a + b| - 1] == a + b[..|b| - 1];
      ExecAllConcat(t, a, b[..|b| - 1]);
    }
  }

  lemma {:induction false} CommittedIsRepeated(t: Table, ms: seq<Metric>, n: nat)
    ensures Committed(t, ms, n) == ExecAll(t, Repeated(ms, n))
  {
    if n > 0 {
      CommittedIsRepeated(t, ms, n - 1);
      ExecAllConcat(t, Repeated(ms, n - 1), ms);
    }
  }

  /** Rows after n commits of one batch are the rows of the in-memory storage after n batches. */
  lemma CommitsSimulate(st: State, ms: seq<Metric>, n: nat)
    ensures Committed(RowsOf(st), ms, n)
         == if NoOverflow(st, Repeated(ms, n)) then Ok(RowsOf(Fold(st, Repeated(ms, n)))) else Err(OVERFLOW)
  {
    CommittedIsRepeated(RowsOf(st), ms, n);
    BatchSimulates(st, Repeated(ms, n));
  }

  // ---------- Writing ----------

  /** What goes wrong, if anything, in one transaction. The driver cannot tell a commit
      that failed from one that landed before the connection broke. */
  datatype Trouble =
    | Calm
    | BeginFails(e: Failure)
    | PrepareFails(e: Failure)
    | ExecFails(at: nat, e: Failure)
    | CommitFails(e: Failure, landed: bool)

  /** What the attempt to i-th is met with, for each i. */
  type Script = nat -> Trouble

  ghost predicate NoPhantomCommit(script: Script) {
    forall i :: !(script(i).CommitFails? && script(i).landed)
  }

  predicate Runs(m: Metric) {
    SetsGauge(m) || AddsCounter(m)
  }

  /** The trouble comes before the commit, and before a statement overflows. */
  predicate BreaksOff(t: Table, ms: seq<Metric>, trouble: Trouble) {
    || trouble.BeginFails?
    || trouble.PrepareFails?
    || (trouble.ExecFails? && trouble.at < |ms| && Runs(ms[trouble.at]) && ExecAll(t, ms[..trouble.at]).Ok?)
  }

  /** How an update ends; `times` says how many of its transactions took effect. */
  datatype Ended = Ended(rows: Table, err: PgError, times: nat)

  function Attempt(t: Table, ms: seq<Metric>, trouble: Trouble): Ended {
    if BreaksOff(t, ms, trouble) then Ended(t, trouble.e, 0)
    else
      match ExecAll(t, ms)
      case Err(e) => Ended(t, e, 0)
      case Ok(t') =>
        if !trouble.CommitFails? then Ended(t', Success, 1)
        else if trouble.landed then Ended(t', trouble.e, 1)
        else Ended(t, trouble.e, 0)
  }

  /** A statement that overflows ends the transaction before any later trouble. */
  lemma OverflowEnds(t: Table, ms: seq<Metric>, trouble: Trouble, n: nat)
    requires n <= |ms| && ExecAll(t, ms[..n]).Err? && !trouble.BeginFails? && !trouble.PrepareFails?
    requires trouble.ExecFails? ==> n <= trouble.at || !Runs(ms[trouble.at])
    ensures Attempt(t, ms, trouble) == Ended(t, ExecAll(t, ms[..n]).error, 0)
  {
    FailureStays(t, ms, n);
    if trouble.ExecFails? && n <= trouble.at < |ms| {
      assert ms[..trouble.at][..n] == ms[..n];
      FailureStays(t, ms[..trouble.at], n);
    }
  }

  function Sum(earlier: nat, later: Ended): Ended {
    later.(times := earlier + later.times)
  }

  /** Attempts i, i + 1, ... under retryPG. */
  function Retried(t: Table, ms: seq<Metric>, script: Script, i: nat := 0): Ended
    requires i <= |SCHEDULE|
    decreases |SCHEDULE| - i
  {
    var now := Attempt(t, ms, script(i));
    if IsPGConnException(now.err) && i < |SCHEDULE| then
      Sum(now.times, Retried(now.rows, ms, script, i + 1))
    else now
  }

  lemma {:induction false} CommittedFirst(t: Table, ms: seq<Metric>, n: nat)
    requires ExecAll(t, ms).Ok?
    ensures Committed(t, ms, n + 1) == Committed(ExecAll(t, ms).value, ms, n)
  {
    if n == 0 {
      assert Committed(t, ms, 0) == Ok(t);
    } else {
      CommittedFirst(t, ms, n - 1);
    }
  }

  lemma {:induction false} RetriedTimes(t: Table, ms: seq<Metric>, script: Script, i: nat)
    requires i <= |SCHEDULE|
    ensures var r := Retried(t, ms, script, i);
      && r.times <= |SCHEDULE| + 1 - i
      && (r.err == Success ==> r.times >= 1)
      && (NoPhantomCommit(script) ==> r.times == if r.err == Success then 1 else 0)
    decreases |SCHEDULE| - i
  {
    var now := Attempt(t, ms, script(i));
    if IsPGConnException(now.err) && i < |SCHEDULE| {
      RetriedTimes(now.rows, ms, script, i + 1);
    }
  }

  lemma AttemptIsCommitted(t: Table, ms: seq<Metric>, x: Trouble)
    ensures var now := Attempt(t, ms, x);
      && now.times <= 1
      && (now.times == 0 ==> now.rows == t)
      && (now.times == 1 ==> ExecAll(t, ms) == Ok(now.rows))
  {
  }

  lemma CommitsAddUp(t: Table, ms: seq<Metric>, now: Ended, later: Ended)
    requires (now.times == 0 && now.rows == t) || (now.times == 1 && ExecAll(t, ms) == Ok(now.rows))
    requires Committed(now.rows, ms, later.times) == Ok(later.rows)
    ensures Committed(t, ms, now.times + later.times) == Ok(later.rows)
  {
    if now.times == 1 {
      CommittedFirst(t, ms, later.times);
    }
  }

  /** However the attempts go, their outcome is the batch committed some number of times. */
  lemma {:induction false} RetriedIsCommitted(t: Table, ms: seq<Metric>, script: Script, i: nat, end: Ended)
    requires i <= |SCHEDULE| && end == Retried(t, ms, script, i)
    ensures Committed(t, ms, end.times) == Ok(end.rows)
    decreases |SCHEDULE| - i
  {
    var now := Attempt(t, ms, script(i));
    AttemptIsCommitted(t, ms, script(i));
    if IsPGConnException(now.err) && i < |SCHEDULE| {
      var later := Retried(now.rows, ms, script, i + 1);
      RetriedIsCommitted(now.rows, ms, script, i + 1, later);
      CommitsAddUp(t, ms, now, later);
    } else {
      CommitsAddUp(t, ms, now, Ended(now.rows, now.err, 0));
    }
  }

  /** The trouble keeps a batch from taking effect. */
  predicate StrikesBatch(ms: seq<Metric>, x: Trouble) {
    || x.BeginFails? || x.PrepareFails?
    || (x.ExecFails? && x.at < |ms| && Runs(ms[x.at]))
    || (x.CommitFails? && !x.landed)
  }

  /** Attempt j is reached, counting from i: all before it are struck and retried. */
  ghost predicate ReachedBy(ms: seq<Metric>, script: Script, i: nat, j: nat) {
    i <= j <= |SCHEDULE| && forall k :: i <= k < j ==> StrikesBatch(ms, script(k)) && IsPGConnException(script(k).e)
  }

  lemma StruckAttempt(t: Table, ms: seq<Metric>, x: Trouble)
    requires ExecAll(t, ms).Ok?
    ensures Attempt(t, ms, x) ==
      if StrikesBatch(ms, x) then Ended(t, x.e, 0)
      else Ended(ExecAll(t, ms).value, if x.CommitFails? then x.e else Success, 1)
  {
    if x.ExecFails? && x.at < |ms| && ExecAll(t, ms[..x.at]).Err? {
      FailureStays(t, ms, x.at);
    }
  }

  lemma {:induction false} OverflowNeverLands(t: Table, ms: seq<Metric>, script: Script, i: nat)
    requires ExecAll(t, ms).Err? && i <= |SCHEDULE|
    ensures Retried(t, ms, script, i).times == 0
    decreases |SCHEDULE| - i
  {
    if i < |SCHEDULE| {
      OverflowNeverLands(t, ms, script, i + 1);
    }
  }

  /** A batch takes effect at all exactly when no sum overflows and some attempt that is reached
      is not struck: every retryable failure is followed by another attempt, up to the fourth. */
  lemma {:induction false} BatchLandsExactlyWhenThrough(t: Table, ms: seq<Metric>, script: Script, i: nat)
    requires i <= |SCHEDULE|
    ensures Retried(t, ms, script, i).times >= 1 <==>
      ExecAll(t, ms).Ok? && exists j :: ReachedBy(ms, script, i, j) && !StrikesBatch(ms, script(j))
    decreases |SCHEDULE| - i
  {
    if ExecAll(t, ms).Err? {
      OverflowNeverLands(t, ms, script, i);
    } else {
      StruckAttempt(t, ms, script(i));
      if !StrikesBatch(ms, script(i)) {
        assert ReachedBy(ms, script, i, i);
      } else if IsPGConnException(script(i).e) && i < |SCHEDULE| {
        BatchLandsExactlyWhenThrough(t, ms, script, i + 1);
        forall j | ReachedBy(ms, script, i, j) && !StrikesBatch(ms, script(j))
          ensures ReachedBy(ms, script, i + 1, j)
        {
          assert j != i;
        }
        forall j | ReachedBy(ms, script, i + 1, j)
          ensures ReachedBy(ms, script, i, j)
        {
        }
      }
    }
  }

  // ---------- A single upsert, whose error the storage drops ----------

  /** The trouble keeps a lone upsert from taking effect. */
  predicate Strikes(x: Trouble) {
    x.BeginFails? || x.PrepareFails? || (x.ExecFails? && x.at == 0) || (x.CommitFails? && !x.landed)
  }

  function UpsertOnce(t: Table, m: Metric, x: Trouble): Ended {
    match Exec(t, m)
    case Err(e) => Ended(t, if Strikes(x) && !x.CommitFails? then x.e else e, 0)
    case Ok(t') => if Strikes(x) then Ended(t, x.e, 0) else Ended(t', if x.CommitFails? then x.e else Success, 1)
  }

  /** Attempts i, i + 1, ... of one upsert under retryPG. */
  function Upserted(t: Table, m: Metric, script: Script, i: nat := 0): Ended
    requires i <= |SCHEDULE|
    decreases |SCHEDULE| - i
  {
    var now := UpsertOnce(t, m, script(i));
    if IsPGConnException(now.err) && i < |SCHEDULE| then
      Sum(now.times, Upserted(now.rows, m, script, i + 1))
    else now
  }

  lemma UpsertIsTransaction(t: Table, m: Metric, x: Trouble)
    requires Runs(m)
    ensures Attempt(t, [m], x) == UpsertOnce(t, m, x)
  {
    ExecOne(t, m);
    assert [m][..0] == [];
    assert ExecAll(t, [m][..0]) == Ok(t);
  }

  /** A lone upsert ends as a transaction of one statement would. */
  lemma {:induction false} UpsertedIsRetried(t: Table, m: Metric, script: Script, i: nat)
    requires Runs(m) && i <= |SCHEDULE|
    ensures Retried(t, [m], script, i) == Upserted(t, m, script, i)
    decreases |SCHEDULE| - i
  {
    UpsertIsTransaction(t, m, script(i));
    if i < |SCHEDULE| {
      UpsertedIsRetried(UpsertOnce(t, m, script(i)).rows, m, script, i + 1);
    }
  }

  /** How many times an upsert is executed. */
  function Landings(t: Table, m: Metric, script: Script): nat {
    Upserted(t, m, script).times
  }

  lemma UpsertOnceSimulates(st: State, m: Metric, x: Trouble)
    ensures var now := UpsertOnce(RowsOf(st), m, x);
      now.rows == RowsOf(if now.times == 0 then st else Apply(st, m)) && now.times <= 1
  {
    ExecSimulates(st, m);
  }

  function ApplyTimes(st: State, m: Metric, n: nat): State
    decreases n
  {
    if n == 0 then st else ApplyTimes(Apply(st, m), m, n - 1)
  }

  lemma {:induction false} ApplyTimesIsFold(st: State, m: Metric, n: nat)
    ensures Fold(st, Repeated([m], n)) == ApplyTimes(st, m, n)
    decreases n
  {
    if n > 0 {
      RepeatedFirst([m], n - 1);
      FoldConcat(st, [m], Repeated([m], n - 1));
      FoldOne(st, m);
      ApplyTimesIsFold(Apply(st, m), m, n - 1);
    }
  }

  lemma ApplyTimesAddsUp(st: State, m: Metric, k: nat, n: nat)
    requires k <= 1
    ensures ApplyTimes(if k == 0 then st else Apply(st, m), m, n) == ApplyTimes(st, m, k + n)
  {
  }

  /** Upserting leaves the rows of what the in-memory storage holds after as many updates. */
  lemma {:induction false} UpsertedSimulates(st: State, m: Metric, script: Script, i: nat, end: Ended)
    requires i <= |SCHEDULE| && end == Upserted(RowsOf(st), m, script, i)
    ensures end.rows == RowsOf(ApplyTimes(st, m, end.times))
    decreases |SCHEDULE| - i
  {
    var now := UpsertOnce(RowsOf(st), m, script(i));
    UpsertOnceSimulates(st, m, script(i));
    var st' := if now.times == 0 then st else Apply(st, m);
    if IsPGConnException(now.err) && i < |SCHEDULE| {
      var later := Upserted(RowsOf(st'), m, script, i + 1);
      UpsertedSimulates(st', m, script, i + 1, later);
      ApplyTimesAddsUp(st, m, now.times, later.times);
    } else {
      ApplyTimesAddsUp(st, m, now.times, 0);
    }
  }

  lemma {:induction false} LandingsBound(t: Table, m: Metric, script: Script, i: nat)
    requires i <= |SCHEDULE|
    ensures Upserted(t, m, script, i).times <= |SCHEDULE| + 1 - i
    decreases |SCHEDULE| - i
  {
    if i < |SCHEDULE| {
      LandingsBound(UpsertOnce(t, m, script(i)).rows, m, script, i + 1);
    }
  }

  lemma {:induction false} SameGaugeAgain(t: Table, m: Metric, script: Script, i: nat)
    requires SetsGauge(m) && i <= |SCHEDULE|
    ensures var r := Upserted(t, m, script, i);
      r.rows == if r.times == 0 then t else UpsertGauge(t, m.id, m.value.value)
    decreases |SCHEDULE| - i
  {
    var once := UpsertGauge(t, m.id, m.value.value);
    assert UpsertGauge(once, m.id, m.value.value) == once;
    var now := UpsertOnce(t, m, script(i));
    if IsPGConnException(now.err) && i < |SCHEDULE| {
      SameGaugeAgain(now.rows, m, script, i + 1);
    }
  }

  /** Some attempt from i on is not struck, and all before it are retried. */
  predicate GetsThrough(script: Script, i: nat := 0)
    requires i <= |SCHEDULE|
    decreases |SCHEDULE| - i
  {
    !Strikes(script(i)) || (IsPGConnException(script(i).e) && i < |SCHEDULE| && GetsThrough(script, i + 1))
  }

  /** An upsert is executed at all exactly when it does not overflow and some attempt gets through. */
  lemma {:induction false} LandsExactlyWhenThrough(t: Table, m: Metric, script: Script, i: nat)
    requires Runs(m) && i <= |SCHEDULE|
    ensures Upserted(t, m, script, i).times >= 1 <==> Exec(t, m).Ok? && GetsThrough(script, i)
    decreases |SCHEDULE| - i
  {
    OverflowIsNotRetried();
    if Strikes(script(i)) && IsPGConnException(script(i).e) && i < |SCHEDULE| {
      LandsExactlyWhenThrough(t, m, script, i + 1);
    }
  }

  /** A commit that lands, fails, and is tried again. */
  predicate Doubles(x: Trouble) {
    x.CommitFails? && x.landed && IsPGConnException(x.e)
  }

  lemma {:induction false} LandsOnceUnlessDoubled(t: Table, m: Metric, script: Script, i: nat)
    requires Runs(m) && i <= |SCHEDULE| && forall j :: !Doubles(script(j))
    ensures Upserted(t, m, script, i).times <= 1
    decreases |SCHEDULE| - i
  {
    OverflowIsNotRetried();
    if Strikes(script(i)) && IsPGConnException(script(i).e) && i < |SCHEDULE| {
      LandsOnceUnlessDoubled(t, m, script, i + 1);
    }
  }

  lemma {:induction false} FewerCommits(t: Table, ms: seq<Metric>, n: nat)
    requires n > 0 && Committed(t, ms, n).Ok?
    ensures ExecAll(t, ms).Ok? && Committed(ExecAll(t, ms).value, ms, n - 1).Ok?
  {
    if n == 1 {
      assert Committed(t, ms, 0) == Ok(t);
    } else {
      FewerCommits(t, ms, n - 1);
      CommittedFirst(t, ms, n - 1);
    }
  }

  /** With every answer lost, an upsert is executed at every attempt. */
  lemma {:induction false} AlwaysDoubled(t: Table, m: Metric, script: Script, i: nat)
    requires i <= |SCHEDULE| && Committed(t, [m], |SCHEDULE| + 1 - i).Ok? && forall j :: Doubles(script(j))
    ensures Upserted(t, m, script, i).times == |SCHEDULE| + 1 - i
    decreases |SCHEDULE| - i
  {
    FewerCommits(t, [m], |SCHEDULE| + 1 - i);
    ExecOne(t, m);
    if i < |SCHEDULE| {
      AlwaysDoubled(Exec(t, m).value, m, script, i + 1);
    }
  }

  lemma {:induction false} GaugesCommit(t: Table, m: Metric, n: nat)
    requires SetsGauge(m)
    ensures Committed(t, [m], n).Ok?
  {
    if n > 0 {
      GaugesCommit(t, m, n - 1);
      ExecOne(Committed(t, [m], n - 1).value, m);
    }
  }

  /** The database shows no trouble but what `may` allows. */
  ghost predicate OnlyShows(script: Script, may: Trouble -> bool) {
    forall j :: may(script(j))
  }

  ghost predicate NeverTwice(may: Trouble -> bool) {
    forall t, m, script: Script :: Runs(m) && OnlyShows(script, may) ==> Landings(t, m, script) <= 1
  }

  ghost predicate NeverLost(may: Trouble -> bool) {
    forall t, m, script: Script :: Runs(m) && OnlyShows(script, may) && Exec(t, m).Ok? ==> Landings(t, m, script) >= 1
  }

  /** No upsert is ever executed twice exactly when a database cannot land a commit, report
      it with an error that is retried ... */
  lemma NeverTwiceExactly(may: Trouble -> bool)
    ensures NeverTwice(may) <==> forall x :: may(x) ==> !Doubles(x)
  {
    if forall x :: may(x) ==> !Doubles(x) {
      forall t, m, script: Script | Runs(m) && OnlyShows(script, may)
        ensures Landings(t, m, script) <= 1
      {
        LandsOnceUnlessDoubled(t, m, script, 0);
      }
    } else {
      var x :| may(x) && Doubles(x);
      var m := GaugeMetric("g", ZERO);
      var script: Script := j => x;
      GaugesCommit(map[], m, |SCHEDULE| + 1);
      AlwaysDoubled(map[], m, script, 0);
      assert OnlyShows(script, may) && Landings(map[], m, script) == |SCHEDULE| + 1;
    }
  }

  lemma {:induction false} AlwaysStruck(t: Table, m: Metric, script: Script, i: nat)
    requires i <= |SCHEDULE| && forall j :: Strikes(script(j))
    ensures Upserted(t, m, script, i).times == 0
    decreases |SCHEDULE| - i
  {
    if i < |SCHEDULE| {
      AlwaysStruck(UpsertOnce(t, m, script(i)).rows, m, script, i + 1);
    }
  }

  /** ... and no upsert is ever lost, but for overflow, exactly when no trouble can strike it. */
  lemma NeverLostExactly(may: Trouble -> bool)
    ensures NeverLost(may) <==> forall x :: may(x) ==> !Strikes(x)
  {
    if forall x :: may(x) ==> !Strikes(x) {
      forall t, m, script: Script | Runs(m) && OnlyShows(script, may) && Exec(t, m).Ok?
        ensures Landings(t, m, script) >= 1
      {
        LandsExactlyWhenThrough(t, m, script, 0);
      }
    } else {
      var x :| may(x) && Strikes(x);
      var m := GaugeMetric("g", ZERO);
      var script: Script := j => x;
      AlwaysStruck(map[], m, script, 0);
      assert OnlyShows(script, may) && Landings(map[], m, script) == 0;
    }
  }

  lemma ApplyIsExact(st: State, m: Metric, id: string)
    requires !Overflows(st, m)
    ensures CounterOr0(Apply(st, m), id) == CounterOr0(st, id) + DeltaOf(m, id)
  {
    if AddsCounter(m) {
      WrapInRange(CounterOr0(st, m.id) + m.delta.value);
    }
  }

  lemma {:induction false} NoOverflowIsExact(st: State, log: seq<Metric>, id: string)
    requires NoOverflow(st, log)
    ensures CounterOr0(Fold(st, log), id) == CounterOr0(st, id) + DeltaSum(log, id)
    decreases |log|
  {
    if log != [] {
      var front, m := log[..|log| - 1], log[|log| - 1];
      assert log == front + [m];
      NoOverflowSnoc(st, front, m);
      NoOverflowIsExact(st, front, id);
      ApplyIsExact(Fold(st, front), m, id);
    }
  }

  // ---------- Any sequence of calls ----------

  function Batch(t: Table, ms: seq<Metric>, script: Script): Ended {
    if ms == [] then Ended(t, Success, 1) else Retried(t, ms, script)
  }

  /** A call of UpdateBatch, or of UpdateGauge or UpdateCounter with its one item. */
  datatype Update = Update(items: seq<Metric>, script: Script)

  function After(t: Table, ups: seq<Update>): Table {
    if ups == [] then t
    else
      var last := ups[|ups| - 1];
      Batch(After(t, ups[..|ups| - 1]), last.items, last.script).rows
  }

  /** What the database has executed for good, in order. */
  function Executed(t: Table, ups: seq<Update>): seq<Metric> {
    if ups == [] then []
    else
      var last := ups[|ups| - 1];
      Executed(t, ups[..|ups| - 1])
        + Repeated(last.items, Batch(After(t, ups[..|ups| - 1]), last.items, last.script).times)
  }

  function Asked(ups: seq<Update>): seq<Metric> {
    if ups == [] then [] else Asked(ups[..|ups| - 1]) + ups[|ups| - 1].items
  }

  lemma {:induction false} NothingRepeated(n: nat)
    ensures Repeated([], n) == []
  {
    if n > 0 {
      NothingRepeated(n - 1);
    }
  }

  /** A committed batch leaves the rows of what the in-memory storage would hold. */
  lemma BatchEnds(st: State, ms: seq<Metric>, script: Script)
    ensures var r := Batch(RowsOf(st), ms, script);
      && r.rows == RowsOf(Fold(st, Repeated(ms, r.times)))
      && r.times <= |SCHEDULE| + 1
      && (r.err == Success ==> r.times >= 1)
      && (NoPhantomCommit(script) ==> r.times == if r.err == Success then 1 else 0)
  {
    if ms == [] {
      NothingRepeated(1);
    } else {
      RetriedTimes(RowsOf(st), ms, script, 0);
      RetriedIsCommitted(RowsOf(st), ms, script, 0, Retried(RowsOf(st), ms, script));
      CommitsSimulate(st, ms, Retried(RowsOf(st), ms, script).times);
    }
  }

  lemma CalmBatch(st: State, ms: seq<Metric>, script: Script)
    requires script(0).Calm?
    ensures Batch(RowsOf(st), ms, script) ==
      if NoOverflow(st, ms) then Ended(RowsOf(Fold(st, ms)), Success, 1) else Ended(RowsOf(st), OVERFLOW, 0)
  {
    BatchSimulates(st, ms);
    OverflowIsNotRetried();
    if ms == [] {
      assert NoOverflow(st, ms);
    } else {
      assert !BreaksOff(RowsOf(st), ms, script(0));
      assert !IsPGConnException(Attempt(RowsOf(st), ms, script(0)).err);
    }
  }

  /** After any sequence of calls, in whatever trouble, the table is the rows of the state the
      in-memory storage reaches by what was executed. */
  lemma {:induction false} SequenceSimulates(st: State, ups: seq<Update>)
    ensures After(RowsOf(st), ups) == RowsOf(Fold(st, Executed(RowsOf(st), ups)))
    decreases |ups|
  {
    if ups != [] {
      var front, last := ups[..|ups| - 1], ups[|ups| - 1];
      SequenceSimulates(st, front);
      var mid := Fold(st, Executed(RowsOf(st), front));
      BatchEnds(mid, last.items, last.script);
      FoldConcat(st, Executed(RowsOf(st), front),
                 Repeated(last.items, Batch(RowsOf(mid), last.items, last.script).times));
    }
  }

  ghost predicate AllCalm(ups: seq<Update>) {
    forall i :: 0 <= i < |ups| ==> ups[i].script(0).Calm?
  }

  lemma {:induction false} NoOverflowConcat(st: State, a: seq<Metric>, b: seq<Metric>)
    ensures NoOverflow(st, a + b) <==> NoOverflow(st, a) && NoOverflow(Fold(st, a), b)
    decreases |b|
  {
    if b == [] {
      assert a + b == a;
    } else {
      var front, m := b[..|b| - 1], b[|b| - 1];
      assert a + b == (a + front) + [m] && b == front + [m];
      NoOverflowConcat(st, a, front);
      NoOverflowSnoc(st, a + front, m);
      NoOverflowSnoc(Fold(st, a), front, m);
      FoldConcat(st, a, front);
    }
  }

  /** Without trouble and without overflow the database executes exactly what it is asked to. */
  lemma {:induction false} CalmSequenceSimulates(st: State, ups: seq<Update>)
    requires AllCalm(ups) && NoOverflow(st, Asked(ups))
    ensures After(RowsOf(st), ups) == RowsOf(Fold(st, Asked(ups)))
    decreases |ups|
  {
    if ups != [] {
      var front, last := ups[..|ups| - 1], ups[|ups| - 1];
      NoOverflowConcat(st, Asked(front), last.items);
      FoldConcat(st, Asked(front), last.items);
      CalmSequenceSimulates(st, front);
      CalmBatch(Fold(st, Asked(front)), last.items, last.script);
    }
  }

  // ---------- Reading everything ----------

  function RowMetric(t: Table, k: Key): Metric
    requires k in t
  {
    Metric(k.id, k.mtype, t[k].delta, t[k].value, "")
  }

  /** The map filled from the rows in the order the database sends them. */
  function Scan(t: Table, order: seq<Key>): map<string, Metric>
    requires forall k :: k in order ==> k in t
  {
    if order == [] then map[]
    else
      var k := order[|order| - 1];
      Scan(t, order[..|order| - 1])[k.id := RowMetric(t, k)]
  }

  ghost predicate Lists(order: seq<Key>, t: Table) {
    forall k :: k in order <==> k in t
  }

  lemma {:induction false} ScanKeepsDistinct(t: Table, order: seq<Key>)
    requires forall k :: k in order ==> k in t
    requires forall j, k :: j in order && k in order && j.id == k.id ==> j == k
    ensures forall id :: id in Scan(t, order) <==> exists k :: k in order && k.id == id
    ensures forall k :: k in order ==> Scan(t, order)[k.id] == RowMetric(t, k)
    decreases |order|
  {
    if order != [] {
      var front, last := order[..|order| - 1], order[|order| - 1];
      assert order == front + [last];
      ScanKeepsDistinct(t, front);
    }
  }

  lemma {:induction false} SomeOrder(keys: set<Key>) returns (order: seq<Key>)
    ensures forall k :: k in order <==> k in keys
    decreases |keys|
  {
    order := [];
    if keys != {} {
      var k :| k in keys;
      var rest := SomeOrder(keys - {k});
      order := rest + [k];
    }
  }

  ghost predicate EveryScanAgrees(st: State) {
    forall order :: Lists(order, RowsOf(st)) ==> Scan(RowsOf(st), order) == Merged(st)
  }

  lemma KeysOfRows(st: State)
    ensures forall k :: k in RowsOf(st) <==>
      (k.mtype == GAUGE && k.id in st.gauges) || (k.mtype == COUNTER && k.id in st.counters)
  {
    forall k: Key
      ensures k in RowsOf(st) <==> (k.mtype == GAUGE && k.id in st.gauges) || (k.mtype == COUNTER && k.id in st.counters)
    {
      RowLookup(st, k.id);
      assert k == Key(k.id, k.mtype);
    }
  }

  lemma DisjointScan(st: State, order: seq<Key>)
    requires st.gauges.Keys !! st.counters.Keys && Lists(order, RowsOf(st))
    ensures Scan(RowsOf(st), order) == Merged(st)
  {
    var t := RowsOf(st);
    KeysOfRows(st);
    ScanKeepsDistinct(t, order);
    var out := Scan(t, order);
    forall id
      ensures id in out <==> id in Merged(st)
      ensures id in out ==> out[id] == Merged(st)[id]
    {
      RowLookup(st, id);
      assert Key(id, GAUGE) in order <==> id in st.gauges;
      assert Key(id, COUNTER) in order <==> id in st.counters;
    }
  }

  /** The database listing equals the in-memory one in whatever order the rows come,
      exactly when no id is both a gauge and a counter. */
  lemma ListingAgreement(st: State)
    ensures EveryScanAgrees(st) <==> st.gauges.Keys !! st.counters.Keys
  {
    if st.gauges.Keys !! st.counters.Keys {
      forall order | Lists(order, RowsOf(st))
        ensures Scan(RowsOf(st), order) == Merged(st)
      {
        DisjointScan(st, order);
      }
    } else {
      var id :| id in st.gauges && id in st.counters;
      RowLookup(st, id);
      var rest := SomeOrder(RowsOf(st).Keys - {Key(id, GAUGE)});
      var order := rest + [Key(id, GAUGE)];
      assert order[..|order| - 1] == rest;
      assert Lists(order, RowsOf(st));
      assert Scan(RowsOf(st), order)[id].mtype == GAUGE;
      assert Merged(st)[id].mtype == COUNTER;
    }
  }

  // ---------- The storage object ----------

  function GaugeAnswer(t: Table, id: string): Result<Float64, PgError> {
    var k := Key(id, GAUGE);
    if k in t && t[k].value.Some? then Ok(t[k].value.value) else Err(NoRows)
  }

  function CounterAnswer(t: Table, id: string): Result<Int64, PgError> {
    var k := Key(id, COUNTER);
    if k in t && t[k].delta.Some? then Ok(t[k].delta.value) else Err(NoRows)
  }

  /** Reads of the rows of a state answer as the in-memory storage does. */
  lemma AnswersSimulate(st: State, id: string)
    ensures GaugeAnswer(RowsOf(st), id) == if id in st.gauges then Ok(st.gauges[id]) else Err(NoRows)
    ensures CounterAnswer(RowsOf(st), id) == if id in st.counters then Ok(st.counters[id]) else Err(NoRows)
  {
    RowLookup(st, id);
  }

  /** Whatever has been called before, and in whatever trouble: reads answer, and the listing
      is, what the in-memory storage gives that was told just what the database executed. */
  lemma ReadsAfterAnyRun(ups: seq<Update>, id: string, order: seq<Key>)
    requires Lists(order, After(map[], ups))
    ensures var st := Fold(EMPTY, Executed(map[], ups));
      && GaugeAnswer(After(map[], ups), id) == (if id in st.gauges then Ok(st.gauges[id]) else Err(NoRows))
      && CounterAnswer(After(map[], ups), id) == (if id in st.counters then Ok(st.counters[id]) else Err(NoRows))
      && (st.gauges.Keys !! st.counters.Keys ==> Scan(After(map[], ups), order) == Merged(st))
  {
    assert RowsOf(EMPTY) == map[];
    SequenceSimulates(EMPTY, ups);
    var st := Fold(EMPTY, Executed(map[], ups));
    AnswersSimulate(st, id);
    if st.gauges.Keys !! st.counters.Keys {
      DisjointScan(st, order);
    }
  }

  /** A query that is answered, with a row or without, is not tried again. */
  lemma AnswerKeepsAttempt(script: nat -> PgError, outcome: nat -> PgError, answer: PgError, k: nat)
    requires answer in {Success, NoRows} && forall i :: outcome(i) == if script(i) != Success then script(i) else answer
    requires ReturnedAttempt(outcome, IsPGConnException, |SCHEDULE|, k)
    ensures k == Returned(script, IsPGConnException, |SCHEDULE|)
  {
    ReturnedAttemptIsUnique(outcome, IsPGConnException, |SCHEDULE|, k, Returned(script, IsPGConnException, |SCHEDULE|));
  }

  class PostgresStorage {
    var rows: Table

    constructor ()
      ensures rows == map[]
    {
      rows := map[];
    }

    /** One call of the closure UpdateBatch hands to retryPG. */
    method Transaction(metrics: seq<Metric>, trouble: Trouble) returns (err: PgError)
      modifies this
      ensures rows == Attempt(old(rows), metrics, trouble).rows
      ensures err == Attempt(old(rows), metrics, trouble).err
    {
      if trouble.BeginFails? || trouble.PrepareFails? {
        return trouble.e;
      }
      var tx := rows;
      for i := 0 to |metrics|
        invariant rows == old(rows)
        invariant ExecAll(rows, metrics[..i]) == Ok(tx)
        invariant trouble.ExecFails? ==> i <= trouble.at || !Runs(metrics[trouble.at])
      {
        var m := metrics[i];
        assert metrics[..i + 1][..i] == metrics[..i];
        var fails := trouble.ExecFails? && trouble.at == i;
        if m.mtype == GAUGE {
          if m.value.Some? {
            if fails {
              return trouble.e;
            }
            tx := UpsertGauge(tx, m.id, m.value.value);
          }
        } else if m.mtype == COUNTER {
          if m.delta.Some? {
            if fails {
              return trouble.e;
            }
            var done := UpsertCounter(tx, m.id, m.delta.value);
            if done.Err? {
              OverflowEnds(rows, metrics, trouble, i + 1);
              return done.error;
            }
            tx := done.value;
          }
        }
      }
      assert metrics[..|metrics|] == metrics;
      if trouble.CommitFails? {
        if trouble.landed {
          rows := tx;
        }
        return trouble.e;
      }
      rows := tx;
      err := Success;
    }

    /** `times` counts the transactions that took effect: never more than the attempts, and
        exactly one or none when a failed commit never lands. */
    method UpdateBatch(metrics: seq<Metric>, script: Script) returns (err: PgError, ghost times: nat)
      modifies this
      ensures Batch(old(rows), metrics, script) == Ended(rows, err, times)
      ensures metrics != [] ==> Committed(old(rows), metrics, times) == Ok(rows)
      ensures times <= |SCHEDULE| + 1
      ensures err == Success ==> times >= 1
      ensures NoPhantomCommit(script) ==> times == if err == Success then 1 else 0
    {
      if |metrics| == 0 {
        return Success, 1;
      }
      RetriedTimes(rows, metrics, script, 0);
      RetriedIsCommitted(rows, metrics, script, 0, Retried(rows, metrics, script));
      err, times := RetryTransaction(metrics, script);
    }

    /** The loop of retryPG around the transaction. */
    method RetryTransaction(metrics: seq<Metric>, script: Script) returns (err: PgError, ghost times: nat)
      modifies this
      ensures Retried(old(rows), metrics, script) == Ended(rows, err, times)
    {
      times := 0;
      ghost var start := rows;
      var attempts := |SCHEDULE| + 1;
      var i := 0;
      err := Success;
      while i < attempts
        invariant 0 <= i <= |SCHEDULE|
        invariant Retried(start, metrics, script) == Sum(times, Retried(rows, metrics, script, i))
        decreases attempts - i
      {
        times := times + Attempt(rows, metrics, script(i)).times;
        err := Transaction(metrics, script(i));
        if err == Success || !IsPGConnException(err) || i == |SCHEDULE| {
          return err, times;
        }
        i := i + 1;
      }
    }

    /** A single upsert commits by itself, as a transaction of one statement would; its error is dropped. */
    method UpdateGauge(id: string, value: Float64, script: Script) returns (ghost times: nat)
      modifies this
      ensures var r := Upserted(old(rows), GaugeMetric(id, value), script); rows == r.rows && times == r.times
      ensures times >= 1 <==> GetsThrough(script)
      ensures rows == if times == 0 then old(rows) else UpsertGauge(old(rows), id, value)
    {
      var m := GaugeMetric(id, value);
      UpsertedIsRetried(rows, m, script, 0);
      LandsExactlyWhenThrough(rows, m, script, 0);
      SameGaugeAgain(rows, m, script, 0);
      var err;
      err, times := UpdateBatch([m], script);
    }

    method UpdateCounter(id: string, delta: Int64, script: Script) returns (ghost times: nat)
      modifies this
      ensures var r := Upserted(old(rows), CounterMetric(id, delta), script); rows == r.rows && times == r.times
      ensures times >= 1 <==> UpsertCounter(old(rows), id, delta).Ok? && GetsThrough(script)
      ensures Committed(old(rows), [CounterMetric(id, delta)], times) == Ok(rows)
      ensures times <= |SCHEDULE| + 1 && (NoPhantomCommit(script) ==> times <= 1)
    {
      var m := CounterMetric(id, delta);
      UpsertedIsRetried(rows, m, script, 0);
      LandsExactlyWhenThrough(rows, m, script, 0);
      var err;
      err, times := UpdateBatch([m], script);
    }

    /** A read that gets an answer gives what the row says. */
    method GetGauge(id: string, script: nat -> PgError) returns (r: Result<Float64, PgError>)
      requires forall i :: script(i) != NoRows
      ensures var k := Returned(script, IsPGConnException, |SCHEDULE|);
        r == if script(k) == Success then GaugeAnswer(rows, id) else Err(script(k))
    {
      var answer := if Key(id, GAUGE) in rows then Success else NoRows;
      var outcome := (i: nat) => if script(i) != Success then script(i) else answer;
      var err, calls, waits := RetryPG(outcome);
      AnswerKeepsAttempt(script, outcome, answer, calls - 1);
      if err != Success {
        return Err(err);
      }
      assert answer == Success;
      if rows[Key(id, GAUGE)].value.None? {
        return Err(NoRows);
      }
      r := Ok(rows[Key(id, GAUGE)].value.value);
    }

    method GetCounter(id: string, script: nat -> PgError) returns (r: Result<Int64, PgError>)
      requires forall i :: script(i) != NoRows
      ensures var k := Returned(script, IsPGConnException, |SCHEDULE|);
        r == if script(k) == Success then CounterAnswer(rows, id) else Err(script(k))
    {
      var answer := if Key(id, COUNTER) in rows then Success else NoRows;
      var outcome := (i: nat) => if script(i) != Success then script(i) else answer;
      var err, calls, waits := RetryPG(outcome);
      AnswerKeepsAttempt(script, outcome, answer, calls - 1);
      if err != Success {
        return Err(err);
      }
      assert answer == Success;
      if rows[Key(id, COUNTER)].delta.None? {
        return Err(NoRows);
      }
      r := Ok(rows[Key(id, COUNTER)].delta.value);
    }

    /** `broken` says which row cannot be read, if any; the row after the last stands for an
        iteration that ends in an error. */
    method GetAllMetrics(script: nat -> PgError, order: seq<Key>, broken: Option<(nat, Failure)>)
      returns (r: Result<map<string, Metric>, PgError>)
      requires Lists(order, rows)
      ensures var k := Returned(script, IsPGConnException, |SCHEDULE|);
        r == if script(k) != Success then Err(script(k))
             else if broken.Some? && broken.value.0 <= |order| then Err(broken.value.1)
             else Ok(Scan(rows, order))
    {
      var err, calls, waits := RetryQuery(script);
      ReturnedAttemptIsUnique(script, IsPGConnException, |SCHEDULE|, calls - 1, Returned(script, IsPGConnException, |SCHEDULE|));
      if err != Success {
        return Err(err);
      }
      var out := map[];
      for i := 0 to |order|
        invariant out == Scan(rows, order[..i])
        invariant broken.None? || broken.value.0 >= i
      {
        if broken.Some? && broken.value.0 == i {
          return Err(broken.value.1);
        }
        var k := order[i];
        assert order[..i + 1][..i] == order[..i];
        out := out[k.id := RowMetric(rows, k)];
      }
      assert order[..|order|] == order;
      if broken.Some? && broken.value.0 == |order| {
        return Err(broken.value.1);
      }
      r := Ok(out);
    }
  }
}
