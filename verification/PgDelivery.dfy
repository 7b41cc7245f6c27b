/** Delivery to a server whose metrics are in the database: the service drops what the
    database says about its upserts, so neither bound of the in-memory server holds as it
    stands (internal/agent/client.go, internal/service/metrics_service.go,
    internal/repository/pgstorage.go). */
module PgDelivery {
  import opened Model
  import opened Storage
  import opened Service
  import opened Retry
  import opened PgStorage
  import opened PgService
  import opened Delivery

  /** What item i of the batch meets in attempt k: the table, which others change too, and
      the trouble of each database attempt. */
  datatype Database = Database(tables: nat -> (nat -> Table), scripts: nat -> (nat -> Script))

  const MOST: nat := |SCHEDULE| + 1

  function ItemLandings(batch: seq<Metric>, db: Database, k: nat, i: nat): nat
    requires i < |batch|
  {
    Landings(db.tables(k)(i), batch[i], db.scripts(k)(i))
  }

  function DatabaseSending(batch: seq<Metric>, fates: nat -> Fate, db: Database): Sending {
    Sending((k: nat) => Answer(batch, fates(k)),
            (k: nat, i: nat) => if i < Reached(batch, fates(k)) then ItemLandings(batch, db, k, i) else 0)
  }

  /** Item i of attempt k meets the table the service's own upserts have left. */
  ghost predicate Undisturbed(t: Table, batch: seq<Metric>, s: Sending, k: nat, scripts: nat -> Script, i: nat)
    requires i < |batch|
  {
    s.lands(k, i) == Landings(Handled(t, batch, scripts, i).rows, batch[i], scripts(i))
  }

  lemma NextIsExecuted(p: Progress, batch: seq<Metric>, s: Sending, k: nat, n: nat, script: Script)
    requires n < |batch| && p.executed == ExecutedIn(batch, s, k, n)
    requires s.lands(k, n) == Landings(p.rows, batch[n], script)
    ensures Next(p, batch[n], script).executed == ExecutedIn(batch, s, k, n + 1)
  {
  }

  /** A request the service handles with nobody else writing is such an attempt. */
  lemma {:induction false} ServiceIsSuchAnAttempt(t: Table, batch: seq<Metric>, s: Sending, k: nat, scripts: nat -> Script, n: nat)
    requires n <= |batch| && forall i: nat :: i < n ==> Undisturbed(t, batch, s, k, scripts, i)
    ensures Handled(t, batch, scripts, n).executed == ExecutedIn(batch, s, k, n)
  {
    if n > 0 {
      ServiceIsSuchAnAttempt(t, batch, s, k, scripts, n - 1);
      assert Undisturbed(t, batch, s, k, scripts, n - 1);
      NextIsExecuted(Handled(t, batch, scripts, n - 1), batch, s, k, n - 1, scripts(n - 1));
    }
  }

  // ---------- The bounds that always hold ----------

  lemma DatabaseAtMost(batch: seq<Metric>, fates: nat -> Fate, db: Database)
    ensures AtMost(batch, DatabaseSending(batch, fates, db), MOST)
  {
    var s := DatabaseSending(batch, fates, db);
    forall k: nat, i: nat | i < |batch|
      ensures s.lands(k, i) <= MOST
    {
      assert s.lands(k, i) == if i < Reached(batch, fates(k)) then ItemLandings(batch, db, k, i) else 0;
      LandingsBound(db.tables(k)(i), batch[i], db.scripts(k)(i), 0);
    }
  }

  /** Each item is executed at most (limit + 1) * 4 times. The attempt whose answer made
      SendBatch return nil executed it exactly if it did not overflow the counter it met and
      some database attempt got through. */
  lemma DatabaseDelivery(batch: seq<Metric>, fates: nat -> Fate, db: Database, limit: nat, i: nat)
    requires i < |batch|
    ensures var s := DatabaseSending(batch, fates, db);
      && Times(s, limit, i) <= (limit + 1) * (|SCHEDULE| + 1)
      && (Sent(s, limit) ==>
            var k := Last(s, limit);
            && s.lands(k, i) <= Times(s, limit, i)
            && (s.lands(k, i) >= 1 <==> Exec(db.tables(k)(i), batch[i]).Ok? && GetsThrough(db.scripts(k)(i))))
  {
    var s := DatabaseSending(batch, fates, db);
    DatabaseAtMost(batch, fates, db);
    DuplicationBound(s, limit, MOST, i);
    if Sent(s, limit) {
      var k := Last(s, limit);
      AcknowledgedIsReached(batch, fates(k));
      assert batch[i] in batch;
      LandsExactlyWhenThrough(db.tables(k)(i), batch[i], db.scripts(k)(i), 0);
    }
  }

  lemma AlwaysUnavailable(batch: seq<Metric>, db: Database, limit: nat) returns (fates: nat -> Fate)
    requires AllValid(batch)
    ensures var s := DatabaseSending(batch, fates, db);
      && Last(s, limit) == limit && !Sent(s, limit)
      && forall k: nat, i: nat :: i < |batch| ==> s.lands(k, i) == ItemLandings(batch, db, k, i)
  {
    var unavailable: NoAck := Exchange(Some(503), false);
    fates := (k: nat) => AnswerLost(unavailable);
    var s := DatabaseSending(batch, fates, db);
    ValidLengthIsLongest(batch);
    forall k: nat
      ensures s.exchange(k) == unavailable && Reached(batch, fates(k)) == |batch|
    {
      assert fates(k) == AnswerLost(unavailable);
      assert s.exchange(k) == Answer(batch, fates(k));
    }
    Delivery.AlwaysUnavailable(s, limit);
  }

  lemma AlwaysAnswered(batch: seq<Metric>, db: Database, limit: nat) returns (fates: nat -> Fate)
    requires AllValid(batch)
    ensures var s := DatabaseSending(batch, fates, db);
      && Last(s, limit) == 0 && Sent(s, limit)
      && forall i: nat :: i < |batch| ==> Times(s, limit, i) == ItemLandings(batch, db, 0, i)
  {
    fates := (k: nat) => Answered;
    var s := DatabaseSending(batch, fates, db);
    AcceptedMeansValid(batch);
    ValidLengthIsLongest(batch);
    assert fates(0) == Answered;
    assert s.exchange(0) == Answer(batch, fates(0));
    forall i: nat | i < |batch|
      ensures Times(s, limit, i) == ItemLandings(batch, db, 0, i)
    {
      assert TimesBefore(s, 1, i) == TimesBefore(s, 0, i) + s.lands(0, i);
    }
  }

  /** The same table and the same trouble everywhere. */
  lemma SteadyDatabase(t: Table, x: Trouble) returns (db: Database)
    ensures forall k, i :: db.tables(k)(i) == t
    ensures forall k, i, j :: db.scripts(k)(i)(j) == x
  {
    db := Database(k => i => t, k => i => j => x);
  }

  // ---------- What can go wrong ----------

  /** The bound is met: every commit lands, the connection then fails (code 08006), and the
      server's answer is lost too. */
  lemma DatabaseBoundIsTight(batch: seq<Metric>, limit: nat) returns (fates: nat -> Fate, db: Database)
    requires AllValid(batch)
    requires forall i :: 0 <= i < |batch| ==> Committed(map[], [batch[i]], MOST).Ok?
    ensures var s := DatabaseSending(batch, fates, db);
      !Sent(s, limit) && forall i: nat :: i < |batch| ==> Times(s, limit, i) == (limit + 1) * (|SCHEDULE| + 1)
  {
    var x := CommitFails(Pg("08006"), true);
    assert "08" <= "08006";
    db := SteadyDatabase(map[], x);
    fates := AlwaysUnavailable(batch, db, limit);
    var s := DatabaseSending(batch, fates, db);
    forall i: nat | i < |batch|
      ensures Times(s, limit, i) == (limit + 1) * (|SCHEDULE| + 1)
    {
      forall k: nat
        ensures s.lands(k, i) == MOST
      {
        AlwaysDoubled(map[], batch[i], db.scripts(k)(i), 0);
      }
      EachAttemptExecutes(s, limit + 1, MOST, i);
      ScaledIsProduct(limit + 1, MOST);
    }
  }

  /** With the database down nothing is stored, and SendBatch returns nil. */
  lemma NothingStoredWhenDown(batch: seq<Metric>, limit: nat) returns (fates: nat -> Fate, db: Database)
    requires AllValid(batch)
    ensures forall k, i, j :: db.scripts(k)(i)(j) == BeginFails(OtherError)
    ensures var s := DatabaseSending(batch, fates, db);
      Sent(s, limit) && forall i: nat :: i < |batch| ==> Times(s, limit, i) == 0
  {
    db := SteadyDatabase(map[], BeginFails(OtherError));
    fates := AlwaysAnswered(batch, db, limit);
    forall i: nat | i < |batch|
      ensures Times(DatabaseSending(batch, fates, db), limit, i) == 0
    {
      assert batch[i] in batch;
      LandsExactlyWhenThrough(map[], batch[i], db.scripts(0)(i), 0);
    }
  }

  /** A counter at its limit loses the delta, and SendBatch returns nil. */
  lemma OverflowIsDropped(id: string, limit: nat) returns (batch: seq<Metric>, fates: nat -> Fate, db: Database)
    requires id != ""
    ensures batch == [CounterMetric(id, 1)] && forall k, i, j :: db.scripts(k)(i)(j) == Calm
    ensures var s := DatabaseSending(batch, fates, db); Sent(s, limit) && Times(s, limit, 0) == 0
  {
    batch := [CounterMetric(id, 1)];
    var full: Table := map[Key(id, COUNTER) := Row(None, Some(TWO63 - 1))];
    db := SteadyDatabase(full, Calm);
    fates := AlwaysAnswered(batch, db, limit);
    LandsExactlyWhenThrough(full, batch[0], db.scripts(0)(0), 0);
  }

  // ---------- Exactly when the bounds of the in-memory server hold ----------

  ghost predicate Shows(db: Database, may: Trouble -> bool) {
    forall k, i :: OnlyShows(db.scripts(k)(i), may)
  }

  ghost predicate OnceAnAttempt(may: Trouble -> bool) {
    forall batch, fates: nat -> Fate, db, limit: nat, i: nat :: i < |batch| && Shows(db, may) ==>
      Times(DatabaseSending(batch, fates, db), limit, i) <= limit + 1
  }

  ghost predicate NeverOverflows(batch: seq<Metric>, db: Database) {
    forall k, i :: 0 <= i < |batch| ==> Exec(db.tables(k)(i), batch[i]).Ok?
  }

  ghost predicate NilMeansStored(may: Trouble -> bool) {
    forall batch, fates: nat -> Fate, db, limit: nat, i: nat ::
      i < |batch| && Shows(db, may) && NeverOverflows(batch, db) && Sent(DatabaseSending(batch, fates, db), limit) ==>
        Times(DatabaseSending(batch, fates, db), limit, i) >= 1
  }

  lemma OnceUnlessDoubled(batch: seq<Metric>, fates: nat -> Fate, db: Database, limit: nat, i: nat, may: Trouble -> bool)
    requires i < |batch| && Shows(db, may) && forall x :: may(x) ==> !Doubles(x)
    ensures Times(DatabaseSending(batch, fates, db), limit, i) <= limit + 1
  {
    var s := DatabaseSending(batch, fates, db);
    forall k: nat
      ensures s.lands(k, i) <= 1
    {
      if i < Reached(batch, fates(k)) {
        ValidLengthIsLongest(batch);
        assert batch[..ValidLength(batch)][i] in batch[..ValidLength(batch)];
        assert OnlyShows(db.scripts(k)(i), may);
        LandsOnceUnlessDoubled(db.tables(k)(i), batch[i], db.scripts(k)(i), 0);
      }
    }
    DuplicationBound(s, limit, 1, i);
  }

  lemma DoubledGoesOver(may: Trouble -> bool, x: Trouble)
    requires may(x) && Doubles(x)
    ensures !OnceAnAttempt(may)
  {
    var m := GaugeMetric("g", ZERO);
    var db := SteadyDatabase(map[], x);
    var fates := AlwaysUnavailable([m], db, 0);
    var s := DatabaseSending([m], fates, db);
    GaugesCommit(map[], m, MOST);
    forall k: nat
      ensures s.lands(k, 0) == MOST
    {
      AlwaysDoubled(map[], m, db.scripts(k)(0), 0);
    }
    EachAttemptExecutes(s, 1, MOST, 0);
    ScaledIsProduct(1, MOST);
    assert Shows(db, may) && Times(s, 0, 0) == MOST;
  }

  /** No item is ever executed more than limit + 1 times exactly when the database cannot land
      a commit and report an error that is retried. */
  lemma OnceAnAttemptExactly(may: Trouble -> bool)
    ensures OnceAnAttempt(may) <==> forall x :: may(x) ==> !Doubles(x)
  {
    if x :| may(x) && Doubles(x) {
      DoubledGoesOver(may, x);
    } else {
      forall batch, fates: nat -> Fate, db, limit: nat, i: nat | i < |batch| && Shows(db, may)
        ensures Times(DatabaseSending(batch, fates, db), limit, i) <= limit + 1
      {
        OnceUnlessDoubled(batch, fates, db, limit, i, may);
      }
    }
  }

  lemma StoredUnlessStruck(batch: seq<Metric>, fates: nat -> Fate, db: Database, limit: nat, i: nat, may: Trouble -> bool)
    requires i < |batch| && Shows(db, may) && forall x :: may(x) ==> !Strikes(x)
    requires NeverOverflows(batch, db) && Sent(DatabaseSending(batch, fates, db), limit)
    ensures Times(DatabaseSending(batch, fates, db), limit, i) >= 1
  {
    DatabaseDelivery(batch, fates, db, limit, i);
    var k := Last(DatabaseSending(batch, fates, db), limit);
    assert OnlyShows(db.scripts(k)(i), may);
    assert may(db.scripts(k)(i)(0));
  }

  lemma StruckSend(m: Metric, db: Database) returns (fates: nat -> Fate)
    requires Valid(m) && forall j :: Strikes(db.scripts(0)(0)(j))
    ensures Sent(DatabaseSending([m], fates, db), 0) && Times(DatabaseSending([m], fates, db), 0, 0) == 0
  {
    fates := AlwaysAnswered([m], db, 0);
    AlwaysStruck(db.tables(0)(0), m, db.scripts(0)(0), 0);
  }

  lemma GaugeNeverOverflows(m: Metric, db: Database)
    requires SetsGauge(m)
    ensures NeverOverflows([m], db)
  {
  }

  lemma NotStored(may: Trouble -> bool, batch: seq<Metric>, fates: nat -> Fate, db: Database)
    requires |batch| > 0 && Shows(db, may) && NeverOverflows(batch, db)
    requires Sent(DatabaseSending(batch, fates, db), 0) && Times(DatabaseSending(batch, fates, db), 0, 0) == 0
    ensures !NilMeansStored(may)
  {
  }

  lemma StruckIsLost(may: Trouble -> bool, x: Trouble)
    requires may(x) && Strikes(x)
    ensures !NilMeansStored(may)
  {
    var m := GaugeMetric("g", ZERO);
    var db := SteadyDatabase(map[], x);
    var fates := StruckSend(m, db);
    GaugeNeverOverflows(m, db);
    NotStored(may, [m], fates, db);
  }

  /** But for overflow, nil means that every item was stored exactly when no trouble can keep
      an upsert from taking effect. */
  lemma NilMeansStoredExactly(may: Trouble -> bool)
    ensures NilMeansStored(may) <==> forall x :: may(x) ==> !Strikes(x)
  {
    if x :| may(x) && Strikes(x) {
      StruckIsLost(may, x);
    } else {
      forall batch, fates: nat -> Fate, db, limit: nat, i: nat |
        i < |batch| && Shows(db, may) && NeverOverflows(batch, db) && Sent(DatabaseSending(batch, fates, db), limit)
        ensures Times(DatabaseSending(batch, fates, db), limit, i) >= 1
      {
        StoredUnlessStruck(batch, fates, db, limit, i, may);
      }
    }
  }

  // ---------- Counters over a whole run ----------

  ghost predicate ToDatabase(send: Send) {
    exists fates: nat -> Fate, db: Database :: send.sending == DatabaseSending(send.batch, fates, db)
  }

  ghost predicate OverDatabase(sends: seq<Send>) {
    forall j :: 0 <= j < |sends| ==> ToDatabase(sends[j])
  }

  /** `log` is what the database executed for the run, in any order, from the rows of st. With
      non-negative deltas a counter has grown by at least what the acknowledged attempts
      executed, and by at most 4 * (limit + 1) times what was attempted; no range has to be assumed, since
      the database refuses what overflows. */
  lemma DatabaseCounterBounds(st: State, sends: seq<Send>, limit: nat, id: string, log: seq<Metric>)
    requires OverDatabase(sends) && AllNonNegative(sends, id)
    requires multiset(log) == multiset(AllDelivered(sends, limit))
    requires ExecAll(RowsOf(st), log).Ok?
    ensures ExecAll(RowsOf(st), log) == Ok(RowsOf(Fold(st, log)))
    ensures var grown := CounterOr0(Fold(st, log), id) - CounterOr0(st, id);
      KeptSum(sends, limit, id) <= grown <= (limit + 1) * (|SCHEDULE| + 1) * AttemptedSum(sends, id)
  {
    forall j | 0 <= j < |sends|
      ensures AtMost(sends[j].batch, sends[j].sending, MOST)
    {
      assert ToDatabase(sends[j]);
      var fates: nat -> Fate, db: Database :| sends[j].sending == DatabaseSending(sends[j].batch, fates, db);
      DatabaseAtMost(sends[j].batch, fates, db);
    }
    BatchSimulates(st, log);
    NoOverflowIsExact(st, log, id);
    ExecutedRange(sends, limit, MOST, id, log);
  }
}
