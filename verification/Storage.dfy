/** The in-memory storage, which is the reference state of the whole system
    (internal/repository/storage.go). */
module Storage {
  import opened Model

  datatype State = State(gauges: map<string, Float64>, counters: map<string, Int64>)

  const EMPTY := State(map[], map[])

  datatype StorageError = CounterNotFound | GaugeNotFound

  function CounterOr0(st: State, id: string): Int64 {
    if id in st.counters then st.counters[id] else 0
  }

  function SetGauge(st: State, id: string, v: Float64): State {
    st.(gauges := st.gauges[id := v])
  }

  function AddCounter(st: State, id: string, d: Int64): State {
    st.(counters := st.counters[id := Wrap(CounterOr0(st, id) + d)])
  }

  /** One item of a batch; items of unknown type or without their field are skipped. */
  function Apply(st: State, m: Metric): State {
    if SetsGauge(m) then SetGauge(st, m.id, m.value.value)
    else if AddsCounter(m) then AddCounter(st, m.id, m.delta.value)
    else st
  }

  function Fold(st: State, ms: seq<Metric>): State {
    if ms == [] then st else Apply(Fold(st, ms[..|ms| - 1]), ms[|ms| - 1])
  }

  lemma {:induction false} FoldConcat(st: State, a: seq<Metric>, b: seq<Metric>)
    ensures Fold(st, a + b) == Fold(Fold(st, a), b)
    decreases |b|
  {
    if b == [] {
      assert a + b == a;
    } else {
      assert (a + b)[..|a + b| - 1] == a + b[..|b| - 1];
      FoldConcat(st, a, b[..|b| - 1]);
    }
  }

  lemma FoldOne(st: State, m: Metric)
    ensures Fold(st, [m]) == Apply(st, m)
  {
    assert [m][..0] == [];
    assert Fold(st, [m][..0]) == st;
  }

  // ---------- What a batch means, without replaying it ----------

  /** The exact, unbounded sum of the deltas a batch carries for one counter. */
  function DeltaSum(ms: seq<Metric>, id: string): int {
    if ms == [] then 0 else DeltaSum(ms[..|ms| - 1], id) + DeltaOf(ms[|ms| - 1], id)
  }

  function DeltaOf(m: Metric, id: string): int {
    if AddsCounter(m) && m.id == id then m.delta.value else 0
  }

  function CounterIds(ms: seq<Metric>): set<string> {
    if ms == [] then {}
    else CounterIds(ms[..|ms| - 1]) + if AddsCounter(ms[|ms| - 1]) then {ms[|ms| - 1].id} else {}
  }

  function GaugeIds(ms: seq<Metric>): set<string> {
    if ms == [] then {}
    else GaugeIds(ms[..|ms| - 1]) + if SetsGauge(ms[|ms| - 1]) then {ms[|ms| - 1].id} else {}
  }

  lemma {:induction false} IdsOfItems(ms: seq<Metric>, id: string)
    ensures id in CounterIds(ms) <==> exists m :: m in ms && AddsCounter(m) && m.id == id
    ensures id in GaugeIds(ms) <==> exists m :: m in ms && SetsGauge(m) && m.id == id
    decreases |ms|
  {
    if ms != [] {
      IdsOfItems(ms[..|ms| - 1], id);
      assert ms == ms[..|ms| - 1] + [ms[|ms| - 1]];
    }
  }

  lemma {:induction false} NoItemNoDelta(ms: seq<Metric>, id: string)
    requires id !in CounterIds(ms)
    ensures DeltaSum(ms, id) == 0
    decreases |ms|
  {
    if ms != [] {
      NoItemNoDelta(ms[..|ms| - 1], id);
    }
  }

  /** Item i is the last of the batch that sets its gauge. */
  ghost predicate LastWrite(ms: seq<Metric>, i: nat) {
    i < |ms| && SetsGauge(ms[i]) && forall j :: i < j < |ms| && SetsGauge(ms[j]) ==> ms[j].id != ms[i].id
  }

  /** A counter ends as the int64 congruent to its old value plus all its deltas. */
  lemma {:induction false} FoldCounter(st: State, ms: seq<Metric>, id: string)
    ensures id in Fold(st, ms).counters <==> id in st.counters || id in CounterIds(ms)
    ensures CounterOr0(Fold(st, ms), id) == Wrap(CounterOr0(st, id) + DeltaSum(ms, id))
    decreases |ms|
  {
    if ms != [] {
      var front, m := ms[..|ms| - 1], ms[|ms| - 1];
      FoldCounter(st, front, id);
      WrapAbsorbs(CounterOr0(st, id) + DeltaSum(front, id), DeltaOf(m, id));
    }
  }

  /** A gauge ends as the last value the batch gives it, or as it was. */
  lemma {:induction false} FoldGauge(st: State, ms: seq<Metric>, id: string)
    ensures id in Fold(st, ms).gauges <==> id in st.gauges || id in GaugeIds(ms)
    ensures id in st.gauges && id !in GaugeIds(ms) ==> Fold(st, ms).gauges[id] == st.gauges[id]
    ensures forall i: nat :: LastWrite(ms, i) && ms[i].id == id ==>
      id in GaugeIds(ms) && Fold(st, ms).gauges[id] == ms[i].value.value
    decreases |ms|
  {
    if ms != [] {
      var front, m := ms[..|ms| - 1], ms[|ms| - 1];
      FoldGauge(st, front, id);
      forall i: nat | LastWrite(ms, i) && ms[i].id == id
        ensures id in GaugeIds(ms) && Fold(st, ms).gauges[id] == ms[i].value.value
      {
        if i < |front| {
          assert LastWrite(front, i);
        }
      }
    }
  }

  /** Every id a batch sets has a last write. */
  lemma {:induction false} LastWriteExists(ms: seq<Metric>, id: string) returns (i: nat)
    requires id in GaugeIds(ms)
    ensures LastWrite(ms, i) && ms[i].id == id
    decreases |ms|
  {
    var last := ms[|ms| - 1];
    if SetsGauge(last) && last.id == id {
      i := |ms| - 1;
    } else {
      i := LastWriteExists(ms[..|ms| - 1], id);
    }
  }

  /** A batch n times over. */
  function Repeated(ms: seq<Metric>, n: nat): seq<Metric> {
    if n == 0 then [] else Repeated(ms, n - 1) + ms
  }

  lemma {:induction false} RepeatedFirst(ms: seq<Metric>, n: nat)
    ensures Repeated(ms, n + 1) == ms + Repeated(ms, n)
  {
    if n > 0 {
      RepeatedFirst(ms, n - 1);
    }
  }

  // ---------- When the order of a batch matters ----------

  /** Two items of the batch that set the same gauge set it to the same value. */
  ghost predicate GaugeWritesAgree(ms: seq<Metric>) {
    forall i, j :: 0 <= i < j < |ms| && SetsGauge(ms[i]) && SetsGauge(ms[j]) && ms[i].id == ms[j].id
      ==> ms[i].value == ms[j].value
  }

  lemma {:induction false} DeltaSumConcat(a: seq<Metric>, b: seq<Metric>, id: string)
    ensures DeltaSum(a + b, id) == DeltaSum(a, id) + DeltaSum(b, id)
    decreases |b|
  {
    if b == [] {
      assert a + b == a;
    } else {
      assert (a + b)[..|a + b| - 1] == a + b[..|b| - 1];
      DeltaSumConcat(a, b[..|b| - 1], id);
    }
  }

  function Without<T>(s: seq<T>, i: nat): (r: seq<T>)
    requires i < |s|
    ensures multiset(r) == multiset(s) - multiset{s[i]}
  {
    assert s == s[..i] + ([s[i]] + s[i + 1..]);
    s[..i] + s[i + 1..]
  }

  lemma DeltaSumWithout(s: seq<Metric>, i: nat, id: string)
    requires i < |s|
    ensures DeltaSum(s, id) == DeltaSum(Without(s, i), id) + DeltaOf(s[i], id)
  {
    assert s == s[..i] + ([s[i]] + s[i + 1..]);
    DeltaSumConcat(s[..i], [s[i]] + s[i + 1..], id);
    DeltaSumConcat([s[i]], s[i + 1..], id);
    DeltaSumConcat(s[..i], s[i + 1..], id);
    assert DeltaSum([s[i]], id) == DeltaSum([s[i]][..0], id) + DeltaOf(s[i], id);
  }

  lemma {:induction false} DeltaSumPermutes(a: seq<Metric>, b: seq<Metric>, id: string)
    requires multiset(a) == multiset(b)
    ensures DeltaSum(a, id) == DeltaSum(b, id)
    decreases |a|
  {
    if a == [] {
      assert |multiset(b)| == 0;
    } else {
      var m := a[|a| - 1];
      assert a == a[..|a| - 1] + [m];
      assert m in multiset(a);
      assert m in b;
      var i :| 0 <= i < |b| && b[i] == m;
      DeltaSumPermutes(a[..|a| - 1], Without(b, i), id);
      DeltaSumWithout(b, i, id);
    }
  }

  lemma SameItems(a: seq<Metric>, b: seq<Metric>)
    requires multiset(a) == multiset(b)
    ensures forall m :: m in a <==> m in b
  {
    forall m
      ensures m in a <==> m in b
    {
      assert m in a <==> m in multiset(a);
      assert m in b <==> m in multiset(b);
    }
  }

  lemma CounterPermutes(st: State, a: seq<Metric>, b: seq<Metric>, id: string)
    requires multiset(a) == multiset(b)
    ensures id in Fold(st, a).counters <==> id in Fold(st, b).counters
    ensures CounterOr0(Fold(st, a), id) == CounterOr0(Fold(st, b), id)
  {
    SameItems(a, b);
    IdsOfItems(a, id);
    IdsOfItems(b, id);
    FoldCounter(st, a, id);
    FoldCounter(st, b, id);
    DeltaSumPermutes(a, b, id);
  }

  lemma GaugePermutes(st: State, a: seq<Metric>, b: seq<Metric>, id: string)
    requires multiset(a) == multiset(b) && GaugeWritesAgree(a)
    ensures id in Fold(st, a).gauges <==> id in Fold(st, b).gauges
    ensures id in Fold(st, a).gauges ==> Fold(st, a).gauges[id] == Fold(st, b).gauges[id]
  {
    SameItems(a, b);
    IdsOfItems(a, id);
    IdsOfItems(b, id);
    FoldGauge(st, a, id);
    FoldGauge(st, b, id);
    if id in GaugeIds(a) {
      var i := LastWriteExists(a, id);
      var j := LastWriteExists(b, id);
      assert b[j] in a;
      var k :| 0 <= k < |a| && a[k] == b[j];
      assert a[i].value == a[k].value;
    }
  }

  lemma FoldPermutes(st: State, a: seq<Metric>, b: seq<Metric>)
    requires multiset(a) == multiset(b) && GaugeWritesAgree(a)
    ensures Fold(st, a) == Fold(st, b)
  {
    var x, y := Fold(st, a), Fold(st, b);
    assert x.counters == y.counters by {
      forall id
        ensures id in x.counters <==> id in y.counters
        ensures id in x.counters ==> x.counters[id] == y.counters[id]
      {
        CounterPermutes(st, a, b, id);
      }
    }
    assert x.gauges == y.gauges by {
      forall id
        ensures id in x.gauges <==> id in y.gauges
        ensures id in x.gauges ==> x.gauges[id] == y.gauges[id]
      {
        GaugePermutes(st, a, b, id);
      }
    }
  }

  lemma MovedLast(st: State, ms: seq<Metric>, i: nat)
    requires i < |ms| && SetsGauge(ms[i])
    ensures var p := Without(ms, i) + [ms[i]];
      multiset(p) == multiset(ms) && ms[i].id in Fold(st, p).gauges
      && Fold(st, p).gauges[ms[i].id] == ms[i].value.value
  {
    var p := Without(ms, i) + [ms[i]];
    assert p[..|p| - 1] == Without(ms, i);
  }

  lemma OrderMatters(st: State, ms: seq<Metric>) returns (p: seq<Metric>)
    requires !GaugeWritesAgree(ms)
    ensures multiset(p) == multiset(ms) && Fold(st, p) != Fold(st, ms)
  {
    var i, j :| 0 <= i < j < |ms| && SetsGauge(ms[i]) && SetsGauge(ms[j]) && ms[i].id == ms[j].id
      && ms[i].value != ms[j].value;
    MovedLast(st, ms, i);
    MovedLast(st, ms, j);
    p := Without(ms, i) + [ms[i]];
    if Fold(st, p) == Fold(st, ms) {
      p := Without(ms, j) + [ms[j]];
    }
  }

  ghost predicate OrderIrrelevant(st: State, ms: seq<Metric>) {
    forall p: seq<Metric> :: multiset(p) == multiset(ms) ==> Fold(st, p) == Fold(st, ms)
  }

  /** Permuting a batch never changes its effect exactly when no two of its items
      set one gauge to two values. */
  lemma BatchOrderIsIrrelevant(st: State, ms: seq<Metric>)
    ensures OrderIrrelevant(st, ms) <==> GaugeWritesAgree(ms)
  {
    if GaugeWritesAgree(ms) {
      forall p: seq<Metric> | multiset(p) == multiset(ms)
        ensures Fold(st, p) == Fold(st, ms)
      {
        FoldPermutes(st, ms, p);
      }
    } else {
      var p := OrderMatters(st, ms);
    }
  }

  // ---------- Concurrent clients ----------

  /** Each call runs under the storage's mutex, so what concurrent clients do is
      one log of items, each tagged with the client it came from. */
  datatype Call = Call(client: nat, item: Metric)

  function Items(log: seq<Call>): seq<Metric> {
    seq(|log|, i requires 0 <= i < |log| => log[i].item)
  }

  /** The items of one client, in the order it sent them. */
  function ItemsOf(log: seq<Call>, c: nat): seq<Metric> {
    if log == [] then []
    else ItemsOf(log[..|log| - 1], c) + if log[|log| - 1].client == c then [log[|log| - 1].item] else []
  }

  /** The sum, over clients 0..n, of what each of them added to one counter. */
  function ClientSums(log: seq<Call>, n: nat, id: string): int {
    if n == 0 then 0 else ClientSums(log, n - 1, id) + DeltaSum(ItemsOf(log, n - 1), id)
  }

  lemma {:induction false} ClientSumsSnoc(log: seq<Call>, call: Call, n: nat, id: string)
    ensures ClientSums(log + [call], n, id)
         == ClientSums(log, n, id) + if call.client < n then DeltaOf(call.item, id) else 0
  {
    if n != 0 {
      ClientSumsSnoc(log, call, n - 1, id);
      assert (log + [call])[..|log|] == log;
      if call.client == n - 1 {
        DeltaSumConcat(ItemsOf(log, n - 1), [call.item], id);
        assert [call.item][..0] == [];
        assert DeltaSum([call.item], id) == DeltaSum([], id) + DeltaOf(call.item, id);
      } else {
        assert ItemsOf(log + [call], n - 1) == ItemsOf(log, n - 1);
      }
    }
  }

  lemma {:induction false} NoCallsNoSum(n: nat, id: string)
    ensures ClientSums([], n, id) == 0
  {
    if n != 0 {
      NoCallsNoSum(n - 1, id);
    }
  }

  lemma {:induction false} ClientsAddUp(log: seq<Call>, n: nat, id: string)
    requires forall i :: 0 <= i < |log| ==> log[i].client < n
    ensures DeltaSum(Items(log), id) == ClientSums(log, n, id)
    decreases |log|
  {
    if log == [] {
      NoCallsNoSum(n, id);
    } else {
      var front, call := log[..|log| - 1], log[|log| - 1];
      assert log == front + [call];
      assert Items(log)[..|log| - 1] == Items(front);
      ClientsAddUp(front, n, id);
      ClientSumsSnoc(front, call, n, id);
    }
  }

  lemma {:induction false} LastWriteIsAClients(log: seq<Call>, i: nat) returns (k: nat)
    requires LastWrite(Items(log), i)
    ensures LastWrite(ItemsOf(log, log[i].client), k)
    ensures ItemsOf(log, log[i].client)[k] == log[i].item
    decreases |log|
  {
    var front, call := log[..|log| - 1], log[|log| - 1];
    var c := log[i].client;
    assert ItemsOf(log, c) == ItemsOf(front, c) + if call.client == c then [call.item] else [];
    if i == |log| - 1 {
      k := |ItemsOf(front, c)|;
    } else {
      assert forall j :: 0 <= j < |front| ==> Items(front)[j] == Items(log)[j];
      assert LastWrite(Items(front), i);
      k := LastWriteIsAClients(front, i);
      assert Items(log)[|log| - 1] == call.item;
    }
  }

  /** After any interleaving of any number of clients each counter is the int64
      congruent to the exact sum of all clients' deltas, and each gauge that was
      written holds what some client wrote last. */
  lemma InterleavingOutcome(st: State, log: seq<Call>, n: nat, id: string)
    requires forall i :: 0 <= i < |log| ==> log[i].client < n
    ensures var after := Fold(st, Items(log));
      && Congruent(CounterOr0(st, id) + ClientSums(log, n, id), CounterOr0(after, id))
      && (id in GaugeIds(Items(log)) ==>
            && id in after.gauges
            && exists c: nat, k: nat :: c < n && LastWrite(ItemsOf(log, c), k) && ItemsOf(log, c)[k].id == id
                 && ItemsOf(log, c)[k].value == Some(after.gauges[id]))
  {
    var after := Fold(st, Items(log));
    FoldCounter(st, Items(log), id);
    ClientsAddUp(log, n, id);
    WrapIsTheCongruentInt64(CounterOr0(st, id) + ClientSums(log, n, id), CounterOr0(after, id));
    FoldGauge(st, Items(log), id);
    if id in GaugeIds(Items(log)) {
      var i := LastWriteExists(Items(log), id);
      var k := LastWriteIsAClients(log, i);
    }
  }

  // ---------- GetAllMetrics ----------

  /** One entry an id; a counter hides a gauge of the same id. */
  function Merged(st: State): map<string, Metric> {
    map id | id in st.gauges.Keys + st.counters.Keys ::
      if id in st.counters then CounterMetric(id, st.counters[id]) else GaugeMetric(id, st.gauges[id])
  }

  class MemStorage {
    var gauges: map<string, Float64>
    var counters: map<string, Int64>

    ghost function Contents(): State
      reads this
    {
      State(gauges, counters)
    }

    constructor ()
      ensures Contents() == EMPTY
    {
      gauges, counters := map[], map[];
    }

    method UpdateGauge(id: string, value: Float64)
      modifies this
      ensures Contents() == SetGauge(old(Contents()), id, value)
    {
      gauges := gauges[id := value];
    }

    method UpdateCounter(id: string, delta: Int64)
      modifies this
      ensures Contents() == AddCounter(old(Contents()), id, delta)
    {
      var current := if id in counters then counters[id] else 0;
      counters := counters[id := Wrap(current + delta)];
    }

    method GetGauge(id: string) returns (r: Result<Float64, StorageError>)
      ensures r.Ok? <==> id in gauges
      ensures r == if id in gauges then Ok(gauges[id]) else Err(GaugeNotFound)
    {
      if id !in gauges {
        return Err(GaugeNotFound);
      }
      r := Ok(gauges[id]);
    }

    method GetCounter(id: string) returns (r: Result<Int64, StorageError>)
      ensures r.Ok? <==> id in counters
      ensures r == if id in counters then Ok(counters[id]) else Err(CounterNotFound)
    {
      if id !in counters {
        return Err(CounterNotFound);
      }
      r := Ok(counters[id]);
    }

    method GetAllMetrics() returns (metrics: map<string, Metric>)
      ensures metrics == Merged(Contents())
    {
      metrics := AllGauges();
      metrics := AddCounters(metrics);
      var all := Merged(Contents());
      assert metrics.Keys == all.Keys;
    }

    /** The first loop of GetAllMetrics. */
    method AllGauges() returns (metrics: map<string, Metric>)
      ensures metrics == map id | id in gauges :: GaugeMetric(id, gauges[id])
    {
      metrics := map[];
      var todo := gauges.Keys;
      while todo != {}
        invariant forall id :: id in todo ==> id in gauges
        invariant forall id :: id in metrics <==> id in gauges && id !in todo
        invariant forall id :: id in metrics ==> metrics[id] == GaugeMetric(id, gauges[id])
        decreases |todo|
      {
        var id :| id in todo;
        metrics := metrics[id := GaugeMetric(id, gauges[id])];
        todo := todo - {id};
      }
    }

    /** The second loop of GetAllMetrics: counters overwrite what is there. */
    method AddCounters(found: map<string, Metric>) returns (metrics: map<string, Metric>)
      ensures metrics == found + map id | id in counters :: CounterMetric(id, counters[id])
    {
      metrics := found;
      var todo := counters.Keys;
      while todo != {}
        invariant forall id :: id in todo ==> id in counters
        invariant forall id :: id in metrics <==> id in found || (id in counters && id !in todo)
        invariant forall id :: id in counters && id !in todo ==> metrics[id] == CounterMetric(id, counters[id])
        invariant forall id :: id in found && (id !in counters || id in todo) ==> metrics[id] == found[id]
        decreases |todo|
      {
        var id :| id in todo;
        metrics := metrics[id := CounterMetric(id, counters[id])];
        todo := todo - {id};
      }
    }

    method UpdateBatch(metrics: seq<Metric>)
      modifies this
      ensures Contents() == Fold(old(Contents()), metrics)
    {
      if |metrics| == 0 {
        return;
      }
      for i := 0 to |metrics|
        invariant Contents() == Fold(old(Contents()), metrics[..i])
      {
        var m := metrics[i];
        assert metrics[..i + 1][..i] == metrics[..i];
        if m.mtype == GAUGE {
          if m.value.Some? {
            gauges := gauges[m.id := m.value.value];
          }
        } else if m.mtype == COUNTER {
          if m.delta.Some? {
            var current := if m.id in counters then counters[m.id] else 0;
            counters := counters[m.id := Wrap(current + m.delta.value)];
          }
        }
      }
      assert metrics[..|metrics|] == metrics;
    }
  }
}
