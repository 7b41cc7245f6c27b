/** The metric record that travels between agent and server, and the two
    number types its fields have (internal/model/metrics.go). */
module Model {

  datatype Option<+T> = None | Some(value: T)

  datatype Result<+T, +E> = Ok(value: T) | Err(error: E)

  type Byte = b: int | 0 <= b < 256

  // ---------- int64 ----------

  const TWO63: int := 0x8000_0000_0000_0000
  const TWO64: int := 0x1_0000_0000_0000_0000

  type Int64 = i: int | -TWO63 <= i < TWO63

  predicate InRange(n: int) {
    -TWO63 <= n < TWO63
  }

  /** What int64 arithmetic stores for the exact result n. */
  function Wrap(n: int): (r: Int64) {
    (n + TWO63) % TWO64 - TWO63
  }

  ghost predicate Congruent(a: int, b: int) {
    exists k: int :: a == b + k * TWO64
  }

  /** Wrap(n) is the one int64 congruent to n modulo 2^64. */
  lemma WrapIsTheCongruentInt64(n: int, r: Int64)
    ensures Congruent(n, r) <==> r == Wrap(n)
  {
    var q := (n + TWO63) / TWO64;
    assert n == Wrap(n) + q * TWO64;
    if Congruent(n, r) {
      var k :| n == r + k * TWO64;
      assert (k - q) * TWO64 == Wrap(n) - r;
      assert -TWO64 < (k - q) * TWO64 < TWO64;
    }
  }

  lemma WrapAbsorbs(a: int, b: int)
    ensures Wrap(Wrap(a) + b) == Wrap(a + b)
  {
  }

  lemma WrapInRange(n: int)
    ensures Wrap(n) == n <==> InRange(n)
  {
  }

  // ---------- float64 ----------

  /** Gauges are stored and compared, never computed with. Every finite float64 is a whole
      number of units of 2^-1074. */
  datatype Float64 = Finite(units: int) | PosInf | NegInf | NaN

  const ZERO := Finite(0)

  // ---------- Metrics ----------

  const GAUGE := "gauge"
  const COUNTER := "counter"

  datatype Metric = Metric(id: string, mtype: string, delta: Option<Int64>, value: Option<Float64>, hash: string)

  function GaugeMetric(id: string, v: Float64): Metric {
    Metric(id, GAUGE, None, Some(v), "")
  }

  function CounterMetric(id: string, d: Int64): Metric {
    Metric(id, COUNTER, Some(d), None, "")
  }

  /** The item sets a gauge. */
  predicate SetsGauge(m: Metric) {
    m.mtype == GAUGE && m.value.Some?
  }

  /** The item adds to a counter. */
  predicate AddsCounter(m: Metric) {
    m.mtype == COUNTER && m.delta.Some?
  }

  /** The list holds the entries of the map, each once, in whatever order the map was walked. */
  ghost predicate Enumerates(list: seq<Metric>, all: map<string, Metric>) {
    && (forall m :: m in list ==> m.id in all && all[m.id] == m)
    && (forall id :: id in all ==> all[id] in list)
    && (forall i, j :: 0 <= i < j < |list| ==> list[i].id != list[j].id)
  }

  /** Some order of walking a map whose entries carry their own keys. */
  lemma {:induction false} SomeEnumeration(all: map<string, Metric>) returns (list: seq<Metric>)
    requires forall id :: id in all ==> all[id].id == id
    ensures Enumerates(list, all)
    decreases |all|
  {
    list := [];
    if all != map[] {
      var id :| id in all;
      var rest := map k | k in all && k != id :: all[k];
      assert rest.Keys == all.Keys - {id};
      var front := SomeEnumeration(rest);
      list := front + [all[id]];
      forall k | k in all
        ensures all[k] in list
      {
        if k == id {
          assert list[|front|] == all[id];
        } else {
          assert rest[k] in front;
        }
      }
    }
  }
}
