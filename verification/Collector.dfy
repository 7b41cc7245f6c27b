/** Where the agent's metrics come from (internal/agent/collector.go and
    collectSystemMetrics in internal/agent/agent.go). */
module Collector {
  import opened Model
  import opened Agent

  const POLL_COUNT := "PollCount"
  const RANDOM_VALUE := "RandomValue"

  const GAUGE_METRICS: seq<string> := [
    "Alloc", "TotalAlloc", "Sys", "Lookups", "Mallocs", "Frees",
    "HeapAlloc", "HeapSys", "HeapIdle", "HeapInuse", "HeapReleased", "HeapObjects",
    "StackInuse", "StackSys", "MSpanInuse", "MSpanSys", "MCacheInuse", "MCacheSys",
    "BuckHashSys", "GCSys", "OtherSys", "NextGC", "LastGC", "PauseTotalNs",
    "NumGC", "NumForcedGC", "GCCPUFraction", RANDOM_VALUE]

  function Decimal(n: nat): (s: string)
    ensures s != ""
  {
    var digit := ["0", "1", "2", "3", "4", "5", "6", "7", "8", "9"][n % 10];
    if n < 10 then digit else Decimal(n / 10) + digit
  }

  class MetricsCollector {
    var pollCount: Int64

    constructor ()
      ensures pollCount == 0
    {
      pollCount := 0;
    }

    /** `stats` is what the runtime reports for each gauge name. */
    method CollectMetrics(stats: string -> Float64, random: Float64) returns (metrics: map<string, Metric>)
      modifies this
      ensures pollCount == Wrap(old(pollCount) + 1)
      ensures forall id :: id in metrics <==> id in GAUGE_METRICS || id == POLL_COUNT
      ensures POLL_COUNT in metrics && metrics[POLL_COUNT] == CounterMetric(POLL_COUNT, pollCount)
      ensures forall id :: id in metrics && id != POLL_COUNT ==>
        metrics[id] == GaugeMetric(id, if id == RANDOM_VALUE then random else stats(id))
      ensures GoodTable(metrics) && metrics != map[]
    {
      pollCount := Wrap(pollCount + 1);
      metrics := Gauges(GAUGE_METRICS, stats);
      metrics := metrics[POLL_COUNT := CounterMetric(POLL_COUNT, pollCount)];
      metrics := metrics[RANDOM_VALUE := GaugeMetric(RANDOM_VALUE, random)];
      GaugeNames();
      assert POLL_COUNT in metrics;
    }

    /** The loop over the gauge names. */
    static method Gauges(names: seq<string>, stats: string -> Float64) returns (metrics: map<string, Metric>)
      ensures forall id :: id in metrics <==> id in names && id != POLL_COUNT && id != RANDOM_VALUE
      ensures forall id :: id in metrics ==> metrics[id] == GaugeMetric(id, stats(id))
    {
      metrics := map[];
      for i := 0 to |names|
        invariant forall id :: id in metrics <==> id in names[..i] && id != POLL_COUNT && id != RANDOM_VALUE
        invariant forall id :: id in metrics ==> metrics[id] == GaugeMetric(id, stats(id))
      {
        var name := names[i];
        if name == POLL_COUNT || name == RANDOM_VALUE {
          continue;
        }
        metrics := metrics[name := GaugeMetric(name, stats(name))];
      }
    }
  }

  lemma GaugeNames()
    ensures RANDOM_VALUE in GAUGE_METRICS && "" !in GAUGE_METRICS && |GAUGE_METRICS| == 28
  {
    assert GAUGE_METRICS[27] == RANDOM_VALUE;
  }

  function CpuId(core: nat): (id: string)
    ensures id != ""
  {
    "CPUutilization" + Decimal(core + 1)
  }

  /** Cores count from 1. */
  lemma FirstCores()
    ensures CpuId(0) == "CPUutilization1" && CpuId(1) == "CPUutilization2" && CpuId(9) == "CPUutilization10"
  {
    assert Decimal(10) == Decimal(1) + "0";
  }

  /** The number a row of decimal digits stands for. */
  function Value(digits: string): int {
    if digits == "" then 0
    else Value(digits[..|digits| - 1]) * 10 + (digits[|digits| - 1] as int - '0' as int)
  }

  lemma {:induction false} DecimalReadsBack(n: nat)
    ensures Value(Decimal(n)) == n
  {
    var s, d := Decimal(n), n % 10;
    var digit := ["0", "1", "2", "3", "4", "5", "6", "7", "8", "9"][d];
    assert |digit| == 1 && digit[0] as int - '0' as int == d;
    if n < 10 {
      assert s[..0] == "";
    } else {
      DecimalReadsBack(n / 10);
      assert s[..|s| - 1] == Decimal(n / 10);
    }
  }

  /** No two cores share an id, and no core has the id of a memory gauge. */
  lemma CpuIdsAreDistinct(i: nat, j: nat)
    ensures CpuId(i) == CpuId(j) ==> i == j
    ensures CpuId(i) != "TotalMemory" && CpuId(i) != "FreeMemory"
  {
    DecimalReadsBack(i + 1);
    DecimalReadsBack(j + 1);
    assert CpuId(i)[14..] == Decimal(i + 1) && CpuId(j)[14..] == Decimal(j + 1);
    assert CpuId(i)[0] == 'C' && "TotalMemory"[0] == 'T' && "FreeMemory"[0] == 'F';
  }

  /** The gauges a probe's answers should give. */
  ghost predicate Reports(metrics: map<string, Metric>, memory: Option<(Float64, Float64)>, load: seq<Float64>) {
    && (forall id :: id in metrics <==>
          (memory.Some? && (id == "TotalMemory" || id == "FreeMemory")) || IsCore(id, |load|))
    && (memory.Some? ==>
          && metrics["TotalMemory"] == GaugeMetric("TotalMemory", memory.value.0)
          && metrics["FreeMemory"] == GaugeMetric("FreeMemory", memory.value.1))
    && (forall i :: 0 <= i < |load| ==> metrics[CpuId(i)] == GaugeMetric(CpuId(i), load[i]))
  }

  ghost predicate IsCore(id: string, n: nat) {
    exists i :: 0 <= i < n && CpuId(i) == id
  }

  /** Memory and per-core load; either probe may fail. What was probed, and nothing else, is
      reported, each value under its own id. */
  method CollectSystemMetrics(memory: Option<(Float64, Float64)>, load: Option<seq<Float64>>)
    returns (metrics: map<string, Metric>)
    ensures GoodTable(metrics)
    ensures Reports(metrics, memory, if load.Some? then load.value else [])
  {
    metrics := map[];
    if memory.Some? {
      metrics := metrics["TotalMemory" := GaugeMetric("TotalMemory", memory.value.0)];
      metrics := metrics["FreeMemory" := GaugeMetric("FreeMemory", memory.value.1)];
    }
    if load.None? {
      return;
    }
    assert load.value[..0] == [];
    for i := 0 to |load.value|
      invariant GoodTable(metrics)
      invariant Reports(metrics, memory, load.value[..i])
    {
      var id := CpuId(i);
      ghost var before := metrics;
      metrics := metrics[id := GaugeMetric(id, load.value[i])];
      OneMoreCore(before, memory, load.value, i);
    }
    assert load.value[..|load.value|] == load.value;
  }

  lemma OneMoreCore(metrics: map<string, Metric>, memory: Option<(Float64, Float64)>, load: seq<Float64>, i: nat)
    requires i < |load| && Reports(metrics, memory, load[..i])
    ensures Reports(metrics[CpuId(i) := GaugeMetric(CpuId(i), load[i])], memory, load[..i + 1])
  {
    forall j: nat | j < i
      ensures CpuId(j) != CpuId(i)
    {
      CpuIdsAreDistinct(i, j);
    }
    CpuIdsAreDistinct(i, i);
    forall id
      ensures IsCore(id, i + 1) <==> IsCore(id, i) || id == CpuId(i)
    {
      if IsCore(id, i) {
        var j :| 0 <= j < i && CpuId(j) == id;
        assert 0 <= j < i + 1 && CpuId(j) == id;
      }
      if id == CpuId(i) {
        assert 0 <= i < i + 1 && CpuId(i) == id;
      }
    }
  }
}
