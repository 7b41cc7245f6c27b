/** The gRPC road from agent to service: encode, decode, apply
    (internal/agent/grpc_client.go, internal/grpcserver/server.go, proto/metrics/metrics.proto). */
module Grpc {
  import opened Model
  import opened Storage
  import opened Service
  import opened Agent

  // ---------- Messages ----------

  /** A proto3 enum is open: any number may arrive. */
  datatype MType = PB_GAUGE | PB_COUNTER | Unrecognized(n: int)

  /** Absent fields read as zero. */
  datatype PbMetric = PbMetric(id: string, mtype: MType, delta: Int64, value: Float64)

  function EncodeMetric(m: Metric): PbMetric {
    if m.mtype == GAUGE then PbMetric(m.id, PB_GAUGE, 0, if m.value.Some? then m.value.value else ZERO)
    else if m.mtype == COUNTER then PbMetric(m.id, PB_COUNTER, if m.delta.Some? then m.delta.value else 0, ZERO)
    else PbMetric(m.id, PB_GAUGE, 0, ZERO)
  }

  function DecodeMetric(p: PbMetric): Option<Metric> {
    match p.mtype
    case PB_GAUGE => Some(GaugeMetric(p.id, p.value))
    case PB_COUNTER => Some(CounterMetric(p.id, p.delta))
    case Unrecognized(_) => None
  }

  function Encoded(ms: seq<Metric>): seq<PbMetric> {
    if ms == [] then [] else Encoded(ms[..|ms| - 1]) + [EncodeMetric(ms[|ms| - 1])]
  }

  /** None as soon as one type is unrecognized. */
  function Decoded(ps: seq<PbMetric>): Option<seq<Metric>> {
    if ps == [] then Some([])
    else
      var front, last := Decoded(ps[..|ps| - 1]), DecodeMetric(ps[|ps| - 1]);
      if front.Some? && last.Some? then Some(front.value + [last.value]) else None
  }

  /** The loop of the client's SendBatch. */
  method EncodeBatch(metrics: seq<Metric>) returns (pbs: seq<PbMetric>)
    ensures pbs == Encoded(metrics)
  {
    pbs := [];
    for i := 0 to |metrics|
      invariant pbs == Encoded(metrics[..i])
    {
      var m := metrics[i];
      assert metrics[..i + 1][..i] == metrics[..i];
      var pm := PbMetric(m.id, PB_GAUGE, 0, ZERO);
      if m.mtype == GAUGE {
        pm := pm.(mtype := PB_GAUGE);
        if m.value.Some? {
          pm := pm.(value := m.value.value);
        }
      } else if m.mtype == COUNTER {
        pm := pm.(mtype := PB_COUNTER);
        if m.delta.Some? {
          pm := pm.(delta := m.delta.value);
        }
      }
      pbs := pbs + [pm];
    }
    assert metrics[..|metrics|] == metrics;
  }

  // ---------- What the round trip keeps ----------

  /** What decoding makes of an encoded item: a missing field becomes zero, and an unknown type a gauge. */
  function Normalized(m: Metric): Metric {
    if m.mtype == COUNTER then CounterMetric(m.id, if m.delta.Some? then m.delta.value else 0)
    else GaugeMetric(m.id, if m.mtype == GAUGE && m.value.Some? then m.value.value else ZERO)
  }

  function NormalizedAll(ms: seq<Metric>): seq<Metric> {
    seq(|ms|, i requires 0 <= i < |ms| => Normalized(ms[i]))
  }

  lemma {:induction false} DecodeOfEncode(ms: seq<Metric>)
    ensures Decoded(Encoded(ms)) == Some(NormalizedAll(ms))
    decreases |ms|
  {
    if ms == [] {
      assert NormalizedAll(ms) == [];
    } else {
      var front, last := ms[..|ms| - 1], ms[|ms| - 1];
      DecodeOfEncode(front);
      var ps := Encoded(ms);
      assert ps == Encoded(front) + [EncodeMetric(last)];
      assert ps[..|ps| - 1] == Encoded(front);
      assert DecodeMetric(ps[|ps| - 1]) == Some(Normalized(last));
      assert NormalizedAll(ms) == NormalizedAll(front) + [Normalized(last)];
    }
  }

  /** The item has exactly the field its type needs, and no hash. */
  predicate Exact(m: Metric) {
    m == Normalized(m)
  }

  lemma NormalizedWhenExact(ms: seq<Metric>)
    ensures NormalizedAll(ms) == ms <==> forall m :: m in ms ==> Exact(m)
  {
    if forall m :: m in ms ==> Exact(m) {
      forall i | 0 <= i < |ms|
        ensures NormalizedAll(ms)[i] == ms[i]
      {
        assert ms[i] in ms;
      }
    }
    if NormalizedAll(ms) == ms {
      forall m | m in ms
        ensures Exact(m)
      {
        var i :| 0 <= i < |ms| && ms[i] == m;
        assert NormalizedAll(ms)[i] == Normalized(m);
      }
    }
  }

  /** A batch survives encoding and decoding unchanged exactly when each of its items has
      just the field its type needs and no hash. */
  lemma GrpcRoundTrip(ms: seq<Metric>)
    ensures Decoded(Encoded(ms)) == Some(ms) <==> forall m :: m in ms ==> Exact(m)
  {
    DecodeOfEncode(ms);
    NormalizedWhenExact(ms);
  }

  /** Over gRPC the service accepts a batch in full exactly when no id is empty, even items
      it would refuse as they are. */
  lemma GrpcAcceptance(ms: seq<Metric>)
    ensures AllValid(NormalizedAll(ms)) <==> forall m :: m in ms ==> m.id != ""
    ensures AllValid(ms) ==> AllValid(NormalizedAll(ms))
  {
    var n := NormalizedAll(ms);
    assert forall i :: 0 <= i < |ms| ==> n[i] == Normalized(ms[i]) && n[i] in n && ms[i] in ms;
  }

  // ---------- The server ----------

  datatype Code = OK | InvalidArgument | Internal

  class MetricsServer {
    const svc: MetricsService

    constructor (svc: MetricsService)
      ensures this.svc == svc
    {
      this.svc := svc;
    }

    method DecodeBatch(req: seq<PbMetric>) returns (batch: Option<seq<Metric>>)
      ensures batch == Decoded(req)
    {
      var out: seq<Metric> := [];
      for i := 0 to |req|
        invariant Decoded(req[..i]) == Some(out)
      {
        var m := req[i];
        assert req[..i + 1][..i] == req[..i];
        var mm := Metric(m.id, "", None, None, "");
        match m.mtype {
          case PB_GAUGE => mm := mm.(mtype := GAUGE, value := Some(m.value));
          case PB_COUNTER => mm := mm.(mtype := COUNTER, delta := Some(m.delta));
          case Unrecognized(_) =>
            UnrecognizedStays(req, i + 1);
            return None;
        }
        out := out + [mm];
      }
      assert req[..|req|] == req;
      batch := Some(out);
    }

    /** An unrecognized type refuses the whole request; otherwise the longest valid prefix is
        applied, and the answer is OK exactly when that is everything. */
    method UpdateMetrics(req: seq<PbMetric>) returns (code: Code, applied: nat)
      modifies svc.repo
      ensures Decoded(req).None? ==> code == InvalidArgument && svc.repo.Contents() == old(svc.repo.Contents())
      ensures Decoded(req).Some? ==>
        && LongestValidPrefix(Decoded(req).value, applied)
        && svc.repo.Contents() == Fold(old(svc.repo.Contents()), Decoded(req).value[..applied])
        && (code == OK <==> AllValid(Decoded(req).value))
        && (code == Internal <==> !AllValid(Decoded(req).value))
    {
      var batch := DecodeBatch(req);
      applied := 0;
      if batch.None? {
        return InvalidArgument, 0;
      }
      var err;
      err, applied := svc.UpdateBatch(batch.value);
      code := if err.Some? then Internal else OK;
    }
  }

  lemma {:induction false} UnrecognizedStays(ps: seq<PbMetric>, n: nat)
    requires n <= |ps| && Decoded(ps[..n]).None?
    ensures Decoded(ps).None?
    decreases |ps|
  {
    if n == |ps| {
      assert ps[..n] == ps;
    } else {
      assert ps[..|ps| - 1][..n] == ps[..n];
      UnrecognizedStays(ps[..|ps| - 1], n);
    }
  }

  // ---------- The agent's own batches ----------

  /** Whatever batch the agent sends in a reachable state, the service accepts it in full,
      and the gRPC road hands it over unchanged. */
  lemma AgentBatchesAreAccepted(s: Agent.State, b: seq<Metric>)
    requires Reachable(s)
    requires b in s.enqueued || s.dispatcher == Sending(b) || s.closer == Final(b)
    ensures AllValid(b) && Decoded(Encoded(b)) == Some(b)
    ensures GaugeWritesAgree(b)
  {
    BatchesAreGood(s, b);
    GrpcRoundTrip(b);
  }
}
