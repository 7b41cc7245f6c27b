/** How often a batch is applied when the sender retries and the server may apply a batch
    and still answer with an error, or not at all (internal/agent/client.go against
    internal/handler/handler.go and internal/service/metrics_service.go). */
module Delivery {
  import opened Model
  import opened Storage
  import opened Service
  import opened Retry

  // ---------- One SendBatch, whatever stores the metrics ----------

  /** What the network and the server make of the attempts of one SendBatch: the answer to
      attempt k, and how many times it gets item i executed. */
  datatype Sending = Sending(exchange: nat -> Exchange, lands: (nat, nat) -> nat)

  predicate Acknowledges(x: Exchange) {
    !x.failed && x.status == Some(200)
  }

  function Last(s: Sending, limit: nat): nat {
    Returned(s.exchange, ShouldRetryHTTP, limit)
  }

  /** SendBatch returns nil. */
  predicate Sent(s: Sending, limit: nat) {
    Acknowledges(s.exchange(Last(s, limit)))
  }

  /** SendBatch, as far as its answers go: nil comes of an empty batch, or of a last exchange
      that is a 200. `payload` is what is put on the wire. */
  method SendBatch(batch: seq<Metric>, s: Sending, schedule: seq<nat>, payload: seq<Byte>, taken: nat -> nat)
    returns (ok: bool, attempts: nat)
    ensures batch == [] ==> ok && attempts == 0
    ensures batch != [] ==>
      && attempts == Last(s, |schedule|) + 1
      && (ok <==> s.exchange(attempts - 1) == Exchange(Some(200), false))
      && (ok <==> Sent(s, |schedule|))
  {
    if |batch| == 0 {
      return true, 0;
    }
    var r, sent, waits, closed := DoWithRetries(payload, Some(payload), schedule, s.exchange, (i: nat) => false, taken);
    attempts := |sent|;
    ok := false;
    if r.Got? && !r.x.failed && r.x.status.Some? {
      if r.x.status.value == 404 {
        return false, attempts;
      }
      ok := r.x.status.value == 200;
    }
  }

  function TimesBefore(s: Sending, n: nat, i: nat): nat {
    if n == 0 then 0 else TimesBefore(s, n - 1, i) + s.lands(n - 1, i)
  }

  /** How many times one SendBatch gets item i of its batch executed. */
  function Times(s: Sending, limit: nat, i: nat): nat {
    TimesBefore(s, Last(s, limit) + 1, i)
  }

  /** c times x, as repeated addition. */
  function Scaled(c: nat, x: int): int
    decreases c
  {
    if c == 0 then 0 else Scaled(c - 1, x) + x
  }

  lemma {:induction false} ScaledIsProduct(c: nat, x: int)
    ensures Scaled(c, x) == c * x
    decreases c
  {
    if c > 0 {
      ScaledIsProduct(c - 1, x);
      assert c * x == (c - 1) * x + x;
    }
  }

  lemma {:induction false} ScaledAdds(c: nat, x: int, y: int)
    ensures Scaled(c, x + y) == Scaled(c, x) + Scaled(c, y)
    decreases c
  {
    if c > 0 {
      ScaledAdds(c - 1, x, y);
    }
  }

  lemma {:induction false} ScaledGrows(n: nat, k: nat, x: int)
    requires n <= k && 0 <= x
    ensures 0 <= Scaled(n, x) <= Scaled(k, x)
    decreases k
  {
    if n < k {
      ScaledGrows(n, k - 1, x);
    } else if n > 0 {
      ScaledGrows(n - 1, k - 1, x);
    }
  }

  lemma ScaledTwice(a: nat, b: nat, x: int)
    ensures Scaled(a, Scaled(b, x)) == a * b * x
  {
    ScaledIsProduct(b, x);
    ScaledIsProduct(a, Scaled(b, x));
    assert a * (b * x) == a * b * x;
  }

  lemma {:induction false} EachAttemptCounts(s: Sending, n: nat, most: nat, i: nat)
    requires forall k :: s.lands(k, i) <= most
    ensures TimesBefore(s, n, i) <= Scaled(n, most)
    ensures n > 0 ==> TimesBefore(s, n, i) >= s.lands(n - 1, i)
  {
    if n > 0 {
      EachAttemptCounts(s, n - 1, most, i);
    }
  }

  /** If an attempt executes an item at most `most` times, a SendBatch does so at most
      limit + 1 times as often, and at least as often as its last attempt. */
  lemma DuplicationBound(s: Sending, limit: nat, most: nat, i: nat)
    requires forall k :: s.lands(k, i) <= most
    ensures s.lands(Last(s, limit), i) <= Times(s, limit, i) <= (limit + 1) * most
  {
    EachAttemptCounts(s, Last(s, limit) + 1, most, i);
    ScaledGrows(Last(s, limit) + 1, limit + 1, most);
    ScaledIsProduct(limit + 1, most);
  }

  // ---------- The server ----------

  type NoAck = x: Exchange | !Acknowledges(x) witness Exchange(None, true)

  /** What becomes of one request. Only the handler itself answers 200. */
  datatype Fate =
    | NeverArrives(x: NoAck)     // or is turned away before the handler
    | Dies(n: nat, x: NoAck)     // handler or server stops after n items
    | AnswerLost(x: NoAck)       // handled, but the sender sees something else
    | Answered

  /** How many items the service goes through. */
  function Reached(batch: seq<Metric>, fate: Fate): (n: nat)
    ensures n <= |batch|
  {
    var all := ValidLength(batch);
    match fate
    case NeverArrives(_) => 0
    case Dies(n, _) => if n < all then n else all
    case AnswerLost(_) => all
    case Answered => all
  }

  function Answer(batch: seq<Metric>, fate: Fate): Exchange {
    if fate.Answered? then Exchange(Some(BatchStatus(batch)), false) else fate.x
  }

  /** A server says 200 only after it went through the whole batch. */
  lemma AcknowledgedIsReached(batch: seq<Metric>, fate: Fate)
    requires Acknowledges(Answer(batch, fate))
    ensures AllValid(batch) && Reached(batch, fate) == |batch|
  {
    AcceptedMeansValid(batch);
    ValidLengthIsLongest(batch);
  }

  /** The in-memory and the file storage execute each item the service reaches, once. */
  function MemorySending(batch: seq<Metric>, fates: nat -> Fate): Sending {
    Sending((k: nat) => Answer(batch, fates(k)), (k: nat, i: nat) => if i < Reached(batch, fates(k)) then 1 else 0)
  }

  /** Over such a storage each item of a batch is executed at most limit + 1 times, and at
      least once if the sender was told that all went well. */
  lemma MemoryDelivery(batch: seq<Metric>, fates: nat -> Fate, limit: nat, i: nat)
    requires i < |batch|
    ensures var s := MemorySending(batch, fates);
      Times(s, limit, i) <= limit + 1 && (Sent(s, limit) ==> Times(s, limit, i) >= 1)
  {
    var s := MemorySending(batch, fates);
    DuplicationBound(s, limit, 1, i);
    if Sent(s, limit) {
      AcknowledgedIsReached(batch, fates(Last(s, limit)));
    }
  }

  lemma {:induction false} EachAttemptExecutes(s: Sending, n: nat, c: nat, i: nat)
    requires forall k :: s.lands(k, i) == c
    ensures TimesBefore(s, n, i) == Scaled(n, c)
  {
    if n > 0 {
      EachAttemptExecutes(s, n - 1, c, i);
    }
  }

  /** The sender gives up after limit + 1 answers of 503. */
  lemma AlwaysUnavailable(s: Sending, limit: nat)
    requires forall k :: s.exchange(k) == Exchange(Some(503), false)
    ensures Last(s, limit) == limit && !Sent(s, limit)
  {
  }

  /** The upper bound is met: a server that applies everything while a proxy answers 503 gets
      the batch limit + 1 times, and the sender reports failure. */
  lemma BoundIsTight(batch: seq<Metric>, limit: nat) returns (fates: nat -> Fate)
    requires AllValid(batch)
    ensures var s := MemorySending(batch, fates);
      !Sent(s, limit) && forall i: nat :: i < |batch| ==> Times(s, limit, i) == limit + 1
  {
    var unavailable: NoAck := Exchange(Some(503), false);
    fates := (k: nat) => AnswerLost(unavailable);
    var s := MemorySending(batch, fates);
    forall k: nat
      ensures s.exchange(k) == unavailable
    {
      assert fates(k) == AnswerLost(unavailable);
      assert s.exchange(k) == Answer(batch, fates(k));
    }
    AlwaysUnavailable(s, limit);
    ValidLengthIsLongest(batch);
    forall i: nat | i < |batch|
      ensures Times(s, limit, i) == limit + 1
    {
      forall k: nat
        ensures s.lands(k, i) == 1
      {
        assert fates(k) == AnswerLost(unavailable);
        assert Reached(batch, fates(k)) == |batch|;
      }
      EachAttemptExecutes(s, limit + 1, 1, i);
      ScaledIsProduct(limit + 1, 1);
    }
  }

  // ---------- What is executed, item by item ----------

  /** The first n items, as often as attempt k gets them executed. */
  function ExecutedIn(batch: seq<Metric>, s: Sending, k: nat, n: nat): seq<Metric>
    requires n <= |batch|
  {
    if n == 0 then [] else ExecutedIn(batch, s, k, n - 1) + Repeated([batch[n - 1]], s.lands(k, n - 1))
  }

  function ExecutedBefore(batch: seq<Metric>, s: Sending, n: nat): seq<Metric> {
    if n == 0 then [] else ExecutedBefore(batch, s, n - 1) + ExecutedIn(batch, s, n - 1, |batch|)
  }

  function Delivered(batch: seq<Metric>, s: Sending, limit: nat): seq<Metric> {
    ExecutedBefore(batch, s, Last(s, limit) + 1)
  }

  lemma {:induction false} FirstItemsExecuted(batch: seq<Metric>, fates: nat -> Fate, k: nat, n: nat)
    requires n <= |batch|
    ensures var r := Reached(batch, fates(k));
      ExecutedIn(batch, MemorySending(batch, fates), k, n) == batch[..if n < r then n else r]
  {
    if n > 0 {
      FirstItemsExecuted(batch, fates, k, n - 1);
      var m := [batch[n - 1]];
      assert Repeated(m, 0) == [] && Repeated(m, 1) == Repeated(m, 0) + m;
    }
  }

  /** Over the in-memory storage an attempt executes just the prefix the service reaches: the
      longest valid one, or what was got through before the stop, or nothing. */
  lemma MemoryExecutesPrefix(batch: seq<Metric>, fates: nat -> Fate, k: nat, longest: nat)
    requires LongestValidPrefix(batch, longest)
    ensures ExecutedIn(batch, MemorySending(batch, fates), k, |batch|) ==
      match fates(k)
      case NeverArrives(_) => []
      case Dies(n, _) => batch[..if n < longest then n else longest]
      case _ => batch[..longest]
  {
    FirstItemsExecuted(batch, fates, k, |batch|);
    ValidLengthIsLongest(batch);
    PrefixIsUnique(batch, longest, ValidLength(batch));
  }

  // ---------- Counters over a whole run ----------

  datatype Send = Send(batch: seq<Metric>, sending: Sending)

  function AllDelivered(sends: seq<Send>, limit: nat): seq<Metric> {
    if sends == [] then []
    else
      var last := sends[|sends| - 1];
      AllDelivered(sends[..|sends| - 1], limit) + Delivered(last.batch, last.sending, limit)
  }

  /** The sum of one counter's deltas over all batches the agent tried to send, ... */
  function AttemptedSum(sends: seq<Send>, id: string): int {
    if sends == [] then 0
    else AttemptedSum(sends[..|sends| - 1], id) + DeltaSum(sends[|sends| - 1].batch, id)
  }

  /** ... over those whose SendBatch returned nil, ... */
  function AcknowledgedSum(sends: seq<Send>, limit: nat, id: string): int {
    if sends == [] then 0
    else
      var last := sends[|sends| - 1];
      AcknowledgedSum(sends[..|sends| - 1], limit, id)
        + if Sent(last.sending, limit) then DeltaSum(last.batch, id) else 0
  }

  /** The deltas of those of the first n items that attempt k executed. */
  function KeptIn(batch: seq<Metric>, s: Sending, k: nat, n: nat, id: string): int
    requires n <= |batch|
  {
    if n == 0 then 0
    else KeptIn(batch, s, k, n - 1, id) + if s.lands(k, n - 1) >= 1 then DeltaOf(batch[n - 1], id) else 0
  }

  /** ... and over the items that the attempts which made it return nil executed. */
  function KeptSum(sends: seq<Send>, limit: nat, id: string): int {
    if sends == [] then 0
    else
      var last := sends[|sends| - 1];
      var s := last.sending;
      KeptSum(sends[..|sends| - 1], limit, id)
        + if Sent(s, limit) then KeptIn(last.batch, s, Last(s, limit), |last.batch|, id) else 0
  }

  predicate NonNegativeDeltas(batch: seq<Metric>, id: string) {
    forall m :: m in batch ==> DeltaOf(m, id) >= 0
  }

  ghost predicate AllNonNegative(sends: seq<Send>, id: string) {
    forall i :: 0 <= i < |sends| ==> NonNegativeDeltas(sends[i].batch, id)
  }

  ghost predicate AtMost(batch: seq<Metric>, s: Sending, most: nat) {
    forall k: nat, i: nat :: i < |batch| ==> s.lands(k, i) <= most
  }

  ghost predicate AllAtMost(sends: seq<Send>, most: nat) {
    forall i :: 0 <= i < |sends| ==> AtMost(sends[i].batch, sends[i].sending, most)
  }

  lemma {:induction false} RepeatedSum(m: Metric, n: nat, id: string)
    ensures DeltaSum(Repeated([m], n), id) == Scaled(n, DeltaOf(m, id))
  {
    if n > 0 {
      RepeatedSum(m, n - 1, id);
      DeltaSumConcat(Repeated([m], n - 1), [m], id);
      assert [m][..0] == [];
      assert DeltaSum([m], id) == DeltaSum([m][..0], id) + DeltaOf(m, id);
    }
  }

  lemma OneItemSum(m: Metric, n: nat, most: nat, id: string)
    requires DeltaOf(m, id) >= 0 && n <= most
    ensures 0 <= DeltaSum(Repeated([m], n), id) <= Scaled(most, DeltaOf(m, id))
    ensures (if n >= 1 then DeltaOf(m, id) else 0) <= DeltaSum(Repeated([m], n), id)
  {
    RepeatedSum(m, n, id);
    ScaledGrows(n, most, DeltaOf(m, id));
    if n >= 1 {
      ScaledGrows(1, n, DeltaOf(m, id));
      ScaledIsProduct(1, DeltaOf(m, id));
    }
  }

  lemma {:induction false} AttemptSum(batch: seq<Metric>, s: Sending, k: nat, n: nat, most: nat, id: string)
    requires n <= |batch| && NonNegativeDeltas(batch, id) && AtMost(batch, s, most)
    ensures 0 <= DeltaSum(batch[..n], id)
    ensures 0 <= DeltaSum(ExecutedIn(batch, s, k, n), id) <= Scaled(most, DeltaSum(batch[..n], id))
    ensures 0 <= KeptIn(batch, s, k, n, id) <= DeltaSum(ExecutedIn(batch, s, k, n), id)
  {
    if n == 0 {
      assert batch[..0] == [] && DeltaSum([], id) == 0;
      ScaledIsProduct(most, 0);
    } else {
      var m := batch[n - 1];
      AttemptSum(batch, s, k, n - 1, most, id);
      assert m in batch;
      OneItemSum(m, s.lands(k, n - 1), most, id);
      assert batch[..n][..n - 1] == batch[..n - 1];
      ScaledAdds(most, DeltaSum(batch[..n - 1], id), DeltaOf(m, id));
      DeltaSumConcat(ExecutedIn(batch, s, k, n - 1), Repeated([m], s.lands(k, n - 1)), id);
    }
  }

  lemma WholeAttemptSum(batch: seq<Metric>, s: Sending, k: nat, most: nat, id: string)
    requires NonNegativeDeltas(batch, id) && AtMost(batch, s, most)
    ensures 0 <= DeltaSum(batch, id)
    ensures 0 <= KeptIn(batch, s, k, |batch|, id) <= DeltaSum(ExecutedIn(batch, s, k, |batch|), id)
    ensures DeltaSum(ExecutedIn(batch, s, k, |batch|), id) <= Scaled(most, DeltaSum(batch, id))
  {
    assert batch[..|batch|] == batch;
    AttemptSum(batch, s, k, |batch|, most, id);
  }

  lemma ExecutedNext(batch: seq<Metric>, s: Sending, n: nat, id: string)
    requires n > 0
    ensures DeltaSum(ExecutedBefore(batch, s, n), id)
         == DeltaSum(ExecutedBefore(batch, s, n - 1), id) + DeltaSum(ExecutedIn(batch, s, n - 1, |batch|), id)
  {
    DeltaSumConcat(ExecutedBefore(batch, s, n - 1), ExecutedIn(batch, s, n - 1, |batch|), id);
  }

  lemma {:induction false} AttemptsSum(batch: seq<Metric>, s: Sending, n: nat, whole: int, id: string)
    requires forall k: nat :: 0 <= DeltaSum(ExecutedIn(batch, s, k, |batch|), id) <= whole
    ensures 0 <= DeltaSum(ExecutedBefore(batch, s, n), id) <= Scaled(n, whole)
    ensures n > 0 ==>
      DeltaSum(ExecutedIn(batch, s, n - 1, |batch|), id) <= DeltaSum(ExecutedBefore(batch, s, n), id)
  {
    if n > 0 {
      AttemptsSum(batch, s, n - 1, whole, id);
      ExecutedNext(batch, s, n, id);
    }
  }

  function Cap(limit: nat, most: nat, x: int): int {
    Scaled(limit + 1, Scaled(most, x))
  }

  lemma OneSend(send: Send, limit: nat, most: nat, id: string)
    requires NonNegativeDeltas(send.batch, id) && AtMost(send.batch, send.sending, most)
    ensures var sum, got := DeltaSum(send.batch, id), DeltaSum(Delivered(send.batch, send.sending, limit), id);
      && 0 <= sum
      && 0 <= got <= Cap(limit, most, sum)
      && 0 <= KeptIn(send.batch, send.sending, Last(send.sending, limit), |send.batch|, id) <= got
  {
    var n, whole := Last(send.sending, limit) + 1, Scaled(most, DeltaSum(send.batch, id));
    forall k: nat
      ensures 0 <= DeltaSum(ExecutedIn(send.batch, send.sending, k, |send.batch|), id) <= whole
    {
      WholeAttemptSum(send.batch, send.sending, k, most, id);
    }
    WholeAttemptSum(send.batch, send.sending, n - 1, most, id);
    AttemptsSum(send.batch, send.sending, n, whole, id);
    ScaledGrows(n, limit + 1, whole);
  }

  lemma DeliveredNext(sends: seq<Send>, limit: nat, id: string)
    requires sends != []
    ensures var last := sends[|sends| - 1];
      DeltaSum(AllDelivered(sends, limit), id)
      == DeltaSum(AllDelivered(sends[..|sends| - 1], limit), id) + DeltaSum(Delivered(last.batch, last.sending, limit), id)
  {
    var last := sends[|sends| - 1];
    DeltaSumConcat(AllDelivered(sends[..|sends| - 1], limit), Delivered(last.batch, last.sending, limit), id);
  }

  lemma {:induction false} RunAtLeast(sends: seq<Send>, limit: nat, most: nat, id: string)
    requires AllNonNegative(sends, id) && AllAtMost(sends, most)
    ensures 0 <= KeptSum(sends, limit, id) <= DeltaSum(AllDelivered(sends, limit), id)
    decreases |sends|
  {
    if sends != [] {
      RunAtLeast(sends[..|sends| - 1], limit, most, id);
      OneSend(sends[|sends| - 1], limit, most, id);
      DeliveredNext(sends, limit, id);
    }
  }

  /** Each batch counted as often as it can be executed. */
  function CapSum(sends: seq<Send>, limit: nat, most: nat, id: string): int {
    if sends == [] then 0
    else CapSum(sends[..|sends| - 1], limit, most, id) + Cap(limit, most, DeltaSum(sends[|sends| - 1].batch, id))
  }

  lemma {:induction false} RunAtMost(sends: seq<Send>, limit: nat, most: nat, id: string)
    requires AllNonNegative(sends, id) && AllAtMost(sends, most)
    ensures DeltaSum(AllDelivered(sends, limit), id) <= CapSum(sends, limit, most, id)
    decreases |sends|
  {
    if sends != [] {
      RunAtMost(sends[..|sends| - 1], limit, most, id);
      OneSend(sends[|sends| - 1], limit, most, id);
      DeliveredNext(sends, limit, id);
    }
  }

  lemma CapAdds(limit: nat, most: nat, x: int, y: int)
    ensures Cap(limit, most, x + y) == Cap(limit, most, x) + Cap(limit, most, y)
  {
    ScaledAdds(most, x, y);
    ScaledAdds(limit + 1, Scaled(most, x), Scaled(most, y));
  }

  lemma {:induction false} CapIsScaled(sends: seq<Send>, limit: nat, most: nat, id: string)
    ensures CapSum(sends, limit, most, id) == Cap(limit, most, AttemptedSum(sends, id))
    decreases |sends|
  {
    if sends == [] {
      ScaledTwice(limit + 1, most, 0);
    } else {
      var front := sends[..|sends| - 1];
      CapIsScaled(front, limit, most, id);
      CapAdds(limit, most, AttemptedSum(front, id), DeltaSum(sends[|sends| - 1].batch, id));
    }
  }

  /** Over any run, and in whatever order the server executes the items of concurrent sends:
      the deltas executed add up to at least those of the items kept, and to at most
      (limit + 1) * most times those attempted. */
  lemma ExecutedRange(sends: seq<Send>, limit: nat, most: nat, id: string, log: seq<Metric>)
    requires AllNonNegative(sends, id) && AllAtMost(sends, most)
    requires multiset(log) == multiset(AllDelivered(sends, limit))
    ensures 0 <= KeptSum(sends, limit, id) <= DeltaSum(log, id) <= (limit + 1) * most * AttemptedSum(sends, id)
  {
    RunAtLeast(sends, limit, most, id);
    RunAtMost(sends, limit, most, id);
    CapIsScaled(sends, limit, most, id);
    ScaledTwice(limit + 1, most, AttemptedSum(sends, id));
    DeltaSumPermutes(log, AllDelivered(sends, limit), id);
  }

  // ---------- Counters over the in-memory and the file storage ----------

  ghost predicate ToMemory(send: Send) {
    exists fates: nat -> Fate :: send.sending == MemorySending(send.batch, fates)
  }

  ghost predicate OverMemory(sends: seq<Send>) {
    forall j :: 0 <= j < |sends| ==> ToMemory(sends[j])
  }

  lemma {:induction false} AllKept(batch: seq<Metric>, s: Sending, k: nat, n: nat, id: string)
    requires n <= |batch| && forall i: nat :: i < n ==> s.lands(k, i) >= 1
    ensures KeptIn(batch, s, k, n, id) == DeltaSum(batch[..n], id)
  {
    if n > 0 {
      AllKept(batch, s, k, n - 1, id);
      assert batch[..n][..n - 1] == batch[..n - 1];
    }
  }

  lemma {:induction false} AcknowledgedIsKept(sends: seq<Send>, limit: nat, id: string)
    requires OverMemory(sends)
    ensures KeptSum(sends, limit, id) == AcknowledgedSum(sends, limit, id)
    decreases |sends|
  {
    if sends != [] {
      var last := sends[|sends| - 1];
      AcknowledgedIsKept(sends[..|sends| - 1], limit, id);
      assert ToMemory(last);
      var fates: nat -> Fate :| last.sending == MemorySending(last.batch, fates);
      if Sent(last.sending, limit) {
        AcknowledgedIsReached(last.batch, fates(Last(last.sending, limit)));
        AllKept(last.batch, last.sending, Last(last.sending, limit), |last.batch|, id);
        assert last.batch[..|last.batch|] == last.batch;
      }
    }
  }

  lemma MemoryExecutesOnce(sends: seq<Send>)
    requires OverMemory(sends)
    ensures AllAtMost(sends, 1)
  {
    forall j | 0 <= j < |sends|
      ensures AtMost(sends[j].batch, sends[j].sending, 1)
    {
      assert ToMemory(sends[j]);
      var fates: nat -> Fate :| sends[j].sending == MemorySending(sends[j].batch, fates);
    }
  }

  lemma OnceRange(sends: seq<Send>, limit: nat, id: string, log: seq<Metric>)
    requires OverMemory(sends) && AllNonNegative(sends, id)
    requires multiset(log) == multiset(AllDelivered(sends, limit))
    ensures 0 <= AcknowledgedSum(sends, limit, id) <= DeltaSum(log, id) <= (limit + 1) * AttemptedSum(sends, id)
  {
    MemoryExecutesOnce(sends);
    AcknowledgedIsKept(sends, limit, id);
    ExecutedRange(sends, limit, 1, id, log);
  }

  lemma {:induction false} OnlyItemIsRepeated(m: Metric, n: nat, x: Metric)
    requires x in Repeated([m], n)
    ensures x == m
    decreases n
  {
    if x in Repeated([m], n - 1) {
      OnlyItemIsRepeated(m, n - 1, x);
    }
  }

  lemma {:induction false} OnlyItemsAreExecuted(batch: seq<Metric>, s: Sending, k: nat, n: nat, x: Metric)
    requires n <= |batch| && x in ExecutedIn(batch, s, k, n)
    ensures x in batch
    decreases n
  {
    if x in ExecutedIn(batch, s, k, n - 1) {
      OnlyItemsAreExecuted(batch, s, k, n - 1, x);
    } else {
      OnlyItemIsRepeated(batch[n - 1], s.lands(k, n - 1), x);
    }
  }

  lemma {:induction false} OnlyItemsAreDelivered(batch: seq<Metric>, s: Sending, n: nat, x: Metric)
    requires x in ExecutedBefore(batch, s, n)
    ensures x in batch
    decreases n
  {
    if x in ExecutedBefore(batch, s, n - 1) {
      OnlyItemsAreDelivered(batch, s, n - 1, x);
    } else {
      OnlyItemsAreExecuted(batch, s, n - 1, |batch|, x);
    }
  }

  lemma {:induction false} DeliveredNonNegative(sends: seq<Send>, limit: nat, id: string)
    requires AllNonNegative(sends, id)
    ensures NonNegativeDeltas(AllDelivered(sends, limit), id)
    decreases |sends|
  {
    if sends != [] {
      var front, last := sends[..|sends| - 1], sends[|sends| - 1];
      DeliveredNonNegative(front, limit, id);
      forall x | x in AllDelivered(sends, limit)
        ensures DeltaOf(x, id) >= 0
      {
        if x !in AllDelivered(front, limit) {
          OnlyItemsAreDelivered(last.batch, last.sending, Last(last.sending, limit) + 1, x);
        }
      }
    }
  }
}
