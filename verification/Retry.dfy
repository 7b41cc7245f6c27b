/** The three retry loops and the one rule they all follow
    (internal/agent/client.go, internal/repository/pgstorage.go). */
module Retry {
  import opened Model

  /** Seconds waited before the second, third and fourth attempt. */
  const SCHEDULE: seq<nat> := [1, 3, 5]

  /** Index of the attempt whose outcome is handed back: the first that should not be
      retried, or the last one the schedule allows. */
  ghost predicate ReturnedAttempt<T>(outcome: nat -> T, retryable: T -> bool, limit: nat, k: nat) {
    && k <= limit
    && (forall j :: 0 <= j < k ==> retryable(outcome(j)))
    && (k < limit ==> !retryable(outcome(k)))
  }

  lemma ReturnedAttemptIsUnique<T>(outcome: nat -> T, retryable: T -> bool, limit: nat, j: nat, k: nat)
    requires ReturnedAttempt(outcome, retryable, limit, j) && ReturnedAttempt(outcome, retryable, limit, k)
    ensures j == k
  {
  }

  function Returned<T>(outcome: nat -> T, retryable: T -> bool, limit: nat, from: nat := 0): (k: nat)
    requires from <= limit
    ensures from <= k <= limit
    ensures forall j :: from <= j < k ==> retryable(outcome(j))
    ensures k < limit ==> !retryable(outcome(k))
    decreases limit - from
  {
    if from == limit || !retryable(outcome(from)) then from else Returned(outcome, retryable, limit, from + 1)
  }

  // ---------- Database errors ----------

  datatype PgError = Success | BadConn | NoRows | Pg(code: string) | OtherError

  const CONNECTION_CODES := {"08000", "08003", "08006", "08001", "08004", "08007", "08P01"}
  const ROLLBACK_CODES := {"40000", "40001", "40P01"}
  const CANNOT_CONNECT_NOW := "57P03"

  function IsPGConnException(e: PgError): bool {
    match e
    case Success => false
    case BadConn => true
    case Pg(code) =>
      if "08" <= code then true
      else if "40" <= code then true
      else if code in CONNECTION_CODES then true
      else if code in ROLLBACK_CODES then true
      else code == CANNOT_CONNECT_NOW
    case _ => false
  }

  /** The two long lists of codes add nothing to the two class prefixes. */
  lemma RetryableErrors(e: PgError)
    ensures IsPGConnException(e) <==>
      e == BadConn || (e.Pg? && ("08" <= e.code || "40" <= e.code || e.code == "57P03"))
  {
    assert forall code :: code in CONNECTION_CODES ==> "08" <= code;
    assert forall code :: code in ROLLBACK_CODES ==> "40" <= code;
  }

  /** retryPG: `outcome(i)` is what the i-th call of the closure returns. */
  method RetryPG(outcome: nat -> PgError) returns (err: PgError, calls: nat, waits: seq<nat>)
    ensures 1 <= calls <= 4
    ensures ReturnedAttempt(outcome, IsPGConnException, |SCHEDULE|, calls - 1)
    ensures err == outcome(calls - 1)
    ensures waits == [1, 3, 5][..calls - 1]
  {
    waits := [];
    calls := 0;
    var attempts := |SCHEDULE| + 1;
    var lastErr := Success;
    var i := 0;
    while i < attempts
      invariant 0 <= i <= |SCHEDULE|
      invariant calls == i && waits == SCHEDULE[..i]
      invariant forall j :: 0 <= j < i ==> IsPGConnException(outcome(j))
      decreases attempts - i
    {
      var e := outcome(i);
      calls := calls + 1;
      if e == Success {
        return Success, calls, waits;
      }
      lastErr := e;
      if !IsPGConnException(e) || i == |SCHEDULE| {
        return e, calls, waits;
      }
      waits := waits + [SCHEDULE[i]];
      i := i + 1;
    }
    err := lastErr;
  }

  /** The loop inside queryAllMetrics, which breaks out instead of returning. */
  method RetryQuery(outcome: nat -> PgError) returns (err: PgError, calls: nat, waits: seq<nat>)
    ensures 1 <= calls <= 4
    ensures ReturnedAttempt(outcome, IsPGConnException, |SCHEDULE|, calls - 1)
    ensures err == outcome(calls - 1)
    ensures waits == [1, 3, 5][..calls - 1]
  {
    waits := [];
    calls := 0;
    err := Success;
    var i := 0;
    while i < |SCHEDULE| + 1
      invariant 0 <= i <= |SCHEDULE|
      invariant calls == i && waits == SCHEDULE[..i]
      invariant forall j :: 0 <= j < i ==> IsPGConnException(outcome(j))
      decreases |SCHEDULE| + 1 - i
    {
      err := outcome(i);
      calls := calls + 1;
      if err == Success || !IsPGConnException(err) || i == |SCHEDULE| {
        break;
      }
      waits := waits + [SCHEDULE[i]];
      i := i + 1;
    }
  }

  // ---------- HTTP ----------

  /** What one exchange gives: a response (with an open body), or an error, or both. */
  datatype Exchange = Exchange(status: Option<nat>, failed: bool)

  predicate ShouldRetryHTTP(x: Exchange) {
    if x.failed then true else x.status.Some? && x.status.value >= 500
  }

  datatype HttpResult = Got(x: Exchange) | Cancelled

  function Drop(bytes: seq<Byte>, n: nat): seq<Byte> {
    if n <= |bytes| then bytes[n..] else []
  }

  /** What is left of the request body when attempt i starts. An attempt may read any part of
      the body, `taken(i)` bytes of it; only GetBody gives a fresh copy. */
  function BodyAt(content: seq<Byte>, getBody: Option<seq<Byte>>, taken: nat -> nat, i: nat): seq<Byte> {
    if i == 0 then content
    else if getBody.Some? then getBody.value
    else Drop(BodyAt(content, getBody, taken, i - 1), taken(i - 1))
  }

  lemma {:induction false} FreshOrUntouched(content: seq<Byte>, getBody: Option<seq<Byte>>, taken: nat -> nat, i: nat)
    requires getBody == Some(content) || (getBody == None && forall j: nat :: j < i ==> taken(j) == 0)
    ensures BodyAt(content, getBody, taken, i) == content
  {
    if i > 0 {
      FreshOrUntouched(content, getBody, taken, i - 1);
    }
  }

  ghost predicate SameBodies(content: seq<Byte>, getBody: Option<seq<Byte>>, taken: nat -> nat, n: nat) {
    forall i: nat :: i <= n ==> BodyAt(content, getBody, taken, i) == content
  }

  /** GetBody makes all attempts send the same bytes. Without it they do so exactly
      when no attempt but the last reads any of them. */
  lemma SameBodyEachTime(content: seq<Byte>, getBody: Option<seq<Byte>>, taken: nat -> nat, n: nat)
    requires getBody == None || getBody == Some(content)
    ensures SameBodies(content, getBody, taken, n) <==>
      getBody.Some? || content == [] || forall i: nat :: i < n ==> taken(i) == 0
  {
    if getBody.Some? || forall i: nat :: i < n ==> taken(i) == 0 {
      forall i: nat | i <= n
        ensures BodyAt(content, getBody, taken, i) == content
      {
        FreshOrUntouched(content, getBody, taken, i);
      }
    } else if content == [] {
      NothingToSend(taken, n);
    } else if SameBodies(content, getBody, taken, n) {
      forall i: nat | i < n
        ensures taken(i) == 0
      {
        assert BodyAt(content, getBody, taken, i + 1) == Drop(content, taken(i));
        assert |Drop(content, taken(i))| == |content|;
      }
    }
  }

  lemma {:induction false} NothingToSend(taken: nat -> nat, n: nat)
    ensures SameBodies([], None, taken, n)
  {
    if n > 0 {
      NothingToSend(taken, n - 1);
    }
  }

  /** The bodies of the first n attempts. */
  function Bodies(content: seq<Byte>, getBody: Option<seq<Byte>>, taken: nat -> nat, n: nat): (r: seq<seq<Byte>>)
    ensures |r| == n
  {
    if n == 0 then []
    else Bodies(content, getBody, taken, n - 1) + [BodyAt(content, getBody, taken, n - 1)]
  }

  /** retryHTTPClient.Do. `cancelAt(i)` says the context is done during the wait before attempt i. */
  method DoWithRetries(content: seq<Byte>, getBody: Option<seq<Byte>>, schedule: seq<nat>,
                       exchange: nat -> Exchange, cancelAt: nat -> bool, taken: nat -> nat)
    returns (r: HttpResult, sent: seq<seq<Byte>>, waits: seq<nat>, closed: set<nat>)
    ensures 1 <= |sent| <= |schedule| + 1
    ensures r.Got? ==>
      |sent| - 1 == Returned(exchange, ShouldRetryHTTP, |schedule|) && r.x == exchange(|sent| - 1)
    ensures r.Cancelled? ==> |sent| <= Returned(exchange, ShouldRetryHTTP, |schedule|) && cancelAt(|sent|)
    ensures forall j: nat :: 1 <= j < |sent| ==> !cancelAt(j)
    ensures waits == schedule[..|sent| - 1]
    ensures sent == Bodies(content, getBody, taken, |sent|)
    // attempts before the last failed or were answered 500 and up; one handed back early was neither
    ensures forall j: nat :: j < (if r.Got? then |sent| - 1 else |sent|) ==>
      exchange(j).failed || (exchange(j).status.Some? && exchange(j).status.value >= 500)
    ensures r.Got? && |sent| <= |schedule| ==>
      !r.x.failed && (r.x.status.Some? ==> r.x.status.value < 500)
    // every response is closed, except the one handed back
    ensures forall j: nat :: j in closed <==>
      j < |sent| && exchange(j).status.Some? && !(r.Got? && j == |sent| - 1)
  {
    ghost var last := Returned(exchange, ShouldRetryHTTP, |schedule|);
    sent, waits, closed := [], [], {};
    var body := content;
    var attempts := |schedule| + 1;
    var i := 0;
    while i < attempts
      invariant 0 <= i <= last
      invariant |sent| == i
      invariant |waits| <= |schedule| && |waits| == (if i == 0 then 0 else i - 1)
      invariant waits == schedule[..|waits|]
      invariant forall j: nat :: 1 <= j < i ==> !cancelAt(j)
      invariant sent == Bodies(content, getBody, taken, i)
      invariant i == 0 ==> body == content
      invariant i > 0 && getBody.None? ==> body == BodyAt(content, getBody, taken, i)
      invariant forall j: nat :: j in closed <==> j < i && exchange(j).status.Some?
      decreases attempts - i
    {
      if i > 0 {
        if cancelAt(i) {
          return Cancelled, sent, waits, closed;
        }
        waits := waits + [schedule[i - 1]];
        if getBody.Some? {
          body := getBody.value;
        }
      }
      assert body == BodyAt(content, getBody, taken, i);
      sent := sent + [body];
      body := Drop(body, taken(i));
      var x := exchange(i);
      if !ShouldRetryHTTP(x) || i == |schedule| {
        return Got(x), sent, waits, closed;
      }
      if x.status.Some? {
        closed := closed + {i};
      }
      i := i + 1;
    }
    assert false;
  }
}
