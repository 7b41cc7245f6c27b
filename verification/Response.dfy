/** The response writers: buffering, compression and signing of whatever a handler
    writes (internal/middleware/gzip.go). */
module Response {
  import opened Model
  import opened Pipeline

  const STATUS_OK: nat := 200

  type Headers = map<string, string>

  /** What a handler does with its ResponseWriter. */
  datatype Event = Write(bytes: seq<Byte>) | WriteHeader(code: nat) | SetHeader(name: string, value: string)

  /** What goes out on the wire. */
  datatype Reply = Reply(status: nat, headers: Headers, body: seq<Byte>)

  function Get(h: Headers, name: string): string {
    if name in h then h[name] else ""
  }

  // ---------- What a trace of calls amounts to ----------

  function Written(trace: seq<Event>): seq<Byte> {
    if trace == [] then []
    else
      var last := trace[|trace| - 1];
      Written(trace[..|trace| - 1]) + if last.Write? then last.bytes else []
  }

  function HeadersSet(start: Headers, trace: seq<Event>): Headers {
    if trace == [] then start
    else
      var before, last := HeadersSet(start, trace[..|trace| - 1]), trace[|trace| - 1];
      if last.SetHeader? then before[last.name := last.value] else before
  }

  /** The code of the first WriteHeader call, 0 if there is none. */
  function FirstCode(trace: seq<Event>): nat {
    if trace == [] then 0
    else if trace[0].WriteHeader? then trace[0].code
    else FirstCode(trace[1..])
  }

  predicate SetsStatus(trace: seq<Event>) {
    trace != [] && (trace[0].WriteHeader? || SetsStatus(trace[1..]))
  }

  /** net/http sends no body with these, and its Write refuses one. */
  predicate BodyAllowed(status: nat) {
    status != 204 && status != 304
  }

  /** What of the bytes goes out under the status. */
  function BodyUnder(status: nat, bytes: seq<Byte>): seq<Byte> {
    if BodyAllowed(status) then bytes else []
  }

  /** The status net/http sends when nothing stands between: a write before any WriteHeader means 200. */
  function DirectStatus(trace: seq<Event>): nat {
    if trace == [] then STATUS_OK
    else if trace[0].WriteHeader? then trace[0].code
    else if trace[0].Write? then STATUS_OK
    else DirectStatus(trace[1..])
  }

  function OrDefault(code: nat): nat {
    if code == 0 then STATUS_OK else code
  }

  function BufferedStatus(trace: seq<Event>): nat {
    OrDefault(FirstCode(trace))
  }

  // ---------- The writers ----------

  /** The server's own ResponseWriter: the first WriteHeader, or the first Write, sends the headers. */
  class ServerWriter {
    var headers: Headers
    var sent: Option<(nat, Headers)>
    var body: seq<Byte>

    constructor (headers: Headers)
      ensures this.headers == headers && sent == None && body == []
    {
      this.headers, sent, body := headers, None, [];
    }

    /** What the client gets if the handler returns now. */
    function Result(): Reply
      reads this
    {
      var (status, h) := if sent.Some? then sent.value else (STATUS_OK, headers);
      Reply(status, h, body)
    }

    method WriteHeader(code: nat)
      modifies this
      ensures headers == old(headers) && body == old(body)
      ensures sent == if old(sent).Some? then old(sent) else Some((code, headers))
    {
      if sent.None? {
        sent := Some((code, headers));
      }
    }

    method Write(b: seq<Byte>)
      modifies this
      ensures headers == old(headers)
      ensures sent == if old(sent).Some? then old(sent) else Some((STATUS_OK, headers))
      ensures sent.Some? && body == old(body) + BodyUnder(sent.value.0, b)
    {
      if sent.None? {
        WriteHeader(STATUS_OK);
      }
      if !BodyAllowed(sent.value.0) {
        return;
      }
      body := body + b;
    }
  }

  class ContentWriter {
    const inner: ServerWriter
    var buf: seq<Byte>
    var status: nat
    var headerSent: bool

    constructor (inner: ServerWriter)
      ensures this.inner == inner && buf == [] && status == 0 && !headerSent
    {
      this.inner, buf, status, headerSent := inner, [], 0, false;
    }

    method WriteHeader(code: nat)
      modifies this
      ensures buf == old(buf) && headerSent
      ensures status == if old(headerSent) then old(status) else code
    {
      if headerSent {
        return;
      }
      status := code;
      headerSent := true;
    }

    /** The handler: nothing reaches the client, whatever the order of its calls. */
    method Run(trace: seq<Event>)
      requires buf == [] && status == 0 && !headerSent
      modifies this, inner`headers
      ensures buf == Written(trace)
      ensures headerSent <==> SetsStatus(trace)
      ensures status == FirstCode(trace)
      ensures inner.headers == HeadersSet(old(inner.headers), trace)
    {
      for i := 0 to |trace|
        invariant buf == Written(trace[..i])
        invariant headerSent <==> SetsStatus(trace[..i])
        invariant status == FirstCode(trace[..i])
        invariant inner.headers == HeadersSet(old(inner.headers), trace[..i])
      {
        var e := trace[i];
        assert trace[..i + 1] == trace[..i] + [e];
        StatusSnoc(trace[..i], e);
        TraceSnoc(old(inner.headers), trace[..i], e);
        match e {
          case Write(bytes) => buf := buf + bytes;
          case WriteHeader(code) => WriteHeader(code);
          case SetHeader(name, value) => inner.headers := inner.headers[name := value];
        }
      }
      assert trace[..|trace|] == trace;
    }
  }

  lemma TraceSnoc(start: Headers, trace: seq<Event>, e: Event)
    ensures Written(trace + [e]) == Written(trace) + if e.Write? then e.bytes else []
    ensures HeadersSet(start, trace + [e]) ==
      if e.SetHeader? then HeadersSet(start, trace)[e.name := e.value] else HeadersSet(start, trace)
  {
    assert (trace + [e])[..|trace|] == trace;
  }

  lemma {:induction false} StatusSnoc(trace: seq<Event>, e: Event)
    ensures SetsStatus(trace + [e]) <==> SetsStatus(trace) || e.WriteHeader?
    ensures FirstCode(trace + [e]) ==
      if SetsStatus(trace) then FirstCode(trace) else if e.WriteHeader? then e.code else 0
    ensures !SetsStatus(trace) ==> FirstCode(trace) == 0
    decreases |trace|
  {
    var all := trace + [e];
    if trace == [] {
      assert all[1..] == [];
    } else {
      assert all[1..] == trace[1..] + [e];
      StatusSnoc(trace[1..], e);
    }
  }

  /** Wraps a compressor around the server's writer; the compressed bytes come out on Close. */
  class GzipResponseWriter {
    const inner: ServerWriter
    var pending: seq<Byte>
    var wroteHeader: bool

    constructor (inner: ServerWriter)
      ensures this.inner == inner && pending == [] && !wroteHeader
    {
      this.inner, pending, wroteHeader := inner, [], false;
    }

    method WriteHeader(code: nat)
      modifies this, inner
      ensures wroteHeader && pending == old(pending) && inner.body == old(inner.body)
      ensures old(wroteHeader) ==> inner.headers == old(inner.headers) && inner.sent == old(inner.sent)
      ensures !old(wroteHeader) ==>
        && inner.headers == Compressed(old(inner.headers))
        && inner.sent == if old(inner.sent).Some? then old(inner.sent) else Some((code, inner.headers))
    {
      if wroteHeader {
        return;
      }
      wroteHeader := true;
      inner.headers := Compressed(inner.headers);
      inner.WriteHeader(code);
    }

    method Write(b: seq<Byte>)
      modifies this, inner
      ensures wroteHeader && pending == old(pending) + b && inner.body == old(inner.body)
      ensures old(wroteHeader) ==> inner.headers == old(inner.headers) && inner.sent == old(inner.sent)
      ensures !old(wroteHeader) ==>
        && inner.headers == Compressed(old(inner.headers))
        && inner.sent == if old(inner.sent).Some? then old(inner.sent) else Some((STATUS_OK, inner.headers))
    {
      if !wroteHeader {
        WriteHeader(STATUS_OK);
      }
      pending := pending + b;
    }

    method Close(l: Libs)
      modifies inner
      ensures inner.headers == old(inner.headers)
      ensures inner.sent == if old(inner.sent).Some? then old(inner.sent) else Some((STATUS_OK, inner.headers))
      ensures inner.sent.Some?
      ensures inner.body == old(inner.body) + BodyUnder(inner.sent.value.0, l.compress(pending))
    {
      inner.Write(l.compress(pending));
    }
  }

  function Compressed(h: Headers): Headers {
    (h - {"Content-Length"})["Content-Encoding" := "gzip"]["Vary" := "Accept-Encoding"]
  }

  // ---------- The middleware ----------

  predicate WillCompress(headers: Headers, status: nat, acceptsGzip: bool) {
    IsCompressible(Get(headers, "Content-Type")) && status < 300 && acceptsGzip
  }

  /** What a buffering wrapper sends for a trace, given the final headers. */
  function BufferedReply(l: Libs, headers: Headers, trace: seq<Event>, acceptsGzip: bool): Reply {
    if WillCompress(headers, BufferedStatus(trace), acceptsGzip)
    then Reply(STATUS_OK, Compressed(headers), l.compress(Written(trace)))
    else Reply(BufferedStatus(trace), headers, BodyUnder(BufferedStatus(trace), Written(trace)))
  }

  function SignedHeaders(l: Libs, key: string, start: Headers, trace: seq<Event>): Headers {
    var h, sum := HeadersSet(start, trace), l.hmac(key, Written(trace));
    if sum != "" then h["HashSHA256" := sum] else h
  }

  /** The second half of both wrappers: send what the handler left in the buffer. */
  method SendBuffered(l: Libs, cw: ContentWriter, w: ServerWriter, compress: bool)
    requires cw.inner == w && w.sent.None? && w.body == []
    requires cw.headerSent || cw.status == 0
    modifies w
    ensures w.Result() == if compress then Reply(STATUS_OK, Compressed(old(w.headers)), l.compress(cw.buf))
                          else Reply(OrDefault(cw.status), old(w.headers), BodyUnder(OrDefault(cw.status), cw.buf))
  {
    if !compress {
      w.WriteHeader(OrDefault(cw.status));
      w.Write(cw.buf);
      return;
    }
    var grw := new GzipResponseWriter(w);
    if !cw.headerSent {
      grw.WriteHeader(OrDefault(cw.status));
    }
    grw.Write(cw.buf);
    assert grw.pending == cw.buf;
    grw.Close(l);
    assert w.body == [] + l.compress(cw.buf);
  }

  /** A client that does not accept gzip: the handler writes straight to the server. */
  method PassThrough(trace: seq<Event>, w: ServerWriter)
    requires w.sent.None? && w.body == []
    modifies w
    ensures w.Result().status == DirectStatus(trace)
    ensures w.Result().body == BodyUnder(DirectStatus(trace), Written(trace))
  {
    for i := 0 to |trace|
      invariant w.sent.Some? ==>
        DirectStatus(trace) == w.sent.value.0 && w.body == BodyUnder(w.sent.value.0, Written(trace[..i]))
      invariant w.sent.None? ==> w.body == [] && Written(trace[..i]) == []
      invariant w.sent.None? ==> DirectStatus(trace) == DirectStatus(trace[i..])
    {
      var e := trace[i];
      assert trace[..i + 1][..i] == trace[..i];
      assert trace[i..][1..] == trace[i + 1..];
      match e {
        case Write(bytes) => w.Write(bytes);
        case WriteHeader(code) => w.WriteHeader(code);
        case SetHeader(name, value) => w.headers := w.headers[name := value];
      }
    }
    assert trace[..|trace|] == trace;
  }

  method CompressAccepted(l: Libs, trace: seq<Event>, w: ServerWriter, acceptsGzip: bool)
    requires w.sent.None? && w.body == []
    modifies w
    ensures acceptsGzip ==> w.Result() == BufferedReply(l, HeadersSet(old(w.headers), trace), trace, true)
    ensures !acceptsGzip ==> w.Result().status == DirectStatus(trace) && w.Result().body == BodyUnder(DirectStatus(trace), Written(trace))
  {
    if !acceptsGzip {
      PassThrough(trace, w);
      return;
    }
    var cw := new ContentWriter(w);
    cw.Run(trace);
    assert !SetsStatus(trace) ==> FirstCode(trace) == 0 by { StatusSnoc(trace, Write([])); }
    var ct := Get(w.headers, "Content-Type");
    var plain := !IsCompressible(ct) || OrDefault(cw.status) >= 300;
    SendBuffered(l, cw, w, !plain);
  }

  /** With a key every client's response is buffered and signed; without one this is CompressAccepted. */
  method CompressAndSign(l: Libs, key: string, trace: seq<Event>, w: ServerWriter, acceptsGzip: bool)
    requires w.sent.None? && w.body == []
    modifies w
    ensures key != "" ==>
      w.Result() == BufferedReply(l, SignedHeaders(l, key, old(w.headers), trace), trace, acceptsGzip)
    ensures key == "" && acceptsGzip ==> w.Result() == BufferedReply(l, HeadersSet(old(w.headers), trace), trace, true)
    ensures key == "" && !acceptsGzip ==> w.Result().status == DirectStatus(trace) && w.Result().body == BodyUnder(DirectStatus(trace), Written(trace))
  {
    if key == "" {
      CompressAccepted(l, trace, w, acceptsGzip);
      return;
    }
    var cw := new ContentWriter(w);
    cw.Run(trace);
    assert !SetsStatus(trace) ==> FirstCode(trace) == 0 by { StatusSnoc(trace, Write([])); }
    var sum := l.hmac(key, cw.buf);
    if sum != "" {
      w.headers := w.headers["HashSHA256" := sum];
    }
    var ct := Get(w.headers, "Content-Type");
    var plain := !IsCompressible(ct) || OrDefault(cw.status) >= 300 || !acceptsGzip;
    SendBuffered(l, cw, w, !plain);
  }

  // ---------- What clients can rely on ----------

  /** The body a client sees once it has undone the encoding. */
  function Seen(l: Libs, r: Reply): Option<seq<Byte>> {
    if Get(r.headers, "Content-Encoding") == "gzip" then l.decompress(r.body) else Some(r.body)
  }

  ghost predicate OwnEncoding(trace: seq<Event>) {
    exists i :: 0 <= i < |trace| && trace[i].SetHeader? && trace[i].name == "Content-Encoding"
  }

  lemma {:induction false} NoOwnEncoding(start: Headers, trace: seq<Event>)
    requires !OwnEncoding(trace) && "Content-Encoding" !in start
    ensures "Content-Encoding" !in HeadersSet(start, trace)
    decreases |trace|
  {
    if trace != [] {
      assert !OwnEncoding(trace[..|trace| - 1]) by {
        assert forall i :: 0 <= i < |trace| - 1 ==> trace[..|trace| - 1][i] == trace[i];
      }
      assert !(trace[|trace| - 1].SetHeader? && trace[|trace| - 1].name == "Content-Encoding");
      NoOwnEncoding(start, trace[..|trace| - 1]);
    }
  }

  /** Whatever calls a handler makes, the hash is the HMAC of the writes one after the other,
      and a client that undoes the encoding sees just these, exactly if there are none or the
      status goes with a body (a compressed reply always does: it goes out as 200). */
  lemma BufferingKeepsTheBody(l: Libs, key: string, start: Headers, trace: seq<Event>, acceptsGzip: bool)
    requires Good(l) && !OwnEncoding(trace) && "Content-Encoding" !in start
    ensures var plain := BufferedReply(l, HeadersSet(start, trace), trace, acceptsGzip);
      Seen(l, plain) == Some(Written(trace)) <==> BodyAllowed(plain.status) || Written(trace) == []
    ensures var signed := BufferedReply(l, SignedHeaders(l, key, start, trace), trace, acceptsGzip);
      && (Seen(l, signed) == Some(Written(trace)) <==> BodyAllowed(signed.status) || Written(trace) == [])
      && Get(signed.headers, "HashSHA256") == l.hmac(key, Written(trace))
  {
    NoOwnEncoding(start, trace);
    assert l.hmac(key, Written(trace)) != "";
    assert "Content-Encoding" !in SignedHeaders(l, key, start, trace);
  }

  predicate SetsFirst(trace: seq<Event>, i: int) {
    0 <= i < |trace| && trace[i].WriteHeader? && forall j :: 0 <= j < i ==> !trace[j].WriteHeader?
  }

  /** The status the handler set first, 200 if it set none (or 0). */
  ghost predicate StatusSet(trace: seq<Event>, code: nat) {
    || (exists i :: SetsFirst(trace, i) && code == if trace[i].code == 0 then 200 else trace[i].code)
    || ((forall j :: 0 <= j < |trace| ==> !trace[j].WriteHeader?) && code == 200)
  }

  lemma FirstSetIsUnique(trace: seq<Event>, i: int)
    requires SetsFirst(trace, i)
    ensures forall k :: SetsFirst(trace, k) ==> k == i
  {
  }

  lemma {:induction false} FirstCodeIsSet(trace: seq<Event>)
    ensures StatusSet(trace, BufferedStatus(trace))
    decreases |trace|
  {
    if trace != [] && !trace[0].WriteHeader? {
      var rest := trace[1..];
      FirstCodeIsSet(rest);
      if i :| SetsFirst(rest, i) {
        assert trace[i + 1].WriteHeader?;
        forall j | 0 <= j < i + 1
          ensures !trace[j].WriteHeader?
        {
          assert j > 0 ==> trace[j] == rest[j - 1];
        }
        assert SetsFirst(trace, i + 1);
        FirstSetIsUnique(rest, i);
      } else {
        forall j | 0 <= j < |trace|
          ensures !trace[j].WriteHeader?
        {
          assert j > 0 ==> trace[j] == rest[j - 1];
        }
      }
    }
  }

  predicate SetsLast(trace: seq<Event>, i: int, name: string) {
    && 0 <= i < |trace| && trace[i].SetHeader? && trace[i].name == name
    && forall j :: i < j < |trace| ==> !(trace[j].SetHeader? && trace[j].name == name)
  }

  /** Headers hold what was set last. */
  ghost predicate HeaderSet(start: Headers, trace: seq<Event>, name: string, value: Option<string>) {
    || (exists i :: SetsLast(trace, i, name) && value == Some(trace[i].value))
    || ((forall j :: 0 <= j < |trace| ==> !(trace[j].SetHeader? && trace[j].name == name))
          && value == if name in start then Some(start[name]) else None)
  }

  lemma {:induction false} LastHeaderIsSet(start: Headers, trace: seq<Event>, name: string)
    ensures var h := HeadersSet(start, trace); HeaderSet(start, trace, name, if name in h then Some(h[name]) else None)
    decreases |trace|
  {
    if trace != [] {
      var front, last := trace[..|trace| - 1], trace[|trace| - 1];
      LastHeaderIsSet(start, front, name);
      if last.SetHeader? && last.name == name {
        assert SetsLast(trace, |front|, name);
      } else if i :| SetsLast(front, i, name) {
        assert forall j :: i <= j < |front| ==> trace[j] == front[j];
        assert SetsLast(trace, i, name);
        assert forall k :: SetsLast(front, k, name) ==> k == i;
      } else {
        assert forall j :: 0 <= j < |front| ==> trace[j] == front[j];
      }
    }
  }

  lemma {:induction false} WritesConcatenate(a: seq<Event>, b: seq<Event>)
    ensures Written(a + b) == Written(a) + Written(b)
    decreases |b|
  {
    if b == [] {
      assert a + b == a;
    } else {
      assert (a + b)[..|a + b| - 1] == a + b[..|b| - 1];
      WritesConcatenate(a, b[..|b| - 1]);
    }
  }

  /** The reply of a buffering wrapper, said without its parts: with no Content-Encoding of the
      handler's own it is compressed, and then 200, exactly if the client accepts gzip, the status
      set is below 300 and the content type is JSON or HTML. If not, the writes go out as they
      are, under that status and with no Content-Encoding. */
  lemma CompressedExactly(l: Libs, headers: Headers, trace: seq<Event>, acceptsGzip: bool, code: nat)
    requires StatusSet(trace, code) && "Content-Encoding" !in headers
    ensures var r := BufferedReply(l, headers, trace, acceptsGzip);
      var ct := if "Content-Type" in headers then headers["Content-Type"] else "";
      if acceptsGzip && code < 300 && ("application/json" <= ct || "text/html" <= ct) then
        && r.status == 200 && r.body == l.compress(Written(trace))
        && r.headers == (headers - {"Content-Length"})["Content-Encoding" := "gzip"]["Vary" := "Accept-Encoding"]
      else
        && r.status == code && r.headers == headers
        && r.body == if code == 204 || code == 304 then [] else Written(trace)
  {
    FirstCodeIsSet(trace);
    StatusIsUnique(trace, code, BufferedStatus(trace));
  }

  lemma StatusIsUnique(trace: seq<Event>, c: nat, d: nat)
    requires StatusSet(trace, c) && StatusSet(trace, d)
    ensures c == d
  {
    if i :| SetsFirst(trace, i) {
      FirstSetIsUnique(trace, i);
    }
  }

  /** So it is for both wrappers; the keyed one adds the HMAC of the writes and no other header. */
  lemma SignedReply(l: Libs, key: string, start: Headers, trace: seq<Event>, acceptsGzip: bool, code: nat)
    requires StatusSet(trace, code) && !OwnEncoding(trace) && "Content-Encoding" !in start
    requires l.hmac(key, Written(trace)) != ""
    ensures var plain, signed := HeadersSet(start, trace), SignedHeaders(l, key, start, trace);
      && "Content-Encoding" !in plain && "Content-Encoding" !in signed
      && signed == plain["HashSHA256" := l.hmac(key, Written(trace))]
      && Get(signed, "Content-Type") == Get(plain, "Content-Type")
    ensures var ct := Get(HeadersSet(start, trace), "Content-Type");
      var r := BufferedReply(l, SignedHeaders(l, key, start, trace), trace, acceptsGzip);
      if acceptsGzip && code < 300 && ("application/json" <= ct || "text/html" <= ct) then
        r.status == 200 && r.body == l.compress(Written(trace)) && Get(r.headers, "Content-Encoding") == "gzip"
      else
        && r.status == code && "Content-Encoding" !in r.headers
        && r.body == if code == 204 || code == 304 then [] else Written(trace)
  {
    NoOwnEncoding(start, trace);
    assert "HashSHA256" != "Content-Type" && "HashSHA256" != "Content-Encoding";
    CompressedExactly(l, SignedHeaders(l, key, start, trace), trace, acceptsGzip, code);
  }

  /** For clients that accept gzip the wrapper with a key and the one without agree on
      status, encoding and body. */
  lemma KeyedAndUnkeyedAgree(l: Libs, key: string, start: Headers, trace: seq<Event>)
    ensures var plain, signed := BufferedReply(l, HeadersSet(start, trace), trace, true),
                                 BufferedReply(l, SignedHeaders(l, key, start, trace), trace, true);
      && plain.status == signed.status && plain.body == signed.body
      && Get(plain.headers, "Content-Encoding") == Get(signed.headers, "Content-Encoding")
  {
    assert "HashSHA256" != "Content-Type" && "HashSHA256" != "Content-Encoding";
  }

  /** The handler writes before it sets a status. */
  predicate WritesFirst(trace: seq<Event>) {
    trace != [] && !trace[0].WriteHeader? && (trace[0].Write? || WritesFirst(trace[1..]))
  }

  /** Buffering gives the status the unbuffered server would give, exactly when the handler does
      not write before setting a status other than the default. */
  lemma {:induction false} BufferedStatusIsDirect(trace: seq<Event>)
    ensures BufferedStatus(trace) == OrDefault(DirectStatus(trace)) <==>
      !WritesFirst(trace) || FirstCode(trace) in {0, STATUS_OK}
    decreases |trace|
  {
    if trace != [] && trace[0].SetHeader? {
      BufferedStatusIsDirect(trace[1..]);
    }
  }

  /** The unbuffered server says 200 exactly when the handler writes first or sets no other status. */
  lemma {:induction false} DirectDefault(trace: seq<Event>)
    ensures OrDefault(DirectStatus(trace)) == STATUS_OK <==> WritesFirst(trace) || FirstCode(trace) in {0, STATUS_OK}
    decreases |trace|
  {
    if trace != [] && trace[0].SetHeader? {
      DirectDefault(trace[1..]);
    }
  }

  /** The client of a wrapped handler gets the status it would get unwrapped exactly when the
      handler sets none but 200, or, compressed, writes before it sets one, or, not compressed,
      sets it before it writes. */
  lemma StatusSurvives(l: Libs, headers: Headers, trace: seq<Event>, acceptsGzip: bool)
    ensures BufferedReply(l, headers, trace, acceptsGzip).status == OrDefault(DirectStatus(trace)) <==>
      || FirstCode(trace) in {0, STATUS_OK}
      || (WillCompress(headers, BufferedStatus(trace), acceptsGzip) <==> WritesFirst(trace))
  {
    BufferedStatusIsDirect(trace);
    DirectDefault(trace);
  }
}
