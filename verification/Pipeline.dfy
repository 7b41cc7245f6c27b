/** A batch on its way from the agent's SendBatch through the server's middleware to the
    handler (internal/agent/client.go, internal/middleware/decrypt.go, gzip.go, hash.go;
    the order of the middleware is that of internal/server/server.go). */
module Pipeline {
  import opened Model
  import opened Envelope
  import opened FileStorage

  // ---------- The library functions in between ----------

  /** gzip (RFC 1952), hex-encoded HMAC-SHA256 (section 2 of RFC 2104) and path.Clean, seen
      from outside. */
  datatype Libs = Libs(
    json: Codec,
    compress: seq<Byte> -> seq<Byte>,
    decompress: seq<Byte> -> Option<seq<Byte>>,
    hmac: (string, seq<Byte>) -> string,
    clean: string -> string)

  ghost predicate Good(l: Libs) {
    && Lawful(l.json)
    && (forall b :: l.decompress(l.compress(b)) == Some(b))
    // section 2.3.1 of RFC 1952: ID1 and ID2
    && (forall b :: |l.compress(b)| >= 2 && l.compress(b)[0] == 0x1f && l.compress(b)[1] == 0x8b)
    && (forall key, b :: l.hmac(key, b) != "")
    && l.clean("/updates") == "/updates"
  }

  function Lower(s: string): string {
    seq(|s|, i requires 0 <= i < |s| => if 'A' <= s[i] <= 'Z' then (s[i] as int + 32) as char else s[i])
  }

  predicate IsCompressible(contentType: string) {
    "application/json" <= contentType || "text/html" <= contentType
  }

  // ---------- Requests ----------

  datatype Head = Head(post: bool, path: string, contentType: string, contentEncoding: string, hash: string)

  /** Handed on with this body, or answered with 400. */
  datatype Passage = Next(body: seq<Byte>) | Rejected

  /** What the agent puts on the wire for a batch; `none` if JSON or RSA refuses. */
  function Wire(l: Libs, batch: seq<Metric>, key: string, pub: Option<Ciphers>, r: Random): Option<(Head, seq<Byte>)> {
    if !Encodable(batch) then None
    else
      var json := l.json.encode(batch);
      var body := Encrypt(l.compress(json), pub, r);
      if body.Err? then None
      else Some((Head(true, "/updates", "application/json", "gzip", if key == "" then "" else l.hmac(key, json)), body.value))
  }

  // ---------- Middleware ----------

  /** A body that does not decrypt is handed on as it came. */
  function AfterDecrypt(priv: Option<Ciphers>, h: Head, body: seq<Byte>): seq<Byte> {
    if !h.post || Decrypt(body, priv).Err? then body else Decrypt(body, priv).value
  }

  function AfterDecompress(l: Libs, h: Head, body: seq<Byte>): Passage {
    if Lower(h.contentEncoding) == "gzip" && IsCompressible(h.contentType) then
      var plain := l.decompress(body);
      if plain.None? then Rejected else Next(plain.value)
    else Next(body)
  }

  /** Only POSTs of JSON to /updates... are checked, whatever way the path is written. */
  predicate Checked(l: Libs, key: string, h: Head) {
    key != "" && h.post && "/updates" <= l.clean(h.path) && "application/json" <= h.contentType
  }

  predicate Signed(l: Libs, key: string, h: Head, body: seq<Byte>) {
    h.hash != "" && Lower(h.hash) == Lower(l.hmac(key, body))
  }

  function AfterVerify(l: Libs, key: string, h: Head, body: seq<Byte>): Passage {
    if Checked(l, key, h) && !Signed(l, key, h, body) then Rejected else Next(body)
  }

  /** The body the handler reads, in the order Decrypt, Decompress, VerifyHash. */
  function Arrives(l: Libs, key: string, priv: Option<Ciphers>, h: Head, body: seq<Byte>): Passage {
    var plain := AfterDecompress(l, h, AfterDecrypt(priv, h, body));
    if plain.Rejected? then Rejected else AfterVerify(l, key, h, plain.body)
  }

  class Request {
    const head: Head
    var body: seq<Byte>
    var contentLength: int

    constructor (head: Head, body: seq<Byte>)
      ensures this.head == head && this.body == body && contentLength == |body|
    {
      this.head, this.body, this.contentLength := head, body, |body|;
    }

    method DecryptBody(priv: Option<Ciphers>)
      modifies this
      ensures body == AfterDecrypt(priv, head, old(body))
      ensures contentLength == old(contentLength) || contentLength == |body|
    {
      if priv.None? || !head.post {
        return;
      }
      var data := body;
      var plaintext := Decrypt(data, priv);
      if plaintext.Err? {
        body := data;
        return;
      }
      body := plaintext.value;
      contentLength := |plaintext.value|;
    }

    method DecompressBody(l: Libs) returns (ok: bool)
      modifies this
      ensures AfterDecompress(l, head, old(body)) == if ok then Next(body) else Rejected
    {
      if Lower(head.contentEncoding) == "gzip" && IsCompressible(head.contentType) {
        var plain := l.decompress(body);
        if plain.None? {
          return false;
        }
        body := plain.value;
      }
      ok := true;
    }

    method VerifyHash(l: Libs, key: string) returns (ok: bool)
      modifies this
      ensures body == old(body)
      ensures AfterVerify(l, key, head, body) == if ok then Next(body) else Rejected
    {
      if key == "" || !head.post {
        return true;
      }
      var p := l.clean(head.path);
      if !("/update" <= p) || !("/updates" <= p) {
        return true;
      }
      if !("application/json" <= head.contentType) {
        return true;
      }
      if head.hash == "" {
        return false;
      }
      var data := body;
      body := data;
      ok := Lower(head.hash) == Lower(l.hmac(key, data));
    }

    method Serve(l: Libs, key: string, priv: Option<Ciphers>) returns (ok: bool)
      modifies this
      ensures Arrives(l, key, priv, head, old(body)) == if ok then Next(body) else Rejected
    {
      DecryptBody(priv);
      ok := DecompressBody(l);
      if ok {
        ok := VerifyHash(l, key);
      }
    }
  }

  // ---------- What the middleware leaves alone ----------

  /** Only POST bodies are decrypted, and those only if they decrypt. */
  lemma DecryptsExactly(priv: Option<Ciphers>, h: Head, body: seq<Byte>)
    ensures AfterDecrypt(priv, h, body) ==
      if h.post && priv.Some? && Decrypt(body, priv).Ok? then Decrypt(body, priv).value else body
  {
  }

  /** A body is unpacked exactly if it is declared as gzip, in whatever case, and as JSON or
      HTML; any other is handed on as it came. */
  lemma UnpacksExactly(l: Libs, h: Head, body: seq<Byte>)
    ensures h.contentEncoding in {"gzip", "GZIP", "Gzip"} && ("application/json" <= h.contentType || "text/html" <= h.contentType) ==>
      AfterDecompress(l, h, body) == match l.decompress(body) case Some(plain) => Next(plain) case None => Rejected
    ensures Lower(h.contentEncoding) != "gzip" ==> AfterDecompress(l, h, body) == Next(body)
    ensures h.contentEncoding == "" ==> AfterDecompress(l, h, body) == Next(body)
    ensures !("application/json" <= h.contentType) && !("text/html" <= h.contentType) ==>
      AfterDecompress(l, h, body) == Next(body)
  {
    assert Lower("gzip") == "gzip" && Lower("GZIP") == "gzip" && Lower("Gzip") == "gzip" && Lower("") == "";
  }

  /** An unsigned request passes exactly if there is no key, or it is not a POST of JSON to a
      path that, cleaned, starts with /updates. */
  lemma UnsignedPassesExactly(l: Libs, key: string, h: Head, body: seq<Byte>)
    requires h.hash == ""
    ensures AfterVerify(l, key, h, body) ==
      if key == "" || !h.post || !("/updates" <= l.clean(h.path)) || !("application/json" <= h.contentType)
      then Next(body) else Rejected
  {
  }

  /** So a request with none of the three headers reaches the handler as it was sent, unless
      the server has a key and wants it signed. */
  lemma PlainRequestArrives(l: Libs, key: string, h: Head, body: seq<Byte>)
    requires h.hash == "" && h.contentEncoding == ""
    ensures Arrives(l, key, None, h, body) ==
      if key == "" || !h.post || !("/updates" <= l.clean(h.path)) || !("application/json" <= h.contentType)
      then Next(body) else Rejected
  {
    assert Lower("") == "";
  }

  // ---------- Delivery ----------

  /** With matching keys every batch the agent can put on the wire reaches the handler as
      the JSON that was encoded, and decodes to the batch. */
  lemma BatchArrives(l: Libs, batch: seq<Metric>, key: string, keys: Option<Ciphers>, r: Random)
    requires Good(l) && Drawn(r) && (keys.Some? ==> Inverse(keys.value))
    requires Wire(l, batch, key, keys, r).Some?
    ensures var (h, body) := Wire(l, batch, key, keys, r).value;
      Arrives(l, key, keys, h, body) == Next(l.json.encode(batch)) && l.json.decode(l.json.encode(batch)) == Some(batch)
  {
    DecryptUndoesEncrypt(l.compress(l.json.encode(batch)), keys, r);
    assert Lower("gzip") == "gzip";
  }

  /** A server that has a private key still serves agents that do not encrypt, as long as
      the compressed body is under 8089 bytes: the gzip magic then reads as the length of
      a wrapped key that is not there. */
  lemma PlainBatchFallsThrough(l: Libs, batch: seq<Metric>, key: string, priv: Option<Ciphers>, r: Random)
    requires Good(l) && Encodable(batch)
    requires |l.compress(l.json.encode(batch))| < 2 + 0x1f8b + 12
    ensures Wire(l, batch, key, None, r).Some?
    ensures var (h, body) := Wire(l, batch, key, None, r).value;
      Arrives(l, key, priv, h, body) == Next(l.json.encode(batch))
  {
    var gz := l.compress(l.json.encode(batch));
    assert gz[0..2] == [0x1f, 0x8b];
    assert FromBigEndian16(gz[0..2]) == 0x1f8b;
    assert Lower("gzip") == "gzip";
  }

  /** Whatever bytes are put in place of the body of a signed batch: what the handler can get
      to see under its hash header are exactly the bodies with the same HMAC. */
  lemma OnlySignedBodiesArrive(l: Libs, batch: seq<Metric>, key: string, keys: Option<Ciphers>, r: Random, seen: seq<Byte>)
    requires Good(l) && Drawn(r) && (keys.Some? ==> Inverse(keys.value))
    requires Wire(l, batch, key, keys, r).Some? && key != ""
    ensures var (h, _) := Wire(l, batch, key, keys, r).value;
      (exists body :: Arrives(l, key, keys, h, body) == Next(seen)) <==>
        Lower(l.hmac(key, seen)) == Lower(l.hmac(key, l.json.encode(batch)))
  {
    var (h, _) := Wire(l, batch, key, keys, r).value;
    var body := Encrypt(l.compress(seen), keys, r).value;
    DecryptUndoesEncrypt(l.compress(seen), keys, r);
    assert Lower("gzip") == "gzip";
    assert AfterDecompress(l, h, AfterDecrypt(keys, h, body)) == Next(seen);
    if Lower(l.hmac(key, seen)) == Lower(l.hmac(key, l.json.encode(batch))) {
      assert Arrives(l, key, keys, h, body) == Next(seen);
    }
  }

  /** A batch sent under one HMAC key is accepted under another exactly when both keys give
      its JSON the same HMAC. */
  lemma KeysMustAgree(l: Libs, batch: seq<Metric>, key: string, serverKey: string, keys: Option<Ciphers>, r: Random)
    requires Good(l) && Drawn(r) && (keys.Some? ==> Inverse(keys.value))
    requires Wire(l, batch, key, keys, r).Some? && key != "" && serverKey != ""
    ensures var (h, body) := Wire(l, batch, key, keys, r).value;
      Arrives(l, serverKey, keys, h, body).Next? <==>
        Lower(l.hmac(key, l.json.encode(batch))) == Lower(l.hmac(serverKey, l.json.encode(batch)))
  {
    DecryptUndoesEncrypt(l.compress(l.json.encode(batch)), keys, r);
    assert Lower("gzip") == "gzip";
  }
}
