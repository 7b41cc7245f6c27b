/** The laws the other modules assume of JSON, gzip, HMAC, RSA and AES-GCM can be met
    together: here is a set of functions that obeys them. */
module Laws {
  import opened Model
  import opened FileStorage
  import opened Envelope
  import opened Pipeline

  // ---------- A list of metrics as a list of numbers ----------

  /** A block tells its own length, so that blocks can follow one another. */
  function Block(words: seq<nat>): seq<nat> {
    [|words|] + words
  }

  lemma BlockCancels(a: seq<nat>, b: seq<nat>, x: seq<nat>, y: seq<nat>)
    requires Block(a) + x == Block(b) + y
    ensures a == b && x == y
  {
    assert (Block(a) + x)[0] == |a| && (Block(b) + y)[0] == |b|;
    assert a == (Block(a) + x)[1..1 + |a|] && b == (Block(b) + y)[1..1 + |b|];
    assert x == (Block(a) + x)[1 + |a|..] && y == (Block(b) + y)[1 + |b|..];
  }

  function TextWords(s: string): seq<nat> {
    seq(|s|, i requires 0 <= i < |s| => s[i] as int)
  }

  lemma TextCancels(s: string, t: string)
    requires TextWords(s) == TextWords(t)
    ensures s == t
  {
    assert forall i :: 0 <= i < |s| ==> TextWords(s)[i] == s[i] as int && TextWords(t)[i] == t[i] as int;
  }

  function IntWords(n: int): seq<nat> {
    if n < 0 then [1, -n] else [0, n]
  }

  function DeltaWords(d: Option<Int64>): seq<nat> {
    if d.None? then [] else IntWords(d.value)
  }

  function ValueWords(v: Option<Float64>): seq<nat> {
    match v
    case None => []
    case Some(Finite(units)) => IntWords(units)
    case Some(PosInf) => [0]
    case Some(NegInf) => [1]
    case Some(NaN) => [2]
  }

  lemma NumbersCancel(d: Option<Int64>, e: Option<Int64>, v: Option<Float64>, w: Option<Float64>)
    ensures DeltaWords(d) == DeltaWords(e) ==> d == e
    ensures ValueWords(v) == ValueWords(w) ==> v == w
  {
    forall m: int, n: int | IntWords(m) == IntWords(n)
      ensures m == n
    {
      assert IntWords(m)[0] == IntWords(n)[0] && IntWords(m)[1] == IntWords(n)[1];
    }
    if ValueWords(v) == ValueWords(w) && |ValueWords(v)| == 1 {
      assert ValueWords(v)[0] == ValueWords(w)[0];
    }
  }

  function MetricWords(m: Metric): seq<nat> {
    Block(TextWords(m.id)) + (Block(TextWords(m.mtype)) + (Block(DeltaWords(m.delta))
      + (Block(ValueWords(m.value)) + Block(TextWords(m.hash)))))
  }

  lemma MetricCancels(m: Metric, n: Metric)
    requires MetricWords(m) == MetricWords(n)
    ensures m == n
  {
    var m4, n4 := Block(TextWords(m.hash)), Block(TextWords(n.hash));
    var m3, n3 := Block(ValueWords(m.value)) + m4, Block(ValueWords(n.value)) + n4;
    var m2, n2 := Block(DeltaWords(m.delta)) + m3, Block(DeltaWords(n.delta)) + n3;
    var m1, n1 := Block(TextWords(m.mtype)) + m2, Block(TextWords(n.mtype)) + n2;
    BlockCancels(TextWords(m.id), TextWords(n.id), m1, n1);
    BlockCancels(TextWords(m.mtype), TextWords(n.mtype), m2, n2);
    BlockCancels(DeltaWords(m.delta), DeltaWords(n.delta), m3, n3);
    BlockCancels(ValueWords(m.value), ValueWords(n.value), m4, n4);
    assert m4 + [] == m4 && n4 + [] == n4;
    BlockCancels(TextWords(m.hash), TextWords(n.hash), [], []);
    TextCancels(m.id, n.id);
    TextCancels(m.mtype, n.mtype);
    NumbersCancel(m.delta, n.delta, m.value, n.value);
    TextCancels(m.hash, n.hash);
  }

  function ListWords(ms: seq<Metric>): seq<nat> {
    if ms == [] then [] else Block(MetricWords(ms[0])) + ListWords(ms[1..])
  }

  lemma {:induction false} ListCancels(ms: seq<Metric>, ns: seq<Metric>)
    requires ListWords(ms) == ListWords(ns)
    ensures ms == ns
    decreases |ms|
  {
    if ms != [] && ns != [] {
      BlockCancels(MetricWords(ms[0]), MetricWords(ns[0]), ListWords(ms[1..]), ListWords(ns[1..]));
      MetricCancels(ms[0], ns[0]);
      ListCancels(ms[1..], ns[1..]);
      assert ms == [ms[0]] + ms[1..] && ns == [ns[0]] + ns[1..];
    }
  }

  // ---------- Numbers as bytes ----------

  function Unary(n: nat): seq<Byte> {
    if n == 0 then [0] else [1] + Unary(n - 1)
  }

  lemma {:induction false} UnaryCancels(m: nat, n: nat, x: seq<Byte>, y: seq<Byte>)
    requires Unary(m) + x == Unary(n) + y
    ensures m == n && x == y
  {
    assert (Unary(m) + x)[0] == (Unary(n) + y)[0];
    assert (Unary(m) + x)[1..] == if m == 0 then x else Unary(m - 1) + x;
    assert (Unary(n) + y)[1..] == if n == 0 then y else Unary(n - 1) + y;
    if m > 0 {
      UnaryCancels(m - 1, n - 1, x, y);
    }
  }

  function AsBytes(words: seq<nat>): seq<Byte> {
    if words == [] then [] else Unary(words[0]) + AsBytes(words[1..])
  }

  lemma {:induction false} BytesCancel(v: seq<nat>, w: seq<nat>)
    requires AsBytes(v) == AsBytes(w)
    ensures v == w
    decreases |v|
  {
    if v != [] && w != [] {
      UnaryCancels(v[0], w[0], AsBytes(v[1..]), AsBytes(w[1..]));
      BytesCancel(v[1..], w[1..]);
      assert v == [v[0]] + v[1..] && w == [w[0]] + w[1..];
    }
  }

  function EncodeList(ms: seq<Metric>): seq<Byte> {
    AsBytes(ListWords(ms))
  }

  ghost function DecodeList(b: seq<Byte>): Option<seq<Metric>> {
    if exists ms :: EncodeList(ms) == b then
      var ms :| EncodeList(ms) == b;
      Some(ms)
    else None
  }

  // ---------- The laws can be met ----------

  lemma LawfulCodecExists() returns (c: Codec)
    ensures Lawful(c)
  {
    c := Codec(ms => EncodeList(ms), b => DecodeList(b));
    forall ms | Encodable(ms)
      ensures c.decode(c.encode(ms)) == Some(ms)
    {
      assert EncodeList(ms) == c.encode(ms);
      var found := DecodeList(EncodeList(ms)).value;
      BytesCancel(ListWords(ms), ListWords(found));
      ListCancels(ms, found);
    }
  }

  lemma GoodLibsExist() returns (l: Libs)
    ensures Good(l)
  {
    var json := LawfulCodecExists();
    l := Libs(json,
              b => [0x1f, 0x8b] + b,
              b => if |b| >= 2 then Some(b[2..]) else None,
              (key, b) => "0",
              p => p);
  }

  /** Cipher laws with room for every key. */
  lemma InverseCiphersExist() returns (c: Ciphers)
    ensures Inverse(c) && forall seed, key :: |key| == 32 ==> c.wrap(seed, key).Some?
  {
    c := Ciphers((seed, key) => if |key| == 32 then Some(key) else None,
                 b => Some(b),
                 (key, nonce, text) => text,
                 (key, nonce, text) => Some(text));
  }
}
