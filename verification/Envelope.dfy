/** The encrypted envelope: length of the wrapped key, wrapped key, nonce, ciphertext
    (internal/crypto/crypto.go). */
module Envelope {
  import opened Model

  const NONCE_SIZE: nat := 12

  datatype Frame = Frame(encKey: seq<Byte>, nonce: seq<Byte>, ciphertext: seq<Byte>)

  datatype CryptoError = TooShort | TooShortForKeyAndNonce | RsaFailed | BadAesKey | GcmFailed

  /** Two bytes, most significant first; a length over 65535 loses its upper bits. */
  function BigEndian16(n: nat): seq<Byte> {
    [n / 256 % 256, n % 256]
  }

  function FromBigEndian16(b: seq<Byte>): nat
    requires |b| == 2
  {
    var hi: int, lo: int := b[0], b[1];
    hi * 256 + lo
  }

  function Framed(f: Frame): seq<Byte> {
    BigEndian16(|f.encKey|) + f.encKey + f.nonce + f.ciphertext
  }

  /** copy(dst[at:], src) */
  method Copy(dst: array<Byte>, at: nat, src: seq<Byte>)
    requires at + |src| <= dst.Length
    modifies dst
    ensures dst[..] == old(dst[..at]) + src + old(dst[at + |src|..])
  {
    for i := 0 to |src|
      invariant dst[..at] == old(dst[..at])
      invariant dst[at..at + i] == src[..i]
      invariant dst[at + i..] == old(dst[at + i..])
    {
      dst[at + i] := src[i];
      assert dst[at..at + i + 1] == dst[at..at + i] + [src[i]];
      assert old(dst[at + i..])[1..] == old(dst[at + i + 1..]);
      assert dst[at + i + 1..] == dst[at + i..][1..];
    }
    assert dst[..] == dst[..at] + dst[at..at + |src|] + dst[at + |src|..];
  }

  /** A copy behind what is there already. */
  method CopyAfter(dst: array<Byte>, at: nat, src: seq<Byte>, ghost filled: seq<Byte>)
    requires at + |src| <= dst.Length && dst[..at] == filled
    modifies dst
    ensures dst[..at + |src|] == filled + src
  {
    Copy(dst, at, src);
    assert dst[..at + |src|] == dst[..][..at + |src|];
  }

  /** Fills the envelope as Encrypt does. */
  method Assemble(f: Frame) returns (envelope: array<Byte>)
    ensures fresh(envelope) && envelope[..] == Framed(f)
  {
    var k, n := |f.encKey|, |f.nonce|;
    envelope := new Byte[2 + k + n + |f.ciphertext|](_ => 0);
    ghost var start := BigEndian16(k);
    CopyAfter(envelope, 0, BigEndian16(k), []);
    assert [] + start == start;
    CopyAfter(envelope, 2, f.encKey, start);
    CopyAfter(envelope, 2 + k, f.nonce, start + f.encKey);
    CopyAfter(envelope, 2 + k + n, f.ciphertext, start + f.encKey + f.nonce);
    assert envelope[..] == envelope[..envelope.Length];
  }

  function Parse(data: seq<Byte>): Result<Frame, CryptoError> {
    if |data| < 2 then Err(TooShort)
    else
      var encKeyLen := FromBigEndian16(data[0..2]);
      if |data| < 2 + encKeyLen + 12 then Err(TooShortForKeyAndNonce)
      else Ok(Frame(data[2..2 + encKeyLen], data[2 + encKeyLen..2 + encKeyLen + 12], data[2 + encKeyLen + 12..]))
  }

  /** A frame comes back as it was exactly when the length of its wrapped key fits in 16 bits. */
  lemma FrameRoundTrip(f: Frame)
    requires |f.nonce| == NONCE_SIZE
    ensures Parse(Framed(f)) == Ok(f) <==> |f.encKey| < 65536
  {
    var data := Framed(f);
    var k := |f.encKey|;
    assert data[0..2] == BigEndian16(k);
    if k < 65536 {
      assert FromBigEndian16(data[0..2]) == k;
      assert data[2..2 + k] == f.encKey;
      assert data[2 + k..2 + k + 12] == f.nonce;
      assert data[2 + k + 12..] == f.ciphertext;
    } else {
      assert FromBigEndian16(data[0..2]) < 65536;
    }
  }

  /** Framing what was parsed gives the input back; nothing is ignored and nothing read twice. */
  lemma ReframeRoundTrip(data: seq<Byte>)
    requires Parse(data).Ok?
    ensures Framed(Parse(data).value) == data
    ensures |Parse(data).value.nonce| == NONCE_SIZE && |Parse(data).value.encKey| < 65536
  {
    var f := Parse(data).value;
    assert BigEndian16(|f.encKey|) == data[0..2];
    assert data == data[0..2] + f.encKey + f.nonce + f.ciphertext;
  }

  /** What the first two bytes say, high byte first. */
  function Announced(data: seq<Byte>): int
    requires |data| >= 2
  {
    var hi: int, lo: int := data[0], data[1];
    256 * hi + lo
  }

  /** The layout, byte by byte: length of the wrapped key, high byte first, wrapped key, twelve
      bytes of nonce, ciphertext. */
  lemma FrameLayout(f: Frame)
    requires |f.nonce| == 12 && |f.encKey| < 65536
    ensures var d, k := Framed(f), |f.encKey|;
      && |d| == 14 + k + |f.ciphertext|
      && Announced(d) == k
      && (forall i :: 0 <= i < k ==> d[2 + i] == f.encKey[i])
      && (forall i :: 0 <= i < 12 ==> d[2 + k + i] == f.nonce[i])
      && (forall i :: 0 <= i < |f.ciphertext| ==> d[14 + k + i] == f.ciphertext[i])
  {
  }

  /** Input is refused exactly if it is too short for a length, or for what the length announces. */
  lemma ParseRefusesExactly(data: seq<Byte>)
    ensures Parse(data) == Err(TooShort) <==> |data| < 2
    ensures Parse(data) == Err(TooShortForKeyAndNonce) <==> |data| >= 2 && |data| < 14 + Announced(data)
    ensures Parse(data).Ok? <==> |data| >= 2 && |data| >= 14 + Announced(data)
  {
  }

  // ---------- Encryption around the frame ----------

  /** RSAES-OAEP (section 7.1 of RFC 8017) and AES-GCM, seen from outside. `wrap` also takes
      the random seed, and fails when the RSA key is too small. */
  datatype Ciphers = Ciphers(
    wrap: (seq<Byte>, seq<Byte>) -> Option<seq<Byte>>,
    unwrap: seq<Byte> -> Option<seq<Byte>>,
    seal: (seq<Byte>, seq<Byte>, seq<Byte>) -> seq<Byte>,
    open: (seq<Byte>, seq<Byte>, seq<Byte>) -> Option<seq<Byte>>)

  ghost predicate Inverse(c: Ciphers) {
    && (forall seed, key :: c.wrap(seed, key).Some? ==>
          c.unwrap(c.wrap(seed, key).value) == Some(key) && |c.wrap(seed, key).value| < 65536)
    && (forall key, nonce, text :: c.open(key, nonce, c.seal(key, nonce, text)) == Some(text))
  }

  /** The random bytes one encryption draws. */
  datatype Random = Random(seed: seq<Byte>, aesKey: seq<Byte>, nonce: seq<Byte>)

  predicate Drawn(r: Random) {
    |r.aesKey| == 32 && |r.nonce| == NONCE_SIZE
  }

  function Encrypt(plaintext: seq<Byte>, pub: Option<Ciphers>, r: Random): Result<seq<Byte>, CryptoError> {
    if pub.None? then Ok(plaintext)
    else
      var c := pub.value;
      var encKey := c.wrap(r.seed, r.aesKey);
      if encKey.None? then Err(RsaFailed)
      else Ok(Framed(Frame(encKey.value, r.nonce, c.seal(r.aesKey, r.nonce, plaintext))))
  }

  function Decrypt(data: seq<Byte>, priv: Option<Ciphers>): Result<seq<Byte>, CryptoError> {
    if priv.None? then Ok(data)
    else
      var c, parsed := priv.value, Parse(data);
      if parsed.Err? then Err(parsed.error)
      else
        var f := parsed.value;
        var aesKey := c.unwrap(f.encKey);
        if aesKey.None? then Err(RsaFailed)
        else if |aesKey.value| !in {16, 24, 32} then Err(BadAesKey)
        else
          var text := c.open(aesKey.value, f.nonce, f.ciphertext);
          if text.None? then Err(GcmFailed) else Ok(text.value)
  }

  /** Input decrypts exactly if it is a frame, its wrapped key unwraps to an AES key of one of
      the three lengths, and the ciphertext opens under it. */
  lemma DecryptsExactlyWhen(data: seq<Byte>, c: Ciphers)
    ensures Decrypt(data, Some(c)).Ok? <==>
      && |data| >= 2 && |data| >= 14 + Announced(data)
      && var k := Announced(data);
         var key := c.unwrap(data[2..2 + k]);
         && key.Some? && (|key.value| == 16 || |key.value| == 24 || |key.value| == 32)
         && c.open(key.value, data[2 + k..14 + k], data[14 + k..]).Some?
    ensures Decrypt(data, None) == Ok(data)
  {
  }

  /** With a matching key pair, or with none on either side, decryption undoes encryption. */
  lemma DecryptUndoesEncrypt(plaintext: seq<Byte>, keys: Option<Ciphers>, r: Random)
    requires Drawn(r) && (keys.Some? ==> Inverse(keys.value))
    ensures Encrypt(plaintext, keys, r).Ok? ==>
      Decrypt(Encrypt(plaintext, keys, r).value, keys) == Ok(plaintext)
  {
    if keys.Some? && keys.value.wrap(r.seed, r.aesKey).Some? {
      var c := keys.value;
      FrameRoundTrip(Frame(c.wrap(r.seed, r.aesKey).value, r.nonce, c.seal(r.aesKey, r.nonce, plaintext)));
    }
  }
}
