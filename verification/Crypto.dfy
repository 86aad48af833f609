/** The hybrid encryption frame: two length bytes, the wrapped key, the nonce and the sealed body. */
module Crypto {
  import opened Wrappers
  import opened Metrics
  import opened Http

  const NONCE_SIZE := 12
  const KEY_SIZE := 32

  /** RSA-OAEP and AES-GCM, kept abstract. */
  datatype Primitives = Primitives(
    wrap: (nat, seq<byte>, nat) -> Option<seq<byte>>,            // public key, AES key, randomness
    unwrap: (nat, seq<byte>) -> Option<seq<byte>>,               // private key
    seal: (seq<byte>, seq<byte>, seq<byte>) -> seq<byte>,        // key, nonce, plaintext
    open: (seq<byte>, seq<byte>, seq<byte>) -> Option<seq<byte>>)
  {
    /**
     Unwrapping with key `priv` undoes wrapping with key `pub`; opening undoes sealing; wrapped keys are not
     empty.
     */
    ghost predicate Matching(pub: nat, priv: nat) {
      && (forall k: seq<byte>, r: nat :: wrap(pub, k, r).Some? ==>
            wrap(pub, k, r).value != [] && unwrap(priv, wrap(pub, k, r).value) == Some(k))
      && (forall k: seq<byte>, n: seq<byte>, m: seq<byte> :: open(k, n, seal(k, n, m)) == Some(m))
    }
  }

  function Frame(encKey: seq<byte>, nonce: seq<byte>, ciphertext: seq<byte>): seq<byte>
    requires |encKey| <= 0xffff
  {
    [|encKey| / 256, |encKey| % 256] + encKey + nonce + ciphertext
  }

  /** binary.BigEndian.Uint16. */
  function Uint16(hi: int, lo: int): int {
    hi * 256 + lo
  }

  datatype Parts = Parts(encKey: seq<byte>, nonce: seq<byte>, ciphertext: seq<byte>)

  /** The wrapped key a frame carries and the offset after it. */
  function ParseKey(data: seq<byte>): Option<seq<byte>> {
    if |data| < 2 then None
    else
      var n := Uint16(data[0], data[1]);
      if n <= 0 || |data| < 2 + n then None else Some(data[2..2 + n])
  }

  function ParseFrame(data: seq<byte>): Option<Parts> {
    var key := ParseKey(data);
    if key.None? || |data| < 2 + |key.value| + NONCE_SIZE then None
    else
      var offset := 2 + |key.value|;
      Some(Parts(key.value, data[offset..offset + NONCE_SIZE], data[offset + NONCE_SIZE..]))
  }

  /** Decrypt's parse recovers exactly the parts Encrypt laid out. */
  lemma FrameRoundTrip(encKey: seq<byte>, nonce: seq<byte>, ciphertext: seq<byte>)
    requires 1 <= |encKey| <= 0xffff && |nonce| == NONCE_SIZE
    ensures ParseKey(Frame(encKey, nonce, ciphertext)) == Some(encKey)
    ensures ParseFrame(Frame(encKey, nonce, ciphertext)) == Some(Parts(encKey, nonce, ciphertext))
  {
    var data, n := Frame(encKey, nonce, ciphertext), |encKey|;
    assert Uint16(data[0], data[1]) == n;
    assert data[2..2 + n] == encKey;
    assert data[2 + n..2 + n + NONCE_SIZE] == nonce;
    assert data[2 + n + NONCE_SIZE..] == ciphertext;
  }

  /** Whatever frame is accepted re-encodes to the same bytes. */
  lemma AcceptedFrameReencodes(data: seq<byte>)
    requires ParseFrame(data).Some?
    ensures var p := ParseFrame(data).value;
            && 1 <= |p.encKey| <= 0xffff && |p.nonce| == NONCE_SIZE
            && Frame(p.encKey, p.nonce, p.ciphertext) == data
  {
    var p := ParseFrame(data).value;
    var n := |p.encKey|;
    assert n == Uint16(data[0], data[1]) && n / 256 == data[0] && n % 256 == data[1];
    assert data == [data[0], data[1]] + p.encKey + p.nonce + p.ciphertext;
  }

  /** The layout, byte by byte: a big-endian length, the wrapped key, the nonce, the rest. */
  lemma FrameLayout(encKey: seq<byte>, nonce: seq<byte>, ciphertext: seq<byte>)
    requires |encKey| <= 0xffff
    ensures var data := Frame(encKey, nonce, ciphertext);
            && |data| == 2 + |encKey| + |nonce| + |ciphertext|
            && 256 * (data[0] as int) + (data[1] as int) == |encKey|
            && data[2..2 + |encKey|] == encKey
            && data[2 + |encKey|..2 + |encKey| + |nonce|] == nonce
            && data[2 + |encKey| + |nonce|..] == ciphertext
  {
    var data := Frame(encKey, nonce, ciphertext);
    assert data[0] == |encKey| / 256 && data[1] == |encKey| % 256;
  }

  function EncryptSpec(c: Primitives, pub: Option<nat>, plain: seq<byte>, aesKey: seq<byte>, nonce: seq<byte>,
      r: nat): Option<seq<byte>> {
    if pub.None? then None
    else
      var encKey := c.wrap(pub.value, aesKey, r);
      if encKey.None? || |encKey.value| > 0xffff then None
      else Some(Frame(encKey.value, nonce, c.seal(aesKey, nonce, plain)))
  }

  function DecryptSpec(c: Primitives, priv: Option<nat>, data: seq<byte>): Option<seq<byte>> {
    if priv.None? || ParseKey(data).None? then None
    else
      var aesKey := c.unwrap(priv.value, ParseKey(data).value);
      if aesKey.None? || |aesKey.value| !in {16, 24, 32} || ParseFrame(data).None? then None
      else
        var p := ParseFrame(data).value;
        c.open(aesKey.value, p.nonce, p.ciphertext)
  }

  /** Decryption undoes encryption under matching keys, whenever encryption succeeds. */
  lemma DecryptEncrypt(c: Primitives, pub: nat, priv: nat, plain: seq<byte>, aesKey: seq<byte>, nonce: seq<byte>,
      r: nat)
    requires c.Matching(pub, priv) && |aesKey| == KEY_SIZE && |nonce| == NONCE_SIZE
    requires EncryptSpec(c, Some(pub), plain, aesKey, nonce, r).Some?
    ensures DecryptSpec(c, Some(priv), EncryptSpec(c, Some(pub), plain, aesKey, nonce, r).value) == Some(plain)
  {
    var encKey := c.wrap(pub, aesKey, r).value;
    FrameRoundTrip(encKey, nonce, c.seal(aesKey, nonce, plain));
  }

  /**
   Encryption succeeds exactly with a key that wraps the AES key into at most 65535 bytes, and then lays out its
   frame.
   */
  lemma EncryptsExactlyWhen(c: Primitives, pub: Option<nat>, plain: seq<byte>, aesKey: seq<byte>, nonce: seq<byte>,
      r: nat)
    ensures EncryptSpec(c, pub, plain, aesKey, nonce, r).Some? <==>
      pub.Some? && c.wrap(pub.value, aesKey, r).Some? && |c.wrap(pub.value, aesKey, r).value| <= 65535
    ensures EncryptSpec(c, pub, plain, aesKey, nonce, r).Some? ==>
      EncryptSpec(c, pub, plain, aesKey, nonce, r).value ==
        Frame(c.wrap(pub.value, aesKey, r).value, nonce, c.seal(aesKey, nonce, plain))
  {
  }

  /** `data` is a frame that private key `priv` opens to `plain`. */
  ghost predicate Opens(c: Primitives, priv: nat, data: seq<byte>, plain: seq<byte>) {
    exists encKey: seq<byte>, nonce: seq<byte>, ciphertext: seq<byte> ::
      IsFrameOf(data, encKey, nonce, ciphertext) && OpensParts(c, priv, encKey, nonce, ciphertext, plain)
  }

  predicate IsFrameOf(data: seq<byte>, encKey: seq<byte>, nonce: seq<byte>, ciphertext: seq<byte>) {
    1 <= |encKey| <= 65535 && |nonce| == 12 && data == Frame(encKey, nonce, ciphertext)
  }

  predicate OpensParts(
      c: Primitives, priv: nat, encKey: seq<byte>, nonce: seq<byte>, ciphertext: seq<byte>, plain: seq<byte>) {
    var key := c.unwrap(priv, encKey);
    key.Some? && (|key.value| == 16 || |key.value| == 24 || |key.value| == 32) &&
        c.open(key.value, nonce, ciphertext) == Some(plain)
  }

  /** Decryption yields a text exactly if the bytes are a frame that the key opens to it. */
  lemma DecryptsExactlyWhen(c: Primitives, priv: Option<nat>, data: seq<byte>, plain: seq<byte>)
    ensures DecryptSpec(c, priv, data) == Some(plain) <==> priv.Some? && Opens(c, priv.value, data, plain)
  {
    if DecryptSpec(c, priv, data) == Some(plain) {
      AcceptedFrameReencodes(data);
      var p := ParseFrame(data).value;
      assert IsFrameOf(data, p.encKey, p.nonce, p.ciphertext);
      assert OpensParts(c, priv.value, p.encKey, p.nonce, p.ciphertext, plain);
    }
    if priv.Some? && Opens(c, priv.value, data, plain) {
      var encKey: seq<byte>, nonce: seq<byte>, ciphertext: seq<byte> :|
        IsFrameOf(data, encKey, nonce, ciphertext) && OpensParts(c, priv.value, encKey, nonce, ciphertext, plain);
      FrameRoundTrip(encKey, nonce, ciphertext);
    }
  }

  /** Copies `src` into `out` from `offset` on. */
  method CopyAt(out: array<byte>, offset: nat, src: seq<byte>)
    requires offset + |src| <= out.Length
    modifies out
    ensures out[..] == old(out[..offset]) + src + old(out[offset + |src|..])
  {
    for i := 0 to |src|
      invariant out[..] == old(out[..offset]) + src[..i] + old(out[offset + i..])
    {
      out[offset + i] := src[i];
    }
    assert src[..|src|] == src;
  }

  /** The buffer is filled part by part while the offset advances. */
  method Encrypt(c: Primitives, pub: Option<nat>, plain: seq<byte>, aesKey: seq<byte>, nonce: seq<byte>, r: nat)
    returns (res: Option<seq<byte>>)
    requires |aesKey| == 32 && |nonce| == 12
    ensures res == EncryptSpec(c, pub, plain, aesKey, nonce, r)
  {
    if pub.None? {
      return None;
    }
    var ciphertext := c.seal(aesKey, nonce, plain);
    var wrapped := c.wrap(pub.value, aesKey, r);
    if wrapped.None? {
      return None;
    }
    var encKey := wrapped.value;
    if |encKey| > 0xffff {
      return None;
    }
    var out := new byte[2 + |encKey| + |nonce| + |ciphertext|](_ => 0);
    var len: seq<byte> := [|encKey| / 256, |encKey| % 256];
    CopyAt(out, 0, len);
    var offset := 2;
    CopyAt(out, offset, encKey);
    offset := offset + |encKey|;
    assert out[..offset] == len + encKey;
    CopyAt(out, offset, nonce);
    offset := offset + |nonce|;
    assert out[..offset] == len + encKey + nonce;
    CopyAt(out, offset, ciphertext);
    assert out[..] == len + encKey + nonce + ciphertext;
    return Some(out[..]);
  }

  /** Every slice is taken only after its bounds are checked. */
  method Decrypt(c: Primitives, priv: Option<nat>, data: seq<byte>) returns (res: Option<seq<byte>>)
    ensures res == DecryptSpec(c, priv, data)
  {
    if priv.None? || |data| < 2 {
      return None;
    }
    var encKeyLen := Uint16(data[0], data[1]);
    var offset := 2;
    if encKeyLen <= 0 || |data| < offset + encKeyLen {
      return None;
    }
    var encKey := data[offset..offset + encKeyLen];
    offset := offset + encKeyLen;
    var aesKey := c.unwrap(priv.value, encKey);
    if aesKey.None? || |aesKey.value| !in {16, 24, 32} {
      return None;
    }
    if |data| < offset + NONCE_SIZE {
      return None;
    }
    var nonce := data[offset..offset + NONCE_SIZE];
    var ciphertext := data[offset + NONCE_SIZE..];
    return c.open(aesKey.value, nonce, ciphertext);
  }
}
