/** Key derivation over an opaque SHA-256: HMAC as in section 2 of RFC 2104, HKDF as in section 2.3 of RFC 5869. */
module Hkdf {
  import opened Prelude

  type Octets = seq<byte>

  const BLOCK: nat := 64
  const DIGEST: nat := 32

  /** A hash that always returns DIGEST octets. */
  datatype Hash = Hash(of: Octets -> Octets)
  {
    ghost predicate Sized() {
      forall data :: |of(data)| == DIGEST
    }
  }

  function Zeros(n: nat): (r: Octets)
    ensures |r| == n && forall i :: 0 <= i < n ==> r[i] == 0
  {
    seq(n, _ => 0)
  }

  /** The key brought to block size: hashed if longer, then filled up with zeros. */
  function KeyBlock(h: Hash, key: Octets): (r: Octets)
    requires |h.of(key)| == DIGEST
    ensures |r| == BLOCK
  {
    var short := if |key| > BLOCK then h.of(key) else key;
    short + Zeros(BLOCK - |short|)
  }

  function XorByte(a: byte, b: byte): byte {
    ((a as bv8) ^ (b as bv8)) as byte
  }

  function Xored(block: Octets, pad: byte): (r: Octets)
    ensures |r| == |block|
  {
    seq(|block|, i requires 0 <= i < |block| => XorByte(block[i], pad))
  }

  /** H(K xor opad, H(K xor ipad, text)) */
  function Hmac(h: Hash, key: Octets, text: Octets): Octets
    requires |h.of(key)| == DIGEST
  {
    h.of(Xored(KeyBlock(h, key), 0x5c) + h.of(Xored(KeyBlock(h, key), 0x36) + text))
  }

  /** The fixed-size key block, filled in place. */
  method FillKeyBlock(h: Hash, key: Octets) returns (block: array<byte>)
    requires |h.of(key)| == DIGEST
    ensures fresh(block) && block[..] == KeyBlock(h, key)
  {
    block := new byte[BLOCK](_ => 0);
    var source := if |key| > BLOCK then h.of(key) else key;
    for i := 0 to |source|
      invariant block[..] == source[..i] + Zeros(BLOCK - i)
    {
      block[i] := source[i];
    }
  }

  /** hmac_sha256: both pads are filled octet by octet. */
  method HmacSha256(h: Hash, key: Octets, data: Octets) returns (mac: Octets)
    requires h.Sized()
    ensures mac == Hmac(h, key, data) && |mac| == DIGEST
  {
    var keyBlock := FillKeyBlock(h, key);
    ghost var block := KeyBlock(h, key);
    var inner, outer := new byte[BLOCK](_ => 0), new byte[BLOCK](_ => 0);
    for i := 0 to BLOCK
      invariant keyBlock[..] == block
      invariant forall k :: 0 <= k < i ==> inner[k] == XorByte(block[k], 0x36) && outer[k] == XorByte(block[k], 0x5c)
    {
      assert keyBlock[i] == block[i];
      inner[i] := XorByte(keyBlock[i], 0x36);
      outer[i] := XorByte(keyBlock[i], 0x5c);
    }
    assert inner[..] == Xored(block, 0x36);
    assert outer[..] == Xored(block, 0x5c);
    return h.of(outer[..] + h.of(inner[..] + data));
  }

  /** T(i) of the expand step: T(0) is empty, T(i) = HMAC(PRK, T(i-1) | info | i). */
  ghost function T(h: Hash, prk: Octets, info: Octets, i: nat): (r: Octets)
    requires h.Sized() && i <= 255
    ensures |r| == if i == 0 then 0 else DIGEST
  {
    if i == 0 then [] else Hmac(h, prk, T(h, prk, info, i - 1) + info + [i])
  }

  /** T(1) | ... | T(n) */
  ghost function Blocks(h: Hash, prk: Octets, info: Octets, n: nat): (r: Octets)
    requires h.Sized() && n <= 255
    ensures |r| == DIGEST * n
  {
    if n == 0 then [] else Blocks(h, prk, info, n - 1) + T(h, prk, info, n)
  }

  /** HKDF-Extract, with a zero salt of digest size when none is given. */
  ghost function Extract(h: Hash, salt: Octets, ikm: Octets): Octets
    requires h.Sized()
  {
    Hmac(h, if salt == [] then Zeros(DIGEST) else salt, ikm)
  }

  /** ceil(length / DIGEST) */
  function BlockCount(length: nat): nat {
    (length + DIGEST - 1) / DIGEST
  }

  /** The first `length` octets of T(1) | T(2) | ... */
  ghost function Expand(h: Hash, prk: Octets, info: Octets, length: nat): (okm: Octets)
    requires h.Sized() && length <= 255 * DIGEST
    ensures |okm| == length
  {
    Blocks(h, prk, info, BlockCount(length))[..length]
  }

  lemma {:induction false} BlocksPrefix(h: Hash, prk: Octets, info: Octets, m: nat, n: nat)
    requires h.Sized() && m <= n <= 255
    ensures Blocks(h, prk, info, m) <= Blocks(h, prk, info, n)
    decreases n
  {
    if m < n {
      BlocksPrefix(h, prk, info, m, n - 1);
    }
  }

  /** The loop state after `n` blocks. */
  ghost predicate Fits(h: Hash, prk: Octets, info: Octets, length: nat, out: Octets, n: nat)
    requires h.Sized() && n <= 255
  {
    |out| == Min(length, DIGEST * n) && out <= Blocks(h, prk, info, n)
  }

  lemma FitsStep(h: Hash, prk: Octets, info: Octets, length: nat, out: Octets, n: nat)
    requires h.Sized() && n <= 255 && length <= 255 * DIGEST
    requires Fits(h, prk, info, length, out, n) && |out| < length
    ensures n < 255 && |out| == DIGEST * n
    ensures Fits(h, prk, info, length, out + T(h, prk, info, n + 1)[..Min(DIGEST, length - |out|)], n + 1)
  {
    assert out == Blocks(h, prk, info, n);
    var block := T(h, prk, info, n + 1);
    var take := Min(DIGEST, length - |out|);
    assert Blocks(h, prk, info, n + 1)[..|out| + take] == out + block[..take];
  }

  lemma FitsEnd(h: Hash, prk: Octets, info: Octets, length: nat, out: Octets, n: nat)
    requires h.Sized() && n <= 255 && length <= 255 * DIGEST
    requires Fits(h, prk, info, length, out, n) && |out| >= length
    ensures out == Expand(h, prk, info, length)
  {
    var m := BlockCount(length);
    assert DIGEST * m >= length && m <= n;
    BlocksPrefix(h, prk, info, m, n);
    assert Blocks(h, prk, info, m)[..length] == Blocks(h, prk, info, n)[..length];
  }

  /** One block of the expand loop. */
  method NextBlock(h: Hash, prk: Octets, info: Octets, previous: Octets, counter: nat) returns (block: Octets)
    requires h.Sized() && 0 < counter <= 255 && previous == T(h, prk, info, counter - 1)
    ensures block == T(h, prk, info, counter)
  {
    block := HmacSha256(h, prk, previous + info + [counter]);
  }

  /**
   hkdf_sha256. The counter is one octet and wraps; `used` lists the values that enter a block. The
   output is the one of RFC 5869, and the values are 1, 2, ..., so none is used twice.
   */
  method HkdfSha256(h: Hash, ikm: Octets, salt: Octets, info: Octets, length: nat)
    returns (r: Result<Octets>, ghost used: seq<nat>)
    requires h.Sized()
    ensures r.Ok? <==> length <= 255 * DIGEST
    ensures r.Ok? ==> r.value == Expand(h, Extract(h, salt, ikm), info, length)
    ensures |used| <= 255 && forall i :: 0 <= i < |used| ==> used[i] == i + 1
  {
    used := [];
    if length > 255 * DIGEST {
      return Err("hkdf output too long"), used;
    }
    var prk := HmacSha256(h, if salt == [] then Zeros(DIGEST) else salt, ikm);
    var out: Octets, previous: Octets, counter: nat := [], [], 1;
    while |out| < length
      invariant |used| <= 255 && counter == (|used| + 1) % 256
      invariant forall i :: 0 <= i < |used| ==> used[i] == i + 1
      invariant previous == T(h, prk, info, |used|)
      invariant Fits(h, prk, info, length, out, |used|)
      decreases length - |out|
    {
      FitsStep(h, prk, info, length, out, |used|);
      previous := NextBlock(h, prk, info, previous, counter);
      used := used + [counter];
      var take := Min(|previous|, length - |out|);
      out := out + previous[..take];
      counter := (counter + 1) % 256;
    }
    FitsEnd(h, prk, info, length, out, |used|);
    r := Ok(out);
  }

  /** A shorter output is a prefix of a longer one from the same key and info. */
  lemma ShorterIsPrefix(h: Hash, prk: Octets, info: Octets, short: nat, long: nat)
    requires h.Sized() && short <= long <= 255 * DIGEST
    ensures Expand(h, prk, info, short) <= Expand(h, prk, info, long)
  {
    BlocksPrefix(h, prk, info, BlockCount(short), BlockCount(long));
  }
}
