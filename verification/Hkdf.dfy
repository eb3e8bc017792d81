/** `hkdfExpand` of clients/packages/crypto/src/primitives.ts. */
module Hkdf {
  import opened Bits

  const HASH_LEN: nat := 32

  type Hmac = (seq<Byte>, seq<Byte>) -> seq<Byte>

  ghost predicate IsSha256(hmac: Hmac) {
    forall k: seq<Byte>, m: seq<Byte> :: |hmac(k, m)| == HASH_LEN
  }

  /** T(i) of section 2.3 of RFC 5869. Its counter octet exists only up to 255. */
  function T(hmac: Hmac, prk: seq<Byte>, info: seq<Byte>, i: nat): seq<Byte>
    requires i <= 255
  {
    if i == 0 then [] else hmac(prk, T(hmac, prk, info, i - 1) + info + [i])
  }

  /** T(1) | T(2) | ... | T(n) */
  function Rfc5869(hmac: Hmac, prk: seq<Byte>, info: seq<Byte>, n: nat): seq<Byte>
    requires n <= 255
  {
    if n == 0 then [] else Rfc5869(hmac, prk, info, n - 1) + T(hmac, prk, info, n)
  }

  /** The block the loop computes: storing the counter in a byte wraps it. */
  function Block(hmac: Hmac, prk: seq<Byte>, info: seq<Byte>, i: nat): seq<Byte> {
    if i == 0 then [] else hmac(prk, Block(hmac, prk, info, i - 1) + info + [i % 256])
  }

  function Blocks(hmac: Hmac, prk: seq<Byte>, info: seq<Byte>, n: nat): (okm: seq<Byte>)
    requires IsSha256(hmac)
    ensures |okm| == n * HASH_LEN
  {
    if n == 0 then [] else Blocks(hmac, prk, info, n - 1) + Block(hmac, prk, info, n)
  }

  lemma {:induction false} BlockIsT(hmac: Hmac, prk: seq<Byte>, info: seq<Byte>, i: nat)
    requires i <= 255
    ensures Block(hmac, prk, info, i) == T(hmac, prk, info, i)
  {
    if i > 0 {
      BlockIsT(hmac, prk, info, i - 1);
    }
  }

  lemma {:induction false} BlocksAreRfc(hmac: Hmac, prk: seq<Byte>, info: seq<Byte>, n: nat)
    requires IsSha256(hmac) && n <= 255
    ensures Blocks(hmac, prk, info, n) == Rfc5869(hmac, prk, info, n)
  {
    if n > 0 {
      BlocksAreRfc(hmac, prk, info, n - 1);
      BlockIsT(hmac, prk, info, n);
    }
  }

  function BlockCount(length: nat): nat {
    (length + HASH_LEN - 1) / HASH_LEN
  }

  method HkdfExpand(hmac: Hmac, prk: seq<Byte>, info: seq<Byte>, length: nat) returns (out: seq<Byte>)
    requires IsSha256(hmac)
    ensures out == Blocks(hmac, prk, info, BlockCount(length))[..length]
    ensures length <= 255 * HASH_LEN ==>
              |Rfc5869(hmac, prk, info, BlockCount(length))| >= length
              && out == Rfc5869(hmac, prk, info, BlockCount(length))[..length]
  {
    var blocks := BlockCount(length);
    var okm := new Byte[blocks * HASH_LEN](_ => 0);
    var prev: seq<Byte> := [];
    for i := 0 to blocks
      invariant prev == Block(hmac, prk, info, i)
      invariant okm[..i * HASH_LEN] == Blocks(hmac, prk, info, i)
    {
      prev := hmac(prk, prev + info + [(i + 1) % 256]);
      SetAt(okm, prev, i * HASH_LEN);
      assert okm[..(i + 1) * HASH_LEN] == okm[..i * HASH_LEN] + prev;
    }
    out := okm[..length];
    assert okm[..length] == okm[..blocks * HASH_LEN][..length];
    if length <= 255 * HASH_LEN { BlocksAreRfc(hmac, prk, info, blocks); }
  }

  /** `dst.set(src, at)` */
  method SetAt(dst: array<Byte>, src: seq<Byte>, at: nat)
    requires at + |src| <= dst.Length
    modifies dst
    ensures dst[..at] == old(dst[..at]) && dst[at..at + |src|] == src
    ensures dst[at + |src|..] == old(dst[at + |src|..])
  {
    for k := 0 to |src|
      invariant dst[..at] == old(dst[..at]) && dst[at..at + k] == src[..k]
      invariant dst[at + k..] == old(dst[at + k..])
    {
      dst[at + k] := src[k];
    }
  }

  lemma {:induction false} BlocksPrefix(hmac: Hmac, prk: seq<Byte>, info: seq<Byte>, m: nat, n: nat)
    requires IsSha256(hmac) && m <= n
    ensures Blocks(hmac, prk, info, m) <= Blocks(hmac, prk, info, n)
    decreases n - m
  {
    if m < n {
      BlocksPrefix(hmac, prk, info, m, n - 1);
    }
  }

  /** Asking for fewer bytes gives a prefix of asking for more. */
  lemma ShorterIsPrefix(hmac: Hmac, prk: seq<Byte>, info: seq<Byte>, short: nat, long: nat)
    requires IsSha256(hmac) && short <= long
    ensures Blocks(hmac, prk, info, BlockCount(short))[..short]
         == Blocks(hmac, prk, info, BlockCount(long))[..long][..short]
  {
    BlocksPrefix(hmac, prk, info, BlockCount(short), BlockCount(long));
  }
}
