/** Big-endian bit strings, the reference against which the shift-and-mask loops
    are proved. */
module Bits {

  type Byte = x: int | 0 <= x < 256

  /** The n low bits of v, most significant first. */
  function NumBits(v: nat, n: nat): (bs: seq<bool>)
    ensures |bs| == n
  {
    if n == 0 then [] else NumBits(v / 2, n - 1) + [v % 2 == 1]
  }

  function BitsNum(bs: seq<bool>): nat {
    if bs == [] then 0 else 2 * BitsNum(bs[..|bs| - 1]) + if bs[|bs| - 1] then 1 else 0
  }

  /** Logical right shift. */
  function Shr(v: nat, k: nat): nat {
    if k == 0 then v else Shr(v / 2, k - 1)
  }

  function Pow2(n: nat): nat {
    if n == 0 then 1 else 2 * Pow2(n - 1)
  }

  lemma Pow2Values()
    ensures Pow2(5) == 32 && Pow2(8) == 256 && Pow2(32) == 0x1_0000_0000
  {
    assert Pow2(12) == 4096;
    assert Pow2(20) == 1048576;
    assert Pow2(26) == 67108864;
  }

  lemma {:induction false} NumBitsSplit(v: nat, j: nat, k: nat)
    ensures NumBits(v, j + k) == NumBits(Shr(v, k), j) + NumBits(v, k)
  {
    if k > 0 {
      NumBitsSplit(v / 2, j, k - 1);
    }
  }

  lemma {:induction false} BitsRoundTrip(bs: seq<bool>)
    ensures NumBits(BitsNum(bs), |bs|) == bs
  {
    if bs != [] {
      BitsRoundTrip(bs[..|bs| - 1]);
    }
  }

  lemma {:induction false} NumRoundTrip(v: nat, n: nat)
    ensures v < Pow2(n) ==> BitsNum(NumBits(v, n)) == v
  {
    if n > 0 {
      NumRoundTrip(v / 2, n - 1);
      assert NumBits(v, n)[..n - 1] == NumBits(v / 2, n - 1);
    }
  }

  lemma {:induction false} BitsNumBound(bs: seq<bool>)
    ensures BitsNum(bs) < Pow2(|bs|)
  {
    if bs != [] {
      BitsNumBound(bs[..|bs| - 1]);
    }
  }

  /** Adding a multiple of a power of two changes no bit below it. */
  lemma {:induction false} NumBitsWrap(v: nat, r: nat, q: nat, n: nat, m: nat)
    requires n <= m && v == r + q * Pow2(m)
    ensures NumBits(v, n) == NumBits(r, n)
  {
    if n > 0 {
      var t := q * Pow2(m - 1);
      assert v == r + 2 * t;
      assert v / 2 == r / 2 + t;
      NumBitsWrap(v / 2, r / 2, q, n - 1, m - 1);
    }
  }

  // --- bytes -----------------------------------------------------------------

  function BytesBits(bs: seq<Byte>): (r: seq<bool>)
    ensures |r| == 8 * |bs|
  {
    if bs == [] then [] else NumBits(bs[0], 8) + BytesBits(bs[1..])
  }

  lemma {:induction false} BytesBitsAppend(bs: seq<Byte>, b: Byte)
    ensures BytesBits(bs + [b]) == BytesBits(bs) + NumBits(b, 8)
  {
    if bs != [] {
      assert (bs + [b])[1..] == bs[1..] + [b];
      BytesBitsAppend(bs[1..], b);
    }
  }

  function ByteOf(bits: seq<bool>): (b: Byte)
    requires |bits| == 8
  {
    BitsNumBound(bits);
    Pow2Values();
    BitsNum(bits)
  }

  /** Whole bytes of a bit string; fewer than 8 trailing bits are dropped. */
  function BitsBytes(bits: seq<bool>): (r: seq<Byte>)
    ensures |r| == |bits| / 8
  {
    if |bits| < 8 then [] else [ByteOf(bits[..8])] + BitsBytes(bits[8..])
  }

  lemma {:induction false} BytesRoundTrip(bs: seq<Byte>, tail: seq<bool>)
    requires |tail| < 8
    ensures BitsBytes(BytesBits(bs) + tail) == bs
  {
    if bs != [] {
      BytesRoundTrip(bs[1..], tail);
      var bits := BytesBits(bs) + tail;
      assert bits[..8] == NumBits(bs[0], 8) && bits[8..] == BytesBits(bs[1..]) + tail;
      Pow2Values();
      NumRoundTrip(bs[0], 8);
    }
  }
}
