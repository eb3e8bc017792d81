/** Texts that spell bit strings, a fixed number of bits to the character: what base32
    and base64 have in common. */
module Radix {
  import opened Bits

  /** The value of a character; negative outside the alphabet. */
  type Index = char -> int

  predicate InAlphabet(index: Index, s: string) {
    forall i :: 0 <= i < |s| ==> index(s[i]) >= 0
  }

  /** The unbounded bit string the characters spell. */
  function CharBits(width: nat, index: Index, s: string): (r: seq<bool>)
    requires InAlphabet(index, s)
    ensures |r| == width * |s|
  {
    if s == "" then []
    else
      assert width * |s| == width + width * (|s| - 1);
      NumBits(index(s[0]), width) + CharBits(width, index, s[1..])
  }

  lemma {:induction false} CharBitsConcat(width: nat, index: Index, a: string, b: string)
    requires InAlphabet(index, a) && InAlphabet(index, b)
    ensures InAlphabet(index, a + b)
    ensures CharBits(width, index, a + b) == CharBits(width, index, a) + CharBits(width, index, b)
  {
    if a == "" {
      assert a + b == b;
    } else {
      assert (a + b)[1..] == a[1..] + b;
      CharBitsConcat(width, index, a[1..], b);
    }
  }

  lemma CharBitsOne(width: nat, index: Index, c: char)
    requires index(c) >= 0
    ensures InAlphabet(index, [c]) && CharBits(width, index, [c]) == NumBits(index(c), width)
  {
    assert [c][1..] == "";
  }

  // --- the inverse -----------------------------------------------------------

  /** The alphabet: its characters have the values they stand at. */
  ghost predicate Alphabet(width: nat, index: Index, at: nat -> char) {
    width > 0 && forall i: nat :: i < Pow2(width) ==> index(at(i)) == i
  }

  function Zeros(n: nat): seq<bool> {
    seq(n, _ => false)
  }

  /** The characters of an encoding, without padding; the last group is filled up with
      zero bits. */
  function EncodeBits(width: nat, at: nat -> char, bits: seq<bool>): (code: string)
    requires width > 0
  {
    if bits == [] then ""
    else if |bits| < width then [at(BitsNum(bits + Zeros(width - |bits|)))]
    else [at(BitsNum(bits[..width]))] + EncodeBits(width, at, bits[width..])
  }

  lemma GroupBits(width: nat, index: Index, at: nat -> char, bits: seq<bool>)
    requires Alphabet(width, index, at) && |bits| == width
    ensures index(at(BitsNum(bits))) == BitsNum(bits) && NumBits(BitsNum(bits), width) == bits
  {
    BitsNumBound(bits);
    BitsRoundTrip(bits);
  }

  lemma LastGroup(width: nat, index: Index, at: nat -> char, bits: seq<bool>)
    requires Alphabet(width, index, at) && 0 < |bits| < width
    ensures InAlphabet(index, EncodeBits(width, at, bits))
    ensures CharBits(width, index, EncodeBits(width, at, bits)) == bits + Zeros(width - |bits|)
  {
    var group := bits + Zeros(width - |bits|);
    GroupBits(width, index, at, group);
    CharBitsOne(width, index, at(BitsNum(group)));
  }

  lemma FirstGroup(width: nat, index: Index, at: nat -> char, bits: seq<bool>)
    requires Alphabet(width, index, at) && |bits| >= width
    requires InAlphabet(index, EncodeBits(width, at, bits[width..]))
    ensures InAlphabet(index, EncodeBits(width, at, bits))
    ensures CharBits(width, index, EncodeBits(width, at, bits))
         == bits[..width] + CharBits(width, index, EncodeBits(width, at, bits[width..]))
  {
    var c := at(BitsNum(bits[..width]));
    GroupBits(width, index, at, bits[..width]);
    CharBitsOne(width, index, c);
    CharBitsConcat(width, index, [c], EncodeBits(width, at, bits[width..]));
  }

  lemma {:induction false} EncodedBits(width: nat, index: Index, at: nat -> char, bits: seq<bool>) returns (n: nat)
    requires Alphabet(width, index, at)
    ensures InAlphabet(index, EncodeBits(width, at, bits)) && n < width
    ensures CharBits(width, index, EncodeBits(width, at, bits)) == bits + Zeros(n)
  {
    if bits == [] {
      n := 0;
    } else if |bits| < width {
      n := width - |bits|;
      LastGroup(width, index, at, bits);
    } else {
      n := EncodedBits(width, index, at, bits[width..]);
      FirstGroup(width, index, at, bits);
      assert bits[..width] + (bits[width..] + Zeros(n)) == bits + Zeros(n);
    }
  }
}
