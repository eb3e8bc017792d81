/** `toBase64` and `fromBase64` of clients/packages/crypto/src/primitives.ts, with
    the platform's `btoa` and forgiving `atob` written out. */
module Base64 {
  import opened Prelude
  import opened Bits
  import Radix

  function AlphabetAt(i: nat): char {
    if i < 26 then 'A' + (i as char)
    else if i < 52 then 'a' + ((i - 26) as char)
    else if i < 62 then '0' + ((i - 52) as char)
    else if i == 62 then '+' else '/'
  }

  function IndexOf(c: char): (i: int)
    ensures i == -1 || 0 <= i < 64
  {
    if 'A' <= c <= 'Z' then (c - 'A') as int
    else if 'a' <= c <= 'z' then (c - 'a') as int + 26
    else if '0' <= c <= '9' then (c - '0') as int + 52
    else if c == '+' then 62
    else if c == '/' then 63
    else -1
  }

  predicate InAlphabet(s: string) {
    Radix.InAlphabet(IndexOf, s)
  }

  /** Six bits to the character. */
  function CharBits(s: string): seq<bool>
    requires InAlphabet(s)
  {
    Radix.CharBits(6, IndexOf, s)
  }

  function EncodeBits(bits: seq<bool>): string {
    Radix.EncodeBits(6, AlphabetAt, bits)
  }

  function Pad(code: string): string {
    code + if |code| % 4 == 2 then "==" else if |code| % 4 == 3 then "=" else ""
  }

  function Btoa(bs: seq<Byte>): string {
    Pad(EncodeBits(BytesBits(bs)))
  }

  predicate NotAsciiSpace(c: char) {
    !(c == ' ' || c == '\t' || c == '\n' || c == '\U{0C}' || c == '\r')
  }

  /** Up to two trailing `=` of a text whose length is a multiple of four. */
  function Unpad(s: string): string {
    if |s| % 4 != 0 || s == "" || s[|s| - 1] != '=' then s
    else if s[|s| - 2] == '=' then s[..|s| - 2]
    else s[..|s| - 1]
  }

  /** None when atob throws. */
  function Atob(s: string): Option<seq<Byte>> {
    var code := Unpad(Filter(NotAsciiSpace, s));
    if |code| % 4 == 1 || !InAlphabet(code) then None else Some(BitsBytes(CharBits(code)))
  }

  // --- round trip ------------------------------------------------------------

  lemma AlphabetIndex()
    ensures Radix.Alphabet(6, IndexOf, AlphabetAt)
  {
    assert Pow2(6) == 64;
  }

  lemma EncodedBits(bits: seq<bool>) returns (n: nat)
    ensures InAlphabet(EncodeBits(bits)) && n < 6
    ensures CharBits(EncodeBits(bits)) == bits + Radix.Zeros(n)
  {
    AlphabetIndex();
    n := Radix.EncodedBits(6, IndexOf, AlphabetAt, bits);
  }

  lemma UnpadPad(code: string)
    requires InAlphabet(code) && |code| % 4 != 1
    ensures Unpad(Pad(code)) == code
  {
    assert code != "" ==> IndexOf(code[|code| - 1]) != -1;
  }

  /** The characters of an encoding: none of them is a space, a dot or a bar. */
  predicate CodeChar(c: char) {
    IndexOf(c) != -1 || c == '='
  }

  lemma EncodedChars(bs: seq<Byte>)
    ensures forall c :: c in Btoa(bs) ==> CodeChar(c)
    ensures Btoa(bs) == "" <==> bs == []
    ensures Filter(NotAsciiSpace, Btoa(bs)) == Btoa(bs)
  {
    var n := EncodedBits(BytesBits(bs));
    var code := EncodeBits(BytesBits(bs));
    forall c | c in Btoa(bs) ensures CodeChar(c) && NotAsciiSpace(c) {
      if c != '=' {
        var i :| 0 <= i < |Btoa(bs)| && Btoa(bs)[i] == c;
        assert code[i] == c;
      }
    }
    FilterAll(NotAsciiSpace, Btoa(bs));
  }

  lemma EncodedLength(bs: seq<Byte>)
    ensures |EncodeBits(BytesBits(bs))| % 4 != 1
  {
    var n := EncodedBits(BytesBits(bs));
    assert 6 * |EncodeBits(BytesBits(bs))| == 8 * |bs| + n;
  }

  /** Decoding undoes encoding, for every byte string. */
  lemma AtobBtoa(bs: seq<Byte>)
    ensures Atob(Btoa(bs)) == Some(bs)
  {
    EncodedChars(bs);
    EncodedLength(bs);
    var n := EncodedBits(BytesBits(bs));
    UnpadPad(EncodeBits(BytesBits(bs)));
    BytesRoundTrip(bs, Radix.Zeros(n));
  }
}
