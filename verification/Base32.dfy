/** `base32Decode` of clients/packages/crypto/src/totp.ts. */
module Base32 {
  import opened Prelude
  import opened Bits
  import Radix
  import Json

  const ALPHABET: string := "ABCDEFGHIJKLMNOPQRSTUVWXYZ234567"

  // --- cleaning --------------------------------------------------------------

  function AsciiUpper(c: char): char {
    if 'a' <= c <= 'z' then c - 'a' + 'A' else c
  }

  /** `toUpperCase`; `other` gives the upper case of the non-ASCII characters, some
      of which become several characters or ASCII letters. */
  function ToUpper(other: char -> string, s: string): string {
    if s == "" then ""
    else (if s[0] < '\U{80}' then [AsciiUpper(s[0])] else other(s[0])) + ToUpper(other, s[1..])
  }

  predicate Dropped(c: char) {
    Json.IsSpace(c) || c == '-'
  }

  predicate Kept(c: char) {
    !Dropped(c)
  }

  function Strip(s: string): string {
    Filter(Kept, s)
  }

  function TrimPadding(s: string): string {
    if s != "" && s[|s| - 1] == '=' then TrimPadding(s[..|s| - 1]) else s
  }

  function Clean(other: char -> string, s: string): string {
    TrimPadding(Strip(ToUpper(other, s)))
  }

  // --- decoding --------------------------------------------------------------

  function IndexOf(c: char): (i: int)
    ensures i == -1 || (0 <= i < 32 && ALPHABET[i] == c)
  {
    if 'A' <= c <= 'Z' then (c - 'A') as int
    else if '2' <= c <= '7' then (c - '2') as int + 26
    else -1
  }

  predicate InAlphabet(clean: string) {
    Radix.InAlphabet(IndexOf, clean)
  }

  /** The unbounded bit string the characters spell, five bits each. */
  function CharBits(clean: string): (r: seq<bool>)
    requires InAlphabet(clean)
    ensures |r| == 5 * |clean|
  {
    Radix.CharBits(5, IndexOf, clean)
  }

  /** What the loop must return: the whole bytes of that bit string. */
  function Decoded(clean: string): Option<seq<Byte>> {
    if clean == "" || !InAlphabet(clean) then None else Some(BitsBytes(CharBits(clean)))
  }

  const TWO32: nat := 0x1_0000_0000

  /** The signed 32-bit reading of an integer. */
  function ToInt32(x: int): int {
    var u := x % TWO32;
    if u >= 0x8000_0000 then u - TWO32 else u
  }

  function ToUint32(x: int): nat {
    x % TWO32
  }

  /** `(value << 5) | idx`: the shift leaves five zero bits, so the OR is a sum. */
  function PushFive(value: int, idx: nat): int
    requires idx < 32
  {
    ToInt32(value * 32) + idx
  }

  /** `(value >>> n) & 0xff` */
  function ByteAt(value: int, n: nat): Byte {
    Shr(ToUint32(value), n) % 256
  }

  /** However often the accumulator has wrapped, five more bits go in at the end. */
  lemma PushBits(value: int, idx: nat, bits: nat)
    requires idx < 32 && bits <= 27
    ensures NumBits(ToUint32(PushFive(value, idx)), bits + 5) == NumBits(ToUint32(value), bits) + NumBits(idx, 5)
  {
    var u := ToUint32(value);
    var sum := u * 32 + idx;
    var next := ToUint32(PushFive(value, idx));
    PushFiveWraps(value, idx);
    Pow2Values();
    NumBitsWrap(sum, next, sum / TWO32, bits + 5, 32);
    NumBitsSplit(sum, bits, 5);
    ShiftFive(u, idx);
  }

  lemma PushFiveWraps(value: int, idx: nat)
    requires idx < 32
    ensures ToUint32(PushFive(value, idx)) == (ToUint32(value) * 32 + idx) % TWO32
  {
    var u, q := ToUint32(value), value / TWO32;
    assert value * 32 == q * 32 * TWO32 + u * 32;
    assert (value * 32) % TWO32 == (u * 32) % TWO32;
  }

  lemma ShiftFive(u: nat, idx: nat)
    requires idx < 32
    ensures Shr(u * 32 + idx, 5) == u
    ensures NumBits(u * 32 + idx, 5) == NumBits(idx, 5)
  {
    var x := u * 32 + idx;
    Pow2Values();
    NumBitsWrap(x, idx, u, 5, 5);
    ShrFive(x);
  }

  lemma ShrFive(x: nat)
    ensures Shr(x, 5) == x / 32
  {
    assert Shr(x, 5) == Shr(x / 2, 4) == Shr(x / 4, 3);
    assert Shr(x / 4, 3) == Shr(x / 8, 2) == Shr(x / 16, 1) == x / 32;
  }

  /** Taking the top byte out of at least eight pending bits. */
  lemma PopByte(value: int, bits: nat)
    requires bits >= 8
    ensures NumBits(ToUint32(value), bits) == NumBits(ByteAt(value, bits - 8), 8) + NumBits(ToUint32(value), bits - 8)
  {
    var top := Shr(ToUint32(value), bits - 8);
    NumBitsSplit(ToUint32(value), 8, bits - 8);
    Pow2Values();
    NumBitsWrap(top, top % 256, top / 256, 8, 8);
  }

  /** The bits read so far: the bytes already written, then the pending ones. */
  function Read(out: seq<Byte>, value: int, bits: nat): seq<bool> {
    BytesBits(out) + NumBits(ToUint32(value), bits)
  }

  lemma ReadPush(out: seq<Byte>, value: int, bits: nat, idx: nat)
    requires idx < 32 && bits < 8
    ensures Read(out, PushFive(value, idx), bits + 5) == Read(out, value, bits) + NumBits(idx, 5)
  {
    PushBits(value, idx, bits);
  }

  lemma ReadPop(out: seq<Byte>, value: int, bits: nat)
    requires bits >= 8
    ensures Read(out + [ByteAt(value, bits - 8)], value, bits - 8) == Read(out, value, bits)
  {
    var b := ByteAt(value, bits - 8);
    PopByte(value, bits);
    BytesBitsAppend(out, b);
  }

  lemma CharBitsAppend(clean: string, c: char)
    requires InAlphabet(clean) && IndexOf(c) != -1
    ensures InAlphabet(clean + [c])
    ensures CharBits(clean + [c]) == CharBits(clean) + NumBits(IndexOf(c), 5)
  {
    Radix.CharBitsOne(5, IndexOf, c);
    Radix.CharBitsConcat(5, IndexOf, clean, [c]);
  }

  lemma Finished(clean: string, out: seq<Byte>, value: int, bits: nat)
    requires clean != "" && InAlphabet(clean) && bits < 8
    requires CharBits(clean) == Read(out, value, bits)
    ensures Decoded(clean) == Some(out) && |out| == 5 * |clean| / 8
  {
    BytesRoundTrip(out, NumBits(ToUint32(value), bits));
  }

  lemma Turn(clean: string, i: nat, out: seq<Byte>, value: int, bits: nat)
    requires i < |clean| && InAlphabet(clean[..i]) && bits < 8 && IndexOf(clean[i]) != -1
    requires CharBits(clean[..i]) == Read(out, value, bits)
    ensures InAlphabet(clean[..i + 1])
    ensures CharBits(clean[..i + 1]) == Read(out, PushFive(value, IndexOf(clean[i])), bits + 5)
  {
    CharBitsAppend(clean[..i], clean[i]);
    assert clean[..i + 1] == clean[..i] + [clean[i]];
    ReadPush(out, value, bits, IndexOf(clean[i]));
  }

  /** After i characters: their bits are those of the bytes out and the pending ones. */
  ghost predicate Decoding(clean: string, i: nat, out: seq<Byte>, value: int, bits: nat) {
    i <= |clean| && bits < 8 && InAlphabet(clean[..i]) && CharBits(clean[..i]) == Read(out, value, bits)
  }

  lemma TurnKept(clean: string, i: nat, out: seq<Byte>, value: int, bits: nat)
    requires Decoding(clean, i, out, value, bits) && i < |clean| && IndexOf(clean[i]) != -1
    ensures var pushed := PushFive(value, IndexOf(clean[i]));
            if bits + 5 >= 8 then Decoding(clean, i + 1, out + [ByteAt(pushed, bits - 3)], pushed, bits - 3)
            else Decoding(clean, i + 1, out, pushed, bits + 5)
  {
    Turn(clean, i, out, value, bits);
    if bits + 5 >= 8 {
      ReadPop(out, PushFive(value, IndexOf(clean[i])), bits + 5);
    }
  }

  method Base32Decode(other: char -> string, s: string) returns (r: Option<seq<Byte>>)
    ensures r == Decoded(Clean(other, s))
    ensures r.Some? ==> |r.value| == 5 * |Clean(other, s)| / 8
  {
    var clean := Clean(other, s);
    if clean == "" { return None; }
    var bits := 0;
    var value := 0;
    var out: seq<Byte> := [];
    for i := 0 to |clean|
      invariant bits >= 0 && Decoding(clean, i, out, value, bits)
    {
      var idx := IndexOf(clean[i]);
      if idx == -1 {
        assert !InAlphabet(clean);
        return None;
      }
      TurnKept(clean, i, out, value, bits);
      value := PushFive(value, idx);
      bits := bits + 5;
      if bits >= 8 {
        out := out + [ByteAt(value, bits - 8)];
        bits := bits - 8;
      }
    }
    assert clean[..|clean|] == clean;
    Finished(clean, out, value, bits);
    r := Some(out);
  }

  // --- the inverse of RFC 4648 section 6 -------------------------------------

  function AlphabetAt(i: nat): char {
    if i < 32 then ALPHABET[i] else 'A'
  }

  lemma AlphabetIndex()
    ensures Radix.Alphabet(5, IndexOf, AlphabetAt)
  {
    Pow2Values();
    forall i: nat | i < 32 ensures IndexOf(AlphabetAt(i)) == i {
      IndexOfAt(i);
    }
  }

  lemma IndexOfAt(i: nat)
    requires i < 32
    ensures IndexOf(ALPHABET[i]) == i
  {
  }

  function Encode(bs: seq<Byte>): string {
    Radix.EncodeBits(5, AlphabetAt, BytesBits(bs))
  }

  lemma EncodedBits(bs: seq<Byte>) returns (n: nat)
    ensures InAlphabet(Encode(bs)) && n < 5 && CharBits(Encode(bs)) == BytesBits(bs) + Radix.Zeros(n)
  {
    AlphabetIndex();
    n := Radix.EncodedBits(5, IndexOf, AlphabetAt, BytesBits(bs));
  }

  lemma DecodeEncoded(bs: seq<Byte>)
    requires bs != []
    ensures Decoded(Encode(bs)) == Some(bs)
  {
    var n := EncodedBits(bs);
    BytesRoundTrip(bs, Radix.Zeros(n));
    assert Encode(bs) != "";
  }

  /** Trailing padding, possibly broken up by spaces and dashes. */
  predicate Padding(s: string) {
    forall i :: 0 <= i < |s| ==> s[i] == '=' || (s[i] < '\U{80}' && Dropped(s[i]))
  }

  /** `s` is a way to type `code`: any ASCII casing, ASCII spaces and dashes
      anywhere, padding at the end. */
  predicate Spells(s: string, code: string) {
    if s == "" then code == ""
    else if s[0] < '\U{80}' && Dropped(s[0]) then Spells(s[1..], code)
    else if s[0] == '=' then code == "" && Padding(s)
    else s[0] < '\U{80}' && code != "" && AsciiUpper(s[0]) == code[0] && Spells(s[1..], code[1..])
  }

  lemma DroppedUpper(c: char)
    ensures Dropped(AsciiUpper(c)) == Dropped(c)
  {
  }

  predicate AllPadding(s: string) {
    forall i :: 0 <= i < |s| ==> s[i] == '='
  }

  lemma {:induction false} CleanPadding(other: char -> string, s: string)
    requires Padding(s)
    ensures AllPadding(Strip(ToUpper(other, s)))
  {
    if s != "" {
      DroppedUpper(s[0]);
      CleanPadding(other, s[1..]);
      FilterCons(Kept, AsciiUpper(s[0]), ToUpper(other, s[1..]));
      assert ToUpper(other, s) == [AsciiUpper(s[0])] + ToUpper(other, s[1..]);
    }
  }

  lemma {:induction false} TrimAll(s: string, pad: string)
    requires AllPadding(pad)
    requires s == "" || s[|s| - 1] != '='
    ensures TrimPadding(s + pad) == s
    decreases |pad|
  {
    if pad == "" {
      assert s + pad == s;
    } else {
      assert (s + pad)[..|s + pad| - 1] == s + pad[..|pad| - 1];
      TrimAll(s, pad[..|pad| - 1]);
    }
  }

  lemma {:induction false} StripSpelled(other: char -> string, s: string, code: string) returns (pad: string)
    requires Spells(s, code)
    ensures AllPadding(pad) && Strip(ToUpper(other, s)) == code + pad
  {
    if s == "" {
      pad := "";
    } else if s[0] == '=' {
      CleanPadding(other, s);
      pad := Strip(ToUpper(other, s));
    } else {
      var up := AsciiUpper(s[0]);
      DroppedUpper(s[0]);
      FilterCons(Kept, up, ToUpper(other, s[1..]));
      pad := StripSpelled(other, s[1..], if Dropped(s[0]) then code else code[1..]);
    }
  }

  /** Every non-empty byte string is recovered from every spelling of its RFC 4648
      section 6 encoding. */
  lemma DecodesEverySpelling(other: char -> string, s: string, bs: seq<Byte>)
    requires bs != [] && Spells(s, Encode(bs))
    ensures Decoded(Clean(other, s)) == Some(bs)
  {
    var code := Encode(bs);
    var n := EncodedBits(bs);
    var pad := StripSpelled(other, s, code);
    assert code != "" ==> IndexOf(code[|code| - 1]) != -1;
    TrimAll(code, pad);
    DecodeEncoded(bs);
  }
}
