/** One-time codes in both languages: `hotp` and `totpCode` of
    clients/packages/crypto/src/totp.ts, and `totpAt` of
    backend/internal/auth/totp.go. The MAC is a parameter. */
module Hotp {
  import opened Prelude
  import opened Bits

  /** HMAC: key, message, digest. */
  type Mac = (seq<Byte>, seq<Byte>) -> seq<Byte>

  /** The digests in use are at least as long as HMAC-SHA1's. */
  ghost predicate LongEnough(mac: Mac) {
    forall k: seq<Byte>, m: seq<Byte> :: |mac(k, m)| >= 20
  }

  // --- the counter bytes -----------------------------------------------------

  /** `view.setUint32(at, v)`, big-endian and modulo 2^32. */
  method SetUint32(buf: array<Byte>, at: nat, v: nat)
    requires at + 4 <= buf.Length
    modifies buf
    ensures buf[..] == old(buf[..])[..at] + BigEndian(v, 4) + old(buf[..])[at + 4..]
  {
    BigEndianBytes(v);
    buf[at] := v / 0x100_0000 % 256;
    buf[at + 1] := v / 0x1_0000 % 256;
    buf[at + 2] := v / 0x100 % 256;
    buf[at + 3] := v % 256;
  }

  /** The n low bytes of v, most significant first. */
  function BigEndian(v: nat, n: nat): (b: seq<Byte>)
    ensures |b| == n
  {
    if n == 0 then [] else BigEndian(v / 256, n - 1) + [v % 256]
  }

  lemma BigEndianBytes(v: nat)
    ensures BigEndian(v, 4) == [v / 0x100_0000 % 256, v / 0x1_0000 % 256, v / 0x100 % 256, v % 256]
  {
    assert BigEndian(v, 4) == BigEndian(v / 256, 3) + [v % 256];
    assert BigEndian(v / 256, 3) == BigEndian(v / 256 / 256, 2) + [v / 256 % 256];
    assert BigEndian(v / 256 / 256, 2) == BigEndian(v / 256 / 256 / 256, 1) + [v / 256 / 256 % 256];
    assert BigEndian(v / 256 / 256 / 256, 1) == [] + [v / 256 / 256 / 256 % 256];
  }

  function Pow256(n: nat): nat {
    if n == 0 then 1 else 256 * Pow256(n - 1)
  }

  lemma LowByte(t: nat, lo: nat)
    ensures (256 * t + lo) / 256 == t + lo / 256 && (256 * t + lo) % 256 == lo % 256
  {
  }

  lemma Shifted(hi: nat, p: nat)
    ensures hi * (256 * p) == 256 * (hi * p)
  {
  }

  lemma BigEndianStep(v: nat, n: nat)
    requires n > 0
    ensures BigEndian(v, n) == BigEndian(v / 256, n - 1) + [v % 256]
  {
  }

  /** A number above and one below 256^n are written next to each other. */
  lemma {:induction false} BigEndianConcat(hi: nat, lo: nat, m: nat, n: nat)
    requires lo < Pow256(n)
    ensures BigEndian(hi * Pow256(n) + lo, m + n) == BigEndian(hi, m) + BigEndian(lo, n)
  {
    if n > 0 {
      var p := Pow256(n - 1);
      Shifted(hi, p);
      LowByte(hi * p, lo);
      BigEndianConcat(hi, lo / 256, m, n - 1);
      BigEndianStep(256 * (hi * p) + lo, m + n);
    }
  }

  // --- truncation and rendering ----------------------------------------------

  /** `(a << 24) | (b << 16) | (c << 8) | d`: the bytes do not overlap. */
  function Word(a: int, b: int, c: int, d: int): int {
    a * 0x100_0000 + b * 0x1_0000 + c * 0x100 + d
  }

  /** The dynamic truncation of section 5.3 of RFC 4226: 31 bits starting at the
      offset the last four bits of the digest name. */
  function Truncate(digest: seq<Byte>): (v: nat)
    requires |digest| >= 20
    ensures v < 0x8000_0000
  {
    var offset := digest[|digest| - 1] % 16;
    Word(digest[offset] % 128, digest[offset + 1], digest[offset + 2], digest[offset + 3])
  }

  /** The worked example of section 5.4 of RFC 4226. */
  lemma RfcExample()
    ensures Truncate([0x1f, 0x86, 0x98, 0x69, 0x0e, 0x02, 0xca, 0x16, 0x61, 0x85,
                      0x50, 0xef, 0x7f, 0x19, 0xda, 0x8e, 0x94, 0x5b, 0x55, 0x5a]) == 0x50ef_7f19
  {
  }

  /** `s.padStart(n, "0")` */
  function PadStart(s: string, n: nat): string
    decreases n - |s|
  {
    if |s| >= n then s else PadStart("0" + s, n)
  }

  function Pow10(n: nat): (p: nat)
    ensures p > 0
  {
    if n == 0 then 1 else 10 * Pow10(n - 1)
  }

  /** The number a string of decimal digits names. */
  function DecimalValue(s: string): nat
    requires forall i :: 0 <= i < |s| ==> '0' <= s[i] <= '9'
  {
    if s == "" then 0 else 10 * DecimalValue(s[..|s| - 1]) + (s[|s| - 1] - '0') as nat
  }

  /** Exactly n decimal digits. */
  function FixedDigits(v: nat, n: nat): (s: string)
    ensures |s| == n
    ensures forall i :: 0 <= i < |s| ==> '0' <= s[i] <= '9'
  {
    if n == 0 then "" else FixedDigits(v / 10, n - 1) + [Digit(v % 10)]
  }

  lemma {:induction false} FixedDigitsValue(v: nat, n: nat)
    requires v < Pow10(n)
    ensures DecimalValue(FixedDigits(v, n)) == v
  {
    if n > 0 {
      var s := FixedDigits(v, n);
      assert s[..n - 1] == FixedDigits(v / 10, n - 1);
      FixedDigitsValue(v / 10, n - 1);
    }
  }

  lemma {:induction false} PadAppend(s: string, c: char, n: nat)
    requires n > 0
    ensures PadStart(s + [c], n) == PadStart(s, n - 1) + [c]
    decreases n - |s|
  {
    if |s| + 1 < n {
      assert "0" + (s + [c]) == ("0" + s) + [c];
      PadAppend("0" + s, c, n);
    }
  }

  lemma {:induction false} PadZeros(n: nat)
    ensures PadStart("", n) == FixedDigits(0, n)
  {
    if n > 0 {
      PadZeros(n - 1);
      PadAppend("", '0', n);
      assert "0" + "" == "" + ['0'];
      assert PadStart("", n) == PadStart("0" + "", n);
    }
  }

  /** Zero-padding the decimal form gives exactly the n digits. */
  lemma {:induction false} PaddedDecimal(v: nat, n: nat)
    requires v < Pow10(n) && n > 0
    ensures PadStart(Decimal(v), n) == FixedDigits(v, n)
  {
    if v < 10 {
      PadAppend("", Digit(v), n);
      PadZeros(n - 1);
      assert "" + [Digit(v)] == [Digit(v)];
      assert v / 10 == 0;
    } else {
      PaddedDecimal(v / 10, n - 1);
      PadAppend(Decimal(v / 10), Digit(v % 10), n);
    }
  }

  // --- the two implementations -----------------------------------------------

  /** The code both sides must show: the truncation modulo 10^digits. */
  function Code(mac: Mac, secret: seq<Byte>, counter: nat, digits: nat): string
    requires LongEnough(mac)
  {
    FixedDigits(Truncate(mac(secret, BigEndian(counter, 8))) % Pow10(digits), digits)
  }

  /** `hotp`: the counter is a JavaScript number, exact below 2^53. */
  method HotpTs(mac: Mac, secret: seq<Byte>, counter: nat, digits: nat) returns (code: string)
    requires LongEnough(mac) && digits > 0
    ensures code == Code(mac, secret, counter, digits)
  {
    var msg := new Byte[8](_ => 0);
    SetUint32(msg, 0, counter / 0x1_0000_0000);
    ghost var half := msg[..];
    SetUint32(msg, 4, counter % 0x1_0000_0000);
    MessageBytes(counter, half, msg[..]);
    var digest := mac(secret, msg[..]);
    var offset := digest[|digest| - 1] % 16;
    var bin := Word(digest[offset] % 128, digest[offset + 1], digest[offset + 2], digest[offset + 3]);
    assert bin == Truncate(digest);
    PaddedCode(mac, secret, counter, digits);
    code := PadStart(Decimal(bin % Pow10(digits)), digits);
  }

  /** The two halves, written one after the other. */
  lemma MessageBytes(counter: nat, half: seq<Byte>, msg: seq<Byte>)
    requires |half| == 8 && half[..4] == BigEndian(counter / 0x1_0000_0000, 4)
    requires msg == half[..4] + BigEndian(counter % 0x1_0000_0000, 4) + half[8..]
    ensures msg == BigEndian(counter, 8)
  {
    CounterHalves(counter);
    assert half[8..] == [];
  }

  lemma PaddedCode(mac: Mac, secret: seq<Byte>, counter: nat, digits: nat)
    requires LongEnough(mac) && digits > 0
    ensures Code(mac, secret, counter, digits)
            == PadStart(Decimal(Truncate(mac(secret, BigEndian(counter, 8))) % Pow10(digits)), digits)
  {
    PaddedDecimal(Truncate(mac(secret, BigEndian(counter, 8))) % Pow10(digits), digits);
  }

  lemma CounterHalves(counter: nat)
    ensures BigEndian(counter / 0x1_0000_0000, 4) + BigEndian(counter % 0x1_0000_0000, 4) == BigEndian(counter, 8)
  {
    assert Pow256(4) == 0x1_0000_0000;
    BigEndianConcat(counter / 0x1_0000_0000, counter % 0x1_0000_0000, 4, 4);
  }

  const TWO64: nat := 0x1_0000_0000_0000_0000

  /** `uint64(t.Unix()) / 30`, for a Unix second count of either sign. */
  function StepCounter(unix: int): nat {
    unix % TWO64 / 30
  }

  /** `binary.BigEndian.PutUint64` */
  method PutUint64(buf: array<Byte>, counter: nat)
    requires buf.Length == 8
    modifies buf
    ensures buf[..] == BigEndian(counter, 8)
  {
    var rest := counter;
    for i := 0 to 8
      invariant BigEndian(counter, 8) == BigEndian(rest, 8 - i) + buf[8 - i..]
    {
      ghost var before := buf[8 - i..];
      buf[7 - i] := rest % 256;
      assert buf[7 - i..] == [rest % 256] + before;
      rest := rest / 256;
    }
  }

  lemma SixDigits(mac: Mac, key: seq<Byte>, counter: nat, sum: seq<Byte>)
    requires LongEnough(mac) && sum == mac(key, BigEndian(counter, 8))
    ensures Code(mac, key, counter, 6) == PadStart(Decimal(Truncate(sum) % 1_000_000), 6)
  {
    assert Pow10(6) == 1_000_000;
    PaddedCode(mac, key, counter, 6);
  }

  /** The core of `totpAt`: the uint64 counter is written out byte by byte, and
      `%06d` pads to six digits. */
  method TotpAtGo(mac: Mac, key: seq<Byte>, unix: int) returns (code: string)
    requires LongEnough(mac)
    ensures code == Code(mac, key, StepCounter(unix), 6)
  {
    var counter := StepCounter(unix);
    var buf := new Byte[8](_ => 0);
    PutUint64(buf, counter);
    var sum := mac(key, buf[..]);
    var offset := sum[|sum| - 1] % 16;
    var truncated := Word(sum[offset] % 128, sum[offset + 1], sum[offset + 2], sum[offset + 3]);
    assert truncated == Truncate(sum);
    SixDigits(mac, key, counter, sum);
    code := PadStart(Decimal(truncated % 1_000_000), 6);
  }

  /** Both sides show six digits whose value is the truncation modulo 10^6, so a
      code generated by one is the code verified by the other. */
  lemma CodesAgree(mac: Mac, secret: seq<Byte>, unix: nat)
    requires LongEnough(mac) && unix < TWO64
    ensures var code := Code(mac, secret, StepCounter(unix), 6);
            && |code| == 6
            && DecimalValue(code) == Truncate(mac(secret, BigEndian(unix / 30, 8))) % 1_000_000
  {
    assert Pow10(6) == 1_000_000;
    assert StepCounter(unix) == unix / 30;
    var v := Truncate(mac(secret, BigEndian(unix / 30, 8))) % 1_000_000;
    assert v < Pow10(6) && Code(mac, secret, unix / 30, 6) == FixedDigits(v, 6);
    FixedDigitsValue(v, 6);
  }

  // --- totpCode --------------------------------------------------------------

  /** `Math.floor(nowMs / 1000 / period)` */
  function Step(nowMs: nat, period: nat): nat
    requires period > 0
  {
    nowMs / 1000 / period
  }

  /** The code of the current step, and exactly how many whole seconds from the
      current one it takes for the step to change. */
  method TotpCode(mac: Mac, secret: seq<Byte>, digits: nat, period: nat, nowMs: nat)
    returns (code: string, secondsLeft: int)
    requires LongEnough(mac) && digits > 0 && period > 0
    ensures code == Code(mac, secret, Step(nowMs, period), digits)
    ensures 1 <= secondsLeft <= period
    ensures forall ms: nat :: nowMs <= ms < 1000 * (nowMs / 1000 + secondsLeft) ==>
        Step(ms, period) == Step(nowMs, period)
    ensures Step(1000 * (nowMs / 1000 + secondsLeft), period) == Step(nowMs, period) + 1
  {
    var step := nowMs / 1000 / period;
    code := HotpTs(mac, secret, step, digits);
    secondsLeft := period - nowMs / 1000 % period;
    StepEnds(nowMs, period);
  }

  lemma StepEnds(nowMs: nat, period: nat)
    requires period > 0
    ensures var left := period - nowMs / 1000 % period;
            && (forall ms: nat :: nowMs <= ms < 1000 * (nowMs / 1000 + left) ==>
                Step(ms, period) == Step(nowMs, period))
            && Step(1000 * (nowMs / 1000 + left), period) == Step(nowMs, period) + 1
  {
    var second := nowMs / 1000;
    var step, left := second / period, period - second % period;
    assert second == period * step + second % period;
    assert period * (step + 1) == second + left;
    QuotientBounds(second + left, period, step + 1);
    forall ms: nat | nowMs <= ms < 1000 * (second + left) ensures Step(ms, period) == step {
      QuotientBounds(ms / 1000, period, step);
    }
  }
}
