/** `VerifyTOTPAt` of backend/internal/auth/totp.go. */
module TotpCheck {
  import opened Prelude
  import opened Bits
  import Hotp

  const SECOND: int := 1_000_000_000
  const PERIOD: int := 30 * SECOND

  /** The MAC, and the base32 decoding of a stored secret (None when it fails). */
  datatype TotpEnv = TotpEnv(mac: Hotp.Mac, decode: string -> Option<seq<Byte>>)

  ghost predicate Sound(env: TotpEnv) {
    Hotp.LongEnough(env.mac)
  }

  /** Go's `strings.TrimSpace`. */
  function TrimSpace(s: string): string {
    if s != "" && IsSpace(s[0]) then TrimSpace(s[1..])
    else if s != "" && IsSpace(s[|s| - 1]) then TrimSpace(s[..|s| - 1])
    else s
  }

  predicate IsSpace(c: char) {
    c == ' ' || '\t' <= c <= '\r' || c == '\U{85}' || c == '\U{A0}' || c == '\U{1680}' || '\U{2000}' <= c <= '\U{200A}'
    || c == '\U{2028}' || c == '\U{2029}' || c == '\U{202F}' || c == '\U{205F}' || c == '\U{3000}'
  }

  function Unix(t: int): int {
    t / SECOND
  }

  function CounterAt(t: int): nat {
    Hotp.StepCounter(Unix(t))
  }

  /** The code of the secret at t. */
  function CodeAt(env: TotpEnv, key: seq<Byte>, t: int): (code: string)
    requires Sound(env)
    ensures |code| == 6
  {
    Hotp.Code(env.mac, key, CounterAt(t), 6)
  }

  /** The skews tried, in order. */
  function Skew(i: nat): int {
    if i == 0 then 0 else if i == 1 then -PERIOD else PERIOD
  }

  function Candidates(env: TotpEnv, key: seq<Byte>, now: int): (codes: seq<string>)
    requires Sound(env)
    ensures |codes| == 3
  {
    seq(3, i requires 0 <= i < 3 => CodeAt(env, key, now + Skew(i)))
  }

  /** The first index that holds x. */
  function FirstIndex(xs: seq<string>, x: string): (i: Option<nat>)
    ensures i.Some? ==> i.value < |xs| && xs[i.value] == x && x !in xs[..i.value]
    ensures i.None? ==> x !in xs
  {
    if xs == [] then None
    else if xs[0] == x then Some(0)
    else
      match FirstIndex(xs[1..], x)
      case Some(i) =>
        assert xs[..i + 1] == [xs[0]] + xs[1..][..i];
        Some(i + 1)
      case None => None
  }

  /** The first skew whose code matches decides the counter. */
  function Matched(env: TotpEnv, key: seq<Byte>, code: string, now: int): Option<nat>
    requires Sound(env)
  {
    match FirstIndex(Candidates(env, key, now), code)
    case Some(i) => Some(CounterAt(now + Skew(i)))
    case None => None
  }

  function Verified(env: TotpEnv, secret: string, code: string, now: int): Option<nat>
    requires Sound(env)
  {
    var trimmed := TrimSpace(code);
    var key := env.decode(secret);
    if |trimmed| != 6 || key.None? then None else Matched(env, key.value, trimmed, now)
  }

  /** None of the first i codes is the given one. */
  ghost predicate Passed(codes: seq<string>, code: string, i: nat) {
    i <= |codes| && forall j :: 0 <= j < i ==> codes[j] != code
  }

  lemma MatchedIs(env: TotpEnv, key: seq<Byte>, code: string, now: int, i: nat)
    requires Sound(env) && i <= 3 && Passed(Candidates(env, key, now), code, i)
    ensures i < 3 && Candidates(env, key, now)[i] == code ==>
        Matched(env, key, code, now) == Some(CounterAt(now + Skew(i)))
    ensures i == 3 ==> Matched(env, key, code, now) == None
  {
    FirstIndexIs(Candidates(env, key, now), code, i);
  }

  lemma FirstIndexIs(codes: seq<string>, code: string, i: nat)
    requires Passed(codes, code, i)
    ensures i < |codes| && codes[i] == code ==> FirstIndex(codes, code) == Some(i)
    ensures i == |codes| ==> FirstIndex(codes, code) == None
  {
    var first := FirstIndex(codes, code);
    assert i < |codes| && first.Some? && i < first.value ==> codes[..first.value][i] == codes[i];
  }

  method VerifyTOTPAt(env: TotpEnv, secret: string, code: string, now: int) returns (counter: Option<nat>)
    requires Sound(env)
    ensures counter == Verified(env, secret, code, now)
  {
    var trimmed := TrimSpace(code);
    if |trimmed| != 6 { return None; }
    for i := 0 to 3
      invariant i > 0 ==> env.decode(secret).Some? && Passed(Candidates(env, env.decode(secret).value, now), trimmed, i)
    {
      var t := now + Skew(i);
      var key := env.decode(secret);
      if key.None? { return None; }
      var want := CodeFor(env, key.value, now, i);
      MatchedIs(env, key.value, trimmed, now, i);
      if want == trimmed {
        return Some(CounterAt(t));
      }
    }
    MatchedIs(env, env.decode(secret).value, trimmed, now, 3);
    return None;
  }

  method CodeFor(env: TotpEnv, key: seq<Byte>, now: int, i: nat) returns (want: string)
    requires Sound(env) && i < 3
    ensures want == Candidates(env, key, now)[i]
  {
    want := Hotp.TotpAtGo(env.mac, key, Unix(now + Skew(i)));
  }

  /** The clock step of an instant after the epoch. */
  function ClockStep(now: int): int {
    Unix(now) / 30
  }

  /** The highest counter there is. */
  const LAST_COUNTER: nat := (Hotp.TWO64 - 1) / 30

  /** A counter the code can accept at a clock step: the step or a neighbour; and in the
      first step after the epoch, where the previous one wraps, the two highest. */
  predicate AtStep(step: int, c: nat) {
    c <= LAST_COUNTER && (step - 1 <= c <= step + 1 || (step == 0 && LAST_COUNTER - 1 <= c))
  }

  /** `time.Now().Unix()` is an int64, so only instants before the epoch are out. */
  predicate SinceEpoch(now: int) {
    0 <= now && Unix(now) + 30 < Hotp.TWO64
  }

  /** The counter of an accepted code is that of the clock or of half a minute before or
      after it, and the code is the one for that counter. */
  lemma AcceptedNearClock(env: TotpEnv, secret: string, code: string, now: int)
    requires Sound(env)
    ensures var c := Verified(env, secret, code, now);
            c.Some? ==> && (c.value == CounterAt(now) || c.value == CounterAt(now - PERIOD)
                            || c.value == CounterAt(now + PERIOD))
                        && env.decode(secret).Some?
                        && TrimSpace(code) == Hotp.Code(env.mac, env.decode(secret).value, c.value, 6)
  {
    assert forall i :: 0 <= i < 3 ==>
        now + Skew(i) == now || now + Skew(i) == now - PERIOD || now + Skew(i) == now + PERIOD;
  }

  lemma CountersNearby(now: int)
    requires SinceEpoch(now)
    ensures ClockStep(now) >= 0
    ensures AtStep(ClockStep(now), CounterAt(now)) && AtStep(ClockStep(now), CounterAt(now - PERIOD))
    ensures AtStep(ClockStep(now), CounterAt(now + PERIOD))
    ensures PERIOD <= now ==> CounterAt(now - PERIOD) == ClockStep(now) - 1
  {
    assert Unix(now - PERIOD) == Unix(now) - 30 && Unix(now + PERIOD) == Unix(now) + 30;
  }

  lemma CandidateCodes(env: TotpEnv, key: seq<Byte>, now: int, x: string)
    requires Sound(env)
    ensures x in Candidates(env, key, now)
            <==> x == CodeAt(env, key, now) || x == CodeAt(env, key, now - PERIOD)
                 || x == CodeAt(env, key, now + PERIOD)
  {
    var codes := Candidates(env, key, now);
    CandidateAt(env, key, now, 0);
    CandidateAt(env, key, now, 1);
    CandidateAt(env, key, now, 2);
    assert codes == [codes[0], codes[1], codes[2]];
  }

  lemma CandidateAt(env: TotpEnv, key: seq<Byte>, now: int, i: nat)
    requires Sound(env) && i < 3
    ensures Candidates(env, key, now)[i]
        == CodeAt(env, key, if i == 0 then now else if i == 1 then now - PERIOD else now + PERIOD)
  {
    assert now + Skew(i) == if i == 0 then now else if i == 1 then now - PERIOD else now + PERIOD;
  }

  /** A code is accepted exactly when, spaces aside, it is the current one or that of
      a neighbouring step. */
  lemma AcceptedCodes(env: TotpEnv, secret: string, code: string, now: int)
    requires Sound(env)
    ensures var key, c := env.decode(secret), TrimSpace(code);
            Verified(env, secret, code, now).Some?
            <==> key.Some? && (c == CodeAt(env, key.value, now) || c == CodeAt(env, key.value, now - PERIOD)
                               || c == CodeAt(env, key.value, now + PERIOD))
  {
    var key := env.decode(secret);
    if key.Some? {
      CandidateCodes(env, key.value, now, TrimSpace(code));
      var _ := FirstIndex(Candidates(env, key.value, now), TrimSpace(code));
    }
  }

  // --- which codes are accepted ----------------------------------------------

  /** Now, half a minute ago, in half a minute: the order they are tried in. */
  function Instant(now: int, i: nat): int {
    if i == 0 then now else if i == 1 then now - 30_000_000_000 else now + 30_000_000_000
  }

  /** The code, spaces aside, is that of the first instant it matches. */
  ghost predicate MatchesFirst(env: TotpEnv, key: seq<Byte>, code: string, now: int, i: nat)
    requires Sound(env)
  {
    && i < 3 && TrimSpace(code) == CodeAt(env, key, Instant(now, i))
    && forall j :: 0 <= j < i ==> TrimSpace(code) != CodeAt(env, key, Instant(now, j))
  }

  lemma CandidateIs(env: TotpEnv, key: seq<Byte>, now: int, i: nat)
    requires Sound(env) && i < 3
    ensures Candidates(env, key, now)[i] == CodeAt(env, key, Instant(now, i)) && now + Skew(i) == Instant(now, i)
  {
    assert now + Skew(i) == Instant(now, i);
  }

  lemma SkewedIs(now: int, i: nat)
    ensures now + Skew(i) == Instant(now, i)
  {
  }

  lemma FirstIs(env: TotpEnv, key: seq<Byte>, code: string, now: int, i: nat)
    requires Sound(env)
    ensures FirstIndex(Candidates(env, key, now), TrimSpace(code)) == Some(i) <==> MatchesFirst(env, key, code, now, i)
  {
    var codes, x := Candidates(env, key, now), TrimSpace(code);
    forall j: nat | j < 3 ensures codes[j] == CodeAt(env, key, Instant(now, j)) {
      CandidateIs(env, key, now, j);
    }
    if FirstIndex(codes, x) == Some(i) {
      assert forall j :: 0 <= j < i ==> codes[..i][j] == codes[j];
    }
    if MatchesFirst(env, key, code, now, i) {
      FirstIndexIs(codes, x, i);
    }
  }

  lemma MatchedAt(env: TotpEnv, key: seq<Byte>, code: string, now: int)
    requires Sound(env)
    ensures var first := FirstIndex(Candidates(env, key, now), code);
            Matched(env, key, code, now) == if first.Some? then Some(CounterAt(Instant(now, first.value))) else None
  {
    var first := FirstIndex(Candidates(env, key, now), code);
    if first.Some? {
      SkewedIs(now, first.value);
    }
  }

  lemma MatchedThen(env: TotpEnv, key: seq<Byte>, code: string, now: int) returns (i: nat)
    requires Sound(env) && Matched(env, key, TrimSpace(code), now).Some?
    ensures MatchesFirst(env, key, code, now, i)
    ensures Matched(env, key, TrimSpace(code), now) == Some(CounterAt(Instant(now, i)))
  {
    MatchedAt(env, key, TrimSpace(code), now);
    i := FirstIndex(Candidates(env, key, now), TrimSpace(code)).value;
    FirstIs(env, key, code, now, i);
  }

  lemma MatchedIf(env: TotpEnv, key: seq<Byte>, code: string, now: int, i: nat)
    requires Sound(env) && MatchesFirst(env, key, code, now, i)
    ensures Matched(env, key, TrimSpace(code), now) == Some(CounterAt(Instant(now, i)))
  {
    FirstIs(env, key, code, now, i);
    MatchedAt(env, key, TrimSpace(code), now);
  }

  lemma MatchedExactly(env: TotpEnv, key: seq<Byte>, code: string, now: int, c: nat)
    requires Sound(env)
    ensures Matched(env, key, TrimSpace(code), now) == Some(c)
            <==> exists i: nat :: MatchesFirst(env, key, code, now, i) && c == CounterAt(Instant(now, i))
  {
    if Matched(env, key, TrimSpace(code), now) == Some(c) {
      var i := MatchedThen(env, key, code, now);
    } else if i: nat :| MatchesFirst(env, key, code, now, i) && c == CounterAt(Instant(now, i)) {
      MatchedIf(env, key, code, now, i);
    }
  }

  /** A code is accepted with a counter exactly when the secret decodes and the code is
      that of the first instant it matches, with that instant's counter. */
  lemma VerifiedExactly(env: TotpEnv, secret: string, code: string, now: int, c: nat)
    requires Sound(env)
    ensures Verified(env, secret, code, now) == Some(c)
            <==> && env.decode(secret).Some?
                 && exists i: nat ::
                      MatchesFirst(env, env.decode(secret).value, code, now, i) && c == CounterAt(Instant(now, i))
  {
    if env.decode(secret).Some? {
      MatchedExactly(env, env.decode(secret).value, code, now, c);
      forall i: nat | MatchesFirst(env, env.decode(secret).value, code, now, i) ensures |TrimSpace(code)| == 6 { }
    }
  }

  // --- trimming --------------------------------------------------------------

  /** Spaces go from both ends, and nothing else. */
  lemma {:induction false} TrimmedExactly(s: string) returns (left: string, right: string)
    ensures s == left + TrimSpace(s) + right
    ensures (forall c :: c in left ==> IsSpace(c)) && (forall c :: c in right ==> IsSpace(c))
    ensures var m := TrimSpace(s); m != "" ==> !IsSpace(m[0]) && !IsSpace(m[|m| - 1])
  {
    if s != "" && IsSpace(s[0]) {
      left, right := TrimmedExactly(s[1..]);
      left := [s[0]] + left;
    } else if s != "" && IsSpace(s[|s| - 1]) {
      left, right := TrimmedExactly(s[..|s| - 1]);
      right := right + [s[|s| - 1]];
    } else {
      left, right := "", "";
    }
  }
}
