/** The per-account lockout of backend/internal/server/middleware.go. Times and
    durations are integers (nanoseconds). */
module Lockout {
  import opened Prelude
  import opened Counting

  /** lockedTill is None until the first lock (Go's zero time). */
  datatype LockEntry = LockEntry(fails: int, lockedTill: Option<int>)

  type Entries = map<string, LockEntry>

  predicate IsLocked(entries: Entries, now: int, key: string) {
    key in entries && entries[key].lockedTill.Some? && now < entries[key].lockedTill.value
  }

  function Record(maxFails: int, lockFor: int, entries: Entries, now: int, key: string): Entries {
    var e := if key in entries then entries[key] else LockEntry(0, None);
    entries[key := if e.fails + 1 >= maxFails then LockEntry(0, Some(now + lockFor)) else e.(fails := e.fails + 1)]
  }

  class LockoutTracker {
    const maxFails: int
    const lockFor: int
    var entries: Entries

    constructor (maxFails: int, lockFor: int)
      ensures this.maxFails == maxFails && this.lockFor == lockFor && entries == map[]
    {
      this.maxFails, this.lockFor, entries := maxFails, lockFor, map[];
    }

    method Locked(now: int, key: string) returns (r: bool)
      ensures r == IsLocked(entries, now, key)
    {
      if key !in entries { return false; }
      var e := entries[key];
      r := e.lockedTill.Some? && now < e.lockedTill.value;
    }

    method RecordFailure(now: int, key: string)
      modifies this
      ensures entries == Record(maxFails, lockFor, old(entries), now, key)
    {
      var e := if key in entries then entries[key] else LockEntry(0, None);
      e := e.(fails := e.fails + 1);
      if e.fails >= maxFails {
        e := LockEntry(0, Some(now + lockFor));
      }
      entries := entries[key := e];
    }

    method Reset(key: string)
      modifies this
      ensures entries == old(entries) - {key}
    {
      entries := entries - {key};
    }
  }

  // --- gated attempts --------------------------------------------------------

  /** How an attempt that gets past the lock ends. */
  datatype Ending = Failure | Success | NoVerdict

  datatype Attempt = Attempt(now: int, key: string, ending: Ending)

  /** Every caller first asks `locked`, and gives up without a verdict if so. */
  function Guarded(maxFails: int, lockFor: int, entries: Entries, a: Attempt): (Entries, bool) {
    if IsLocked(entries, a.now, a.key) then (entries, false)
    else
      match a.ending
      case Failure => (Record(maxFails, lockFor, entries, a.now, a.key), true)
      case Success => (entries - {a.key}, false)
      case NoVerdict => (entries, false)
  }

  /** The entries after a run of attempts, and the failures recorded on the way. */
  function Run(maxFails: int, lockFor: int, start: Entries, attempts: seq<Attempt>): (Entries, seq<Mark>) {
    if attempts == [] then (start, [])
    else
      var (entries, failures) := Run(maxFails, lockFor, start, attempts[..|attempts| - 1]);
      var last := attempts[|attempts| - 1];
      var (next, recorded) := Guarded(maxFails, lockFor, entries, last);
      (next, if recorded then failures + [Mark(last.now, last.key)] else failures)
  }

  ghost predicate Monotone(attempts: seq<Attempt>) {
    forall i, j :: 0 <= i < j < |attempts| ==> attempts[i].now <= attempts[j].now
  }

  // --- counting recorded failures --------------------------------------------

  /** A threshold below one locks at every failure. */
  function Cap(maxFails: int): nat {
    Max(1, maxFails)
  }

  /** The most failures a span of the given length may hold. */
  function Allowance(maxFails: int, lockFor: int, span: nat): nat
    requires lockFor > 0
  {
    Cap(maxFails) * (span / lockFor + 1)
  }

  lemma AllowanceGrows(maxFails: int, lockFor: int, shorter: nat, longer: nat)
    requires lockFor > 0 && shorter <= longer
    ensures Cap(maxFails) <= Allowance(maxFails, lockFor, shorter) <= Allowance(maxFails, lockFor, longer)
    ensures Allowance(maxFails, lockFor, shorter + lockFor) == Allowance(maxFails, lockFor, shorter) + Cap(maxFails)
  {
    QuotientGrows(shorter, longer, lockFor);
    MultiplesGrow(Cap(maxFails), shorter / lockFor, longer / lockFor);
  }

  lemma MultiplesGrow(m: nat, a: nat, b: nat)
    requires a <= b
    ensures m <= m * (a + 1) <= m * (b + 1)
    ensures m * (a + 1 + 1) == m * (a + 1) + m
  {
    assert m * (b + 1) == m * (a + 1) + m * (b - a);
    assert m * (a + 1) == m * a + m;
  }

  /** While a lock is over or absent, `fails` failures came after it; before it, full
      groups of failures lie at least one lock apart. */
  ghost predicate Tracked(maxFails: int, lockFor: int, entries: Entries, failures: seq<Mark>, key: string)
    requires lockFor > 0
  {
    if key !in entries then forall a :: Since(failures, key, a) == 0
    else
      var e := entries[key];
      && 0 <= e.fails < Cap(maxFails)
      && (e.lockedTill.None? ==> forall a :: Since(failures, key, a) <= e.fails)
      && (e.lockedTill.Some? ==>
            var lock := e.lockedTill.value - lockFor;
            && (e.fails > 0 ==> Since(failures, key, e.lockedTill.value) > 0)
            && (forall a :: a > lock ==> Since(failures, key, a) <= e.fails)
            && (forall a :: a <= lock ==> Since(failures, key, a) <= Allowance(maxFails, lockFor, lock - a) + e.fails))
  }

  ghost predicate Bounded(maxFails: int, lockFor: int, failures: seq<Mark>, key: string)
    requires lockFor > 0
  {
    forall a, b :: a <= b ==> Between(failures, key, a, b) <= Allowance(maxFails, lockFor, b - a)
  }

  /** The heart of the bound: just after a recorded failure. */
  lemma RecordCount(maxFails: int, lockFor: int, entries: Entries, failures: seq<Mark>, c: Attempt, a: int)
    requires lockFor > 0 && a <= c.now && !IsLocked(entries, c.now, c.key)
    requires NoneAfter(failures, c.now)
    requires Tracked(maxFails, lockFor, entries, failures, c.key)
    ensures Since(failures + [Mark(c.now, c.key)], c.key, a) <= Allowance(maxFails, lockFor, c.now - a)
  {
    Append(failures, Mark(c.now, c.key), c.key);
    AllowanceGrows(maxFails, lockFor, 0, c.now - a);
    if c.key in entries && entries[c.key].lockedTill.Some? {
      var lock := entries[c.key].lockedTill.value - lockFor;
      if a <= lock {
        AllowanceGrows(maxFails, lockFor, lock - a, lock - a);
        AllowanceGrows(maxFails, lockFor, lock - a + lockFor, c.now - a);
      }
    }
  }

  lemma RecordTracked(maxFails: int, lockFor: int, entries: Entries, failures: seq<Mark>, c: Attempt)
    requires lockFor > 0 && !IsLocked(entries, c.now, c.key)
    requires NoneAfter(failures, c.now)
    requires Tracked(maxFails, lockFor, entries, failures, c.key)
    ensures Tracked(maxFails, lockFor, Record(maxFails, lockFor, entries, c.now, c.key),
        failures + [Mark(c.now, c.key)], c.key)
  {
    Append(failures, Mark(c.now, c.key), c.key);
    var e := if c.key in entries then entries[c.key] else LockEntry(0, None);
    if e.fails + 1 >= maxFails {
      forall a ensures a > c.now ==> Since(failures + [Mark(c.now, c.key)], c.key, a) == 0 {
        SinceLater(failures + [Mark(c.now, c.key)], c.key, a, c.now);
      }
      forall a | a <= c.now
          ensures Since(failures + [Mark(c.now, c.key)], c.key, a) <= Allowance(maxFails, lockFor, c.now - a) {
        RecordCount(maxFails, lockFor, entries, failures, c, a);
      }
    }
  }

  lemma RecordBounded(maxFails: int, lockFor: int, entries: Entries, failures: seq<Mark>, c: Attempt)
    requires lockFor > 0 && !IsLocked(entries, c.now, c.key)
    requires NoneAfter(failures, c.now)
    requires Tracked(maxFails, lockFor, entries, failures, c.key) && Bounded(maxFails, lockFor, failures, c.key)
    ensures Bounded(maxFails, lockFor, failures + [Mark(c.now, c.key)], c.key)
  {
    Append(failures, Mark(c.now, c.key), c.key);
    forall a, b | a <= c.now <= b
        ensures Between(failures + [Mark(c.now, c.key)], c.key, a, b) <= Allowance(maxFails, lockFor, b - a) {
      BetweenIsSince(failures + [Mark(c.now, c.key)], c.key, a, b);
      RecordCount(maxFails, lockFor, entries, failures, c, a);
      AllowanceGrows(maxFails, lockFor, c.now - a, b - a);
    }
  }

  lemma GuardedKeeps(maxFails: int, lockFor: int, entries: Entries, failures: seq<Mark>, c: Attempt, key: string)
    requires lockFor > 0 && (c.key == key ==> c.ending != Success)
    requires NoneAfter(failures, c.now)
    requires Tracked(maxFails, lockFor, entries, failures, key) && Bounded(maxFails, lockFor, failures, key)
    ensures var (next, recorded) := Guarded(maxFails, lockFor, entries, c);
            var failures' := if recorded then failures + [Mark(c.now, c.key)] else failures;
            Tracked(maxFails, lockFor, next, failures', key) && Bounded(maxFails, lockFor, failures', key)
  {
    var (next, recorded) := Guarded(maxFails, lockFor, entries, c);
    if recorded && c.key == key {
      RecordTracked(maxFails, lockFor, entries, failures, c);
      RecordBounded(maxFails, lockFor, entries, failures, c);
    } else if recorded {
      Append(failures, Mark(c.now, c.key), key);
      assert key in next <==> key in entries;
    }
  }

  lemma {:induction false} FailedBefore(maxFails: int, lockFor: int, start: Entries, attempts: seq<Attempt>, now: int)
    requires forall a :: a in attempts ==> a.now <= now
    ensures NoneAfter(Run(maxFails, lockFor, start, attempts).1, now)
  {
    if attempts != [] {
      assert attempts[|attempts| - 1] in attempts;
      FailedBefore(maxFails, lockFor, start, attempts[..|attempts| - 1], now);
    }
  }

  lemma {:induction false} RunBounded(maxFails: int, lockFor: int, start: Entries, attempts: seq<Attempt>, key: string)
    requires lockFor > 0 && Monotone(attempts) && key !in start
    requires forall a :: a in attempts && a.key == key ==> a.ending != Success
    ensures var (entries, failures) := Run(maxFails, lockFor, start, attempts);
            Tracked(maxFails, lockFor, entries, failures, key) && Bounded(maxFails, lockFor, failures, key)
  {
    if attempts != [] {
      var before, last := attempts[..|attempts| - 1], attempts[|attempts| - 1];
      RunBounded(maxFails, lockFor, start, before, key);
      var (entries, failures) := Run(maxFails, lockFor, start, before);
      assert last in attempts;
      FailedBefore(maxFails, lockFor, start, before, last.now);
      GuardedKeeps(maxFails, lockFor, entries, failures, last, key);
    }
  }

  /** In every run of gated attempts in which an account is never reset, counted from
      a state without an entry for it, the failures recorded over any span T number at
      most maxFails * (T / lockFor + 1); a half-open window of one lock length holds
      at most maxFails. */
  lemma FailuresOverSpan(maxFails: int, lockFor: int, start: Entries, attempts: seq<Attempt>, key: string,
      from: int, span: nat)
    requires lockFor > 0 && maxFails > 0 && Monotone(attempts) && key !in start
    requires forall a :: a in attempts && a.key == key ==> a.ending != Success
    ensures Between(Run(maxFails, lockFor, start, attempts).1, key, from, from + span)
            <= maxFails * (span / lockFor + 1)
    ensures span < lockFor ==> Between(Run(maxFails, lockFor, start, attempts).1, key, from, from + span) <= maxFails
  {
    RunBounded(maxFails, lockFor, start, attempts, key);
    if span < lockFor {
      assert span / lockFor == 0;
    }
  }

  // --- when a key is locked --------------------------------------------------

  /** The instants of the failures recorded for a key since its last reset. */
  function Streak(maxFails: int, lockFor: int, attempts: seq<Attempt>, key: string): seq<int> {
    if attempts == [] then []
    else
      var before, last := attempts[..|attempts| - 1], attempts[|attempts| - 1];
      var streak := Streak(maxFails, lockFor, before, key);
      if last.key != key || IsLocked(Run(maxFails, lockFor, map[], before).0, last.now, key) then streak
      else
        match last.ending
        case Failure => streak + [last.now]
        case Success => []
        case NoVerdict => streak
  }

  /** The entry is that of the streak: every maxFails-th failure locks and starts the
      count again. */
  ghost predicate EntryOf(maxFails: int, lockFor: int, entries: Entries, key: string, streak: seq<int>)
    requires maxFails > 0
  {
    if streak == [] then key !in entries
    else
      var rest := |streak| % maxFails;
      && key in entries && entries[key].fails == rest
      && entries[key].lockedTill == if |streak| < maxFails then None else Some(streak[|streak| - rest - 1] + lockFor)
  }

  lemma RemainderIs(x: nat, m: nat, q: nat, r: nat)
    requires m > 0 && x == m * q + r && r < m
    ensures x % m == r
  {
    QuotientBounds(x, m, q);
    assert x == m * (x / m) + x % m;
  }

  lemma RemainderStep(n: nat, m: nat)
    requires m > 0
    ensures (n + 1) % m == if n % m + 1 == m then 0 else n % m + 1
    ensures n < m ==> n % m == n
  {
    var q, r := n / m, n % m;
    assert n == m * q + r;
    if r + 1 == m {
      assert m * (q + 1) == m * q + m;
      RemainderIs(n + 1, m, q + 1, 0);
    } else {
      RemainderIs(n + 1, m, q, r + 1);
    }
    if n < m {
      RemainderIs(n, m, 0, n);
    }
  }

  lemma EntryAfterFailure(maxFails: int, lockFor: int, entries: Entries, now: int, key: string, streak: seq<int>)
    requires maxFails > 0 && EntryOf(maxFails, lockFor, entries, key, streak)
    ensures EntryOf(maxFails, lockFor, Record(maxFails, lockFor, entries, now, key), key, streak + [now])
  {
    RemainderStep(|streak|, maxFails);
    assert |streak| % maxFails + 1 != maxFails && |streak| >= maxFails ==>
      (streak + [now])[|streak| - |streak| % maxFails - 1] == streak[|streak| - |streak| % maxFails - 1];
  }

  lemma {:induction false} EntriesAreStreaks(maxFails: int, lockFor: int, attempts: seq<Attempt>, key: string)
    requires maxFails > 0
    ensures EntryOf(maxFails, lockFor, Run(maxFails, lockFor, map[], attempts).0, key,
                    Streak(maxFails, lockFor, attempts, key))
  {
    if attempts != [] {
      var before, last := attempts[..|attempts| - 1], attempts[|attempts| - 1];
      var entries := Run(maxFails, lockFor, map[], before).0;
      EntriesAreStreaks(maxFails, lockFor, before, key);
      if last.key == key && !IsLocked(entries, last.now, key) && last.ending == Failure {
        EntryAfterFailure(maxFails, lockFor, entries, last.now, key, Streak(maxFails, lockFor, before, key));
      }
    }
  }

  /** A key is locked exactly while the last full group of maxFails failures since its
      last reset is less than one lock old: never before maxFails failures. */
  lemma LockedExactly(maxFails: int, lockFor: int, attempts: seq<Attempt>, key: string, now: int)
    requires maxFails > 0
    ensures var streak := Streak(maxFails, lockFor, attempts, key);
            IsLocked(Run(maxFails, lockFor, map[], attempts).0, now, key)
            <==> |streak| >= maxFails && now < streak[|streak| - |streak| % maxFails - 1] + lockFor
  {
    EntriesAreStreaks(maxFails, lockFor, attempts, key);
  }
}
