/** The per-account lockout over whole runs of the server: how many wrong guesses any
    stretch of time can hold. */
module LockoutRuns {
  import opened Prelude
  import opened ServerSpec
  import opened ServerRuns
  import opened Counting
  import opened Lockout

  /** The identifier hash a request tries to authenticate. */
  function KeyOf(env: Env, r: Request): Option<string> {
    match r
    case Login(identifier, _, _, _) => Some(env.blind(identifier))
    case RecoveryComplete(identifier, authHash, passwordHash, key, _, _, _) =>
      if authHash == "" || passwordHash == "" || key == "" then None else Some(env.blind(identifier))
    case PasskeyLoginBegin(identifier, _, _, _) => if env.passkeysConfigured then Some(env.blind(identifier)) else None
    case PasskeyLoginFinish(identifier, _, _, _, _) => if env.passkeysConfigured then Some(env.blind(identifier))
        else None
    case _ => None
  }

  /** How an attempt ends, read off its answer. */
  function EndingOf(o: Outcome): Ending {
    if o.Refused? then Failure else if o.Session? then Success else NoVerdict
  }

  /** Every handler that can authenticate is a gated attempt: it asks the lock first, a
      refusal is recorded, a session resets, and nothing else touches the lockout. */
  lemma DecidesGuarded(env: Env, s: State, now: int, r: Request)
    requires Sound(env)
    ensures var (c, o) := Decide(env, s, now, r);
            var key := KeyOf(env, r);
            && (key.None? ==> c.lockout.KeepLockout?)
            && (key.Some? ==>
                  if IsLocked(s.lockout, now, key.value) then c.lockout.KeepLockout? && o.Locked?
                  else c.lockout == match EndingOf(o)
                                    case Failure => FailedFor(key.value)
                                    case Success => ResetFor(key.value)
                                    case NoVerdict => KeepLockout)
  {
  }

  // --- the lockout by itself -------------------------------------------------

  /** The attempt each step is, if any. */
  type History = seq<Option<Attempt>>

  function Entered(a: Option<Attempt>): seq<Attempt> {
    match a
    case Some(attempt) => [attempt]
    case None => []
  }

  function Attempts(h: History, from: nat, k: nat): seq<Attempt>
    requires k <= |h|
  {
    if k <= from then [] else Attempts(h, from, k - 1) + Entered(h[k - 1])
  }

  function EntriesNext(entries: Entries, a: Option<Attempt>): Entries {
    if a.None? then entries else Guarded(MAX_FAILS, LOCK_FOR, entries, a.value).0
  }

  function EntriesAfter(h: History, k: nat): Entries
    requires k <= |h|
  {
    if k == 0 then map[] else EntriesNext(EntriesAfter(h, k - 1), h[k - 1])
  }

  lemma {:induction false} EntriesAre(h: History, tables: seq<Entries>, k: nat)
    requires |tables| == |h| + 1 && tables[0] == map[] && k <= |h|
    requires forall i {:trigger h[i]} :: 0 <= i < |h| ==> tables[i + 1] == EntriesNext(tables[i], h[i])
    ensures tables[k] == EntriesAfter(h, k)
  {
    if k > 0 {
      EntriesAre(h, tables, k - 1);
    }
  }

  /** A refused attempt on the key between two instants. */
  predicate Refuses(a: Option<Attempt>, key: string, lo: int, hi: int) {
    a.Some? && a.value.key == key && a.value.ending == Failure && lo <= a.value.now <= hi
  }

  function Refusals(h: History, from: nat, k: nat, key: string, lo: int, hi: int): nat
    requires k <= |h|
  {
    if k <= from then 0 else Refusals(h, from, k - 1, key, lo, hi) + if Refuses(h[k - 1], key, lo, hi) then 1 else 0
  }

  /** A verdict needs an account that is not locked. */
  predicate Unlocked(entries: Entries, a: Option<Attempt>) {
    a.Some? && a.value.ending != NoVerdict ==> !IsLocked(entries, a.value.now, a.value.key)
  }

  ghost predicate Genuine(h: History) {
    && (forall k {:trigger EntriesAfter(h, k)} :: 0 <= k < |h| ==> Unlocked(EntriesAfter(h, k), h[k]))
    && (forall i, j :: 0 <= i < j < |h| && h[i].Some? && h[j].Some? ==> h[i].value.now <= h[j].value.now)
  }

  /** A run of gated attempts, one attempt longer. */
  lemma RunEntered(start: Entries, attempts: seq<Attempt>, a: Option<Attempt>, key: string, lo: int, hi: int)
    requires Unlocked(Lockout.Run(MAX_FAILS, LOCK_FOR, start, attempts).0, a)
    ensures var before := Lockout.Run(MAX_FAILS, LOCK_FOR, start, attempts);
            var after := Lockout.Run(MAX_FAILS, LOCK_FOR, start, attempts + Entered(a));
            && after.0 == EntriesNext(before.0, a)
            && Between(after.1, key, lo, hi) == Between(before.1, key, lo, hi) + if Refuses(a, key, lo, hi)
                then 1 else 0
  {
    if a.Some? {
      assert (attempts + [a.value])[..|attempts|] == attempts;
      Append(Lockout.Run(MAX_FAILS, LOCK_FOR, start, attempts).1, Mark(a.value.now, a.value.key), key);
    } else {
      assert attempts + [] == attempts;
    }
  }

  lemma {:induction false} RunAgrees(h: History, from: nat, k: nat, key: string, lo: int, hi: int)
    requires Genuine(h) && from <= k <= |h|
    ensures var (entries, failures) := Lockout.Run(MAX_FAILS, LOCK_FOR, EntriesAfter(h, from), Attempts(h, from, k));
            entries == EntriesAfter(h, k) && Between(failures, key, lo, hi) == Refusals(h, from, k, key, lo, hi)
  {
    if from < k {
      RunAgrees(h, from, k - 1, key, lo, hi);
      RunEntered(EntriesAfter(h, from), Attempts(h, from, k - 1), h[k - 1], key, lo, hi);
    }
  }

  lemma {:induction false} AttemptsOrdered(h: History, from: nat, k: nat)
    requires Genuine(h) && k <= |h|
    ensures Lockout.Monotone(Attempts(h, from, k))
    ensures forall a :: a in Attempts(h, from, k) ==> exists i :: from <= i < k && h[i] == Some(a)
  {
    if from < k {
      AttemptsOrdered(h, from, k - 1);
      var before := Attempts(h, from, k - 1);
      forall i | 0 <= i < |before| && h[k - 1].Some? ensures before[i].now <= h[k - 1].value.now {
        assert before[i] in before;
      }
    }
  }

  ghost predicate NoSuccess(h: History, from: nat, k: nat, key: string) {
    forall i :: from <= i < k && i < |h| && h[i].Some? && h[i].value.key == key ==> h[i].value.ending != Success
  }

  /** From a state without an entry for the account. */
  lemma RefusalsSinceReset(h: History, from: nat, k: nat, key: string, lo: int, span: nat)
    requires Genuine(h) && from <= k <= |h| && NoSuccess(h, from, k, key) && key !in EntriesAfter(h, from)
    ensures Refusals(h, from, k, key, lo, lo + span) <= MAX_FAILS * (span / LOCK_FOR + 1)
  {
    AttemptsOrdered(h, from, k);
    RunAgrees(h, from, k, key, lo, lo + span);
    FailuresOverSpan(MAX_FAILS, LOCK_FOR, EntriesAfter(h, from), Attempts(h, from, k), key, lo, span);
  }

  lemma {:induction false} RefusalsFromEarlier(h: History, from: nat, k: nat, key: string, lo: int, hi: int)
    requires 0 < from <= k <= |h|
    ensures Refusals(h, from, k, key, lo, hi) <= Refusals(h, from - 1, k, key, lo, hi)
  {
    if from < k {
      RefusalsFromEarlier(h, from, k - 1, key, lo, hi);
    }
  }

  /** From any state: look back to the last reset. */
  lemma {:induction false} RefusalsBounded(h: History, from: nat, k: nat, key: string, lo: int, span: nat)
    requires Genuine(h) && from <= k <= |h| && NoSuccess(h, from, k, key)
    ensures Refusals(h, from, k, key, lo, lo + span) <= MAX_FAILS * (span / LOCK_FOR + 1)
    decreases from
  {
    if key in EntriesAfter(h, from) {
      assert Unlocked(EntriesAfter(h, from - 1), h[from - 1]);
      RefusalsBounded(h, from - 1, k, key, lo, span);
      RefusalsFromEarlier(h, from, k, key, lo, lo + span);
    } else {
      RefusalsSinceReset(h, from, k, key, lo, span);
    }
  }

  // --- lifted to the server --------------------------------------------------

  function AttemptAt(env: Env, run: Trace, k: nat): Option<Attempt>
    requires Sound(env) && k < |run|
  {
    match KeyOf(env, run[k].r)
    case Some(key) => Some(Attempt(run[k].now, key, EndingOf(OutcomeAt(env, run, k))))
    case None => None
  }

  function HistoryOf(env: Env, run: Trace): (h: History)
    requires Sound(env)
    ensures |h| == |run|
  {
    seq(|run|, k requires 0 <= k < |run| => AttemptAt(env, run, k))
  }

  function LockoutAt(env: Env, run: Trace, k: nat): Entries
    requires Sound(env) && k <= |run|
  {
    StateAt(env, run, k).lockout
  }

  lemma LockoutStep(env: Env, run: Trace, k: nat)
    requires Sound(env) && k < |run|
    ensures LockoutAt(env, run, k + 1) == EntriesNext(LockoutAt(env, run, k), AttemptAt(env, run, k))
    ensures Unlocked(LockoutAt(env, run, k), AttemptAt(env, run, k))
  {
    DecidesGuarded(env, StateAt(env, run, k), run[k].now, run[k].r);
  }

  lemma LockoutAgrees(env: Env, run: Trace, k: nat)
    requires Sound(env) && k <= |run|
    ensures LockoutAt(env, run, k) == EntriesAfter(HistoryOf(env, run), k)
  {
    var h, tables := HistoryOf(env, run), seq(|run| + 1, i requires 0 <= i <= |run| => LockoutAt(env, run, i));
    forall i {:trigger h[i]} | 0 <= i < |h| ensures tables[i + 1] == EntriesNext(tables[i], h[i]) {
      LockoutStep(env, run, i);
    }
    EntriesAre(h, tables, k);
  }

  lemma HistoryGenuine(env: Env, run: Trace)
    requires Sound(env) && ServerRuns.Monotone(run)
    ensures Genuine(HistoryOf(env, run))
  {
    var h := HistoryOf(env, run);
    forall k {:trigger EntriesAfter(h, k)} | 0 <= k < |h| ensures Unlocked(EntriesAfter(h, k), h[k]) {
      LockoutAgrees(env, run, k);
      LockoutStep(env, run, k);
    }
  }

  /** What the count counts: the steps that refuse an attempt on the account. */
  lemma RefusalsAre(env: Env, run: Trace, k: nat, key: string, lo: int, hi: int)
    requires Sound(env) && k < |run|
    ensures Refuses(HistoryOf(env, run)[k], key, lo, hi)
            <==> KeyOf(env, run[k].r) == Some(key) && OutcomeAt(env, run, k).Refused? && lo <= run[k].now <= hi
  {
  }

  /** In every run, over any steps in which no attempt on an account succeeds, the
      attempts refused within a span T number at most 5 * (T / 15 min + 1); any half-open
      window of 15 minutes holds at most 5. */
  lemma GuessesBounded(env: Env, run: Trace, from: nat, k: nat, key: string, lo: int, span: nat)
    requires Sound(env) && ServerRuns.Monotone(run) && from <= k <= |run|
    requires NoSuccess(HistoryOf(env, run), from, k, key)
    ensures Refusals(HistoryOf(env, run), from, k, key, lo, lo + span) <= MAX_FAILS * (span / LOCK_FOR + 1)
    ensures span < LOCK_FOR ==> Refusals(HistoryOf(env, run), from, k, key, lo, lo + span) <= MAX_FAILS
  {
    HistoryGenuine(env, run);
    RefusalsBounded(HistoryOf(env, run), from, k, key, lo, span);
    if span < LOCK_FOR {
      assert span / LOCK_FOR == 0;
    }
  }

  /** The attempts of the first k steps. */
  function AttemptsOf(env: Env, run: Trace, k: nat): seq<Attempt>
    requires Sound(env) && k <= |run|
  {
    Attempts(HistoryOf(env, run), 0, k)
  }

  /** In every run an account is locked exactly while the last full group of five
      refusals since its last session is less than 15 minutes old. */
  lemma AccountLockedExactly(env: Env, run: Trace, k: nat, key: string, now: int)
    requires Sound(env) && ServerRuns.Monotone(run) && k <= |run|
    ensures var streak := Streak(5, 900_000_000_000, AttemptsOf(env, run, k), key);
            IsLocked(LockoutAt(env, run, k), now, key)
            <==> |streak| >= 5 && now < streak[|streak| - |streak| % 5 - 1] + 900_000_000_000
  {
    HistoryGenuine(env, run);
    LockoutAgrees(env, run, k);
    RunAgrees(HistoryOf(env, run), 0, k, key, 0, 0);
    LockedExactly(5, 900_000_000_000, AttemptsOf(env, run, k), key, now);
  }
}
