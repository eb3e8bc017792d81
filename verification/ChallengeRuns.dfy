/** Passkey challenges over whole runs: each handle is consumed at most once, by the user
    it was put for, and within its lifetime. */
module ChallengeRuns {
  import opened Prelude
  import opened Challenges
  import opened ServerSpec
  import opened ServerRuns

  // --- the challenge store by itself -----------------------------------------

  datatype ChallengeStep = ChallengeStep(now: int, change: ChallengeChange)

  type History = seq<ChallengeStep>

  function Waiting(h: History, k: nat): Pending
    requires k <= |h|
  {
    if k == 0 then map[] else ApplyChallenges(Waiting(h, k - 1), h[k - 1].now, h[k - 1].change)
  }

  predicate PutAt(h: History, i: nat, handle: string) {
    i < |h| && h[i].change.Issued? && h[i].change.handle == handle
  }

  /** Step k takes the live entry of the handle out of the store. */
  predicate ConsumedAt(h: History, k: nat, handle: string) {
    && k < |h| && h[k].change == Taken(handle)
    && handle in Waiting(h, k) && h[k].now <= Waiting(h, k)[handle].expires
  }

  ghost predicate DistinctHandles(h: History) {
    forall i, j :: 0 <= i < j < |h| && h[i].change.Issued? && h[j].change.Issued? ==>
        h[i].change.handle != h[j].change.handle
  }

  /** The entry is the one put at step i. */
  predicate EntryOf(h: History, i: nat, e: Challenge) {
    && i < |h| && h[i].change.Issued?
    && e == Challenge(h[i].change.data, h[i].change.userId, h[i].now + CHALLENGE_TTL)
  }

  /** A waiting entry is as it was put. */
  lemma {:induction false} WaitingWasPut(h: History, k: nat, handle: string) returns (i: nat)
    requires k <= |h| && handle in Waiting(h, k)
    ensures i < k && PutAt(h, i, handle) && EntryOf(h, i, Waiting(h, k)[handle])
  {
    if PutAt(h, k - 1, handle) {
      i := k - 1;
    } else {
      i := WaitingWasPut(h, k - 1, handle);
    }
  }

  lemma {:induction false} GoneForGood(h: History, i: nat, handle: string, j: nat, k: nat)
    requires DistinctHandles(h) && PutAt(h, i, handle) && i < j <= k <= |h| && handle !in Waiting(h, j)
    ensures handle !in Waiting(h, k)
  {
    if j < k {
      GoneForGood(h, i, handle, j, k - 1);
    }
  }

  lemma ConsumedOnce(h: History, i: nat, j: nat, handle: string)
    requires DistinctHandles(h) && ConsumedAt(h, i, handle) && ConsumedAt(h, j, handle)
    ensures i == j
  {
    var a, b := if i <= j then i else j, if i <= j then j else i;
    if a < b {
      var first := WaitingWasPut(h, a, handle);
      assert handle !in Waiting(h, a + 1);
      GoneForGood(h, first, handle, a + 1, b);
    }
  }

  // --- lifted to the server --------------------------------------------------

  function ChallengesAt(env: Env, run: Trace, k: nat): ChallengeChange
    requires Sound(env) && k < |run|
  {
    Decide(env, StateAt(env, run, k), run[k].now, run[k].r).0.challenges
  }

  function HistoryOf(env: Env, run: Trace): (h: History)
    requires Sound(env)
    ensures |h| == |run|
  {
    seq(|run|, k requires 0 <= k < |run| => ChallengeStep(run[k].now, ChallengesAt(env, run, k)))
  }

  function PendingAt(env: Env, run: Trace, k: nat): Pending
    requires Sound(env) && k <= |run|
  {
    StateAt(env, run, k).pending
  }

  lemma PendingStep(env: Env, run: Trace, k: nat)
    requires Sound(env) && k < |run|
    ensures PendingAt(env, run, k + 1) == ApplyChallenges(PendingAt(env, run, k), run[k].now, ChallengesAt(env, run, k))
  {
  }

  lemma {:induction false} WaitingIs(h: History, tables: seq<Pending>, k: nat)
    requires |tables| == |h| + 1 && tables[0] == map[] && k <= |h|
    requires forall i {:trigger h[i]} :: 0 <= i < |h| ==>
        tables[i + 1] == ApplyChallenges(tables[i], h[i].now, h[i].change)
    ensures tables[k] == Waiting(h, k)
  {
    if k > 0 {
      WaitingIs(h, tables, k - 1);
    }
  }

  lemma PendingAgrees(env: Env, run: Trace, k: nat)
    requires Sound(env) && k <= |run|
    ensures PendingAt(env, run, k) == Waiting(HistoryOf(env, run), k)
  {
    var h, tables := HistoryOf(env, run), seq(|run| + 1, i requires 0 <= i <= |run| => PendingAt(env, run, i));
    forall i {:trigger h[i]} | 0 <= i < |h| ensures tables[i + 1] == ApplyChallenges(tables[i], h[i].now, h[i].change) {
      PendingStep(env, run, i);
    }
    WaitingIs(h, tables, k);
  }

  lemma IssuesDrawn(env: Env, s: State, now: int, r: Request)
    requires Sound(env)
    ensures var (c, o) := Decide(env, s, now, r);
            c.challenges.Issued? ==> DrawnHandle(r) == Some(c.challenges.handle) && o == Begun(c.challenges.handle)
  {
  }

  lemma HandlesDistinct(env: Env, run: Trace)
    requires Sound(env) && FreshHandles(run)
    ensures DistinctHandles(HistoryOf(env, run))
  {
    var h := HistoryOf(env, run);
    forall i, j | 0 <= i < j < |h| && h[i].change.Issued? && h[j].change.Issued?
      ensures h[i].change.handle != h[j].change.handle
    {
      IssuesDrawn(env, StateAt(env, run, i), run[i].now, run[i].r);
      IssuesDrawn(env, StateAt(env, run, j), run[j].now, run[j].r);
    }
  }

  /** Step k succeeds on the challenge of the handle: a passkey login of the user, or the
      enrolment of a passkey for the user. */
  ghost predicate Succeeds(env: Env, run: Trace, k: nat, handle: string, userId: string)
    requires Sound(env)
  {
    && k < |run|
    && var o := OutcomeAt(env, run, k);
    || (o.Session? && o.cause == Assertion(handle) && o.userId == userId)
    || (run[k].r.PasskeyRegisterFinish? && o.Done? && run[k].r.handle == handle && run[k].r.userId == userId)
  }

  lemma SuccessTakes(env: Env, s: State, now: int, r: Request)
    requires Sound(env)
    ensures var (c, o) := Decide(env, s, now, r);
            && (o.Session? && o.cause.Assertion? ==>
                  c.challenges == Taken(o.cause.handle) && LiveChallenge(s, now, o.cause.handle, o.userId).Some?)
            && (r.PasskeyRegisterFinish? && o.Done? ==>
                  c.challenges == Taken(r.handle) && LiveChallenge(s, now, r.handle, r.userId).Some?)
  {
  }

  lemma SuccessConsumes(env: Env, run: Trace, k: nat, handle: string, userId: string)
    requires Sound(env) && Succeeds(env, run, k, handle, userId)
    ensures ConsumedAt(HistoryOf(env, run), k, handle)
    ensures handle in Waiting(HistoryOf(env, run), k) && Waiting(HistoryOf(env, run), k)[handle].userId == userId
  {
    SuccessTakes(env, StateAt(env, run, k), run[k].now, run[k].r);
    PendingAgrees(env, run, k);
  }

  /** A challenge handle serves at most one success, of either kind. */
  lemma ChallengeServesOnce(env: Env, run: Trace, i: nat, j: nat, handle: string, u: string, v: string)
    requires Sound(env) && FreshHandles(run) && Succeeds(env, run, i, handle, u) && Succeeds(env, run, j, handle, v)
    ensures i == j && u == v
  {
    HandlesDistinct(env, run);
    SuccessConsumes(env, run, i, handle, u);
    SuccessConsumes(env, run, j, handle, v);
    ConsumedOnce(HistoryOf(env, run), i, j, handle);
  }

  /** The success comes after a begin that put the challenge for the same user, at most
      the challenge's lifetime earlier. */
  lemma ChallengeWasPut(env: Env, run: Trace, k: nat, handle: string, userId: string) returns (i: nat)
    requires Sound(env) && Succeeds(env, run, k, handle, userId)
    ensures i < k && OutcomeAt(env, run, i) == Begun(handle) && run[k].now <= run[i].now + CHALLENGE_TTL
    ensures ChallengesAt(env, run, i).Issued? && ChallengesAt(env, run, i).userId == userId
  {
    SuccessConsumes(env, run, k, handle, userId);
    i := WaitingWasPut(HistoryOf(env, run), k, handle);
    IssuesDrawn(env, StateAt(env, run, i), run[i].now, run[i].r);
  }
}
