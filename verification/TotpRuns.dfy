/** One-time codes over whole runs: between two calls that set a user's TOTP secret, the
    counters accepted at login strictly increase and keep up with the clock. */
module TotpRuns {
  import opened Prelude
  import opened Storage
  import opened ServerSpec
  import opened ServerRuns
  import TotpCheck
  import Hotp

  // --- the counters by themselves --------------------------------------------

  datatype AccountStep = AccountStep(now: Time, change: AccountChange)

  type History = seq<AccountStep>

  predicate Creates(c: AccountChange, userId: string) {
    c.Created? && c.user.id == userId
  }

  predicate Sets(c: AccountChange, userId: string) {
    c.TotpSet? && c.userId == userId
  }

  /** The change starts the user's counter again at 0. */
  predicate Restarts(c: AccountChange, userId: string) {
    Creates(c, userId) || Sets(c, userId)
  }

  predicate Accepts(c: AccountChange, userId: string) {
    c.CounterSet? && c.userId == userId
  }

  /** The last counter consumed for the user since its counter was last started. */
  function LastCounter(h: History, k: nat, userId: string): nat
    requires k <= |h|
  {
    if k == 0 || Restarts(h[k - 1].change, userId) then 0
    else if Accepts(h[k - 1].change, userId) then h[k - 1].change.counter
    else LastCounter(h, k - 1, userId)
  }

  /** One change, on the counter of a user that is still there after it. */
  predicate CounterFollows(before: map<string, User>, after: map<string, User>, c: AccountChange, userId: string) {
    userId in after ==>
      if Restarts(c, userId) then after[userId].totpLastCounter == 0
      else if Accepts(c, userId) then after[userId].totpLastCounter == c.counter
      else userId in before && after[userId].totpLastCounter == before[userId].totpLastCounter
  }

  lemma {:induction false} CounterIs(h: History, tables: seq<map<string, User>>, k: nat, userId: string)
    requires |tables| == |h| + 1 && tables[0] == map[] && k <= |h| && userId in tables[k]
    requires forall i {:trigger h[i]} :: 0 <= i < |h| ==> CounterFollows(tables[i], tables[i + 1], h[i].change, userId)
    ensures tables[k][userId].totpLastCounter == LastCounter(h, k, userId)
  {
    assert CounterFollows(tables[k - 1], tables[k - 1 + 1], h[k - 1].change, userId);
    if userId in tables[k - 1] {
      CounterIs(h, tables, k - 1, userId);
    }
  }

  /** A counter consumed is above the last one. */
  predicate StepIncreases(h: History, k: nat, userId: string) {
    k < |h| && Accepts(h[k].change, userId) ==> h[k].change.counter > LastCounter(h, k, userId)
  }

  /** Every counter consumed is above the last one, and an account is not created after
      it has consumed one. */
  ghost predicate Increasing(h: History, userId: string) {
    && (forall k: nat :: k < |h| ==> StepIncreases(h, k, userId))
    && (forall i, k :: 0 <= i < k < |h| && Accepts(h[i].change, userId) ==> !Creates(h[k].change, userId))
  }

  /** A counter consumed is one for the clock. */
  predicate StepInTime(h: History, k: nat, userId: string) {
    k < |h| && Accepts(h[k].change, userId) ==> TotpCheck.AtStep(TotpCheck.ClockStep(h[k].now), h[k].change.counter)
  }

  ghost predicate InTime(h: History, userId: string) {
    forall k: nat :: k < |h| ==> StepInTime(h, k, userId)
  }

  /** `SetUserTOTP` is not called for the user in these steps. */
  ghost predicate NoSet(h: History, from: nat, k: nat, userId: string) {
    forall i :: from <= i < k && i < |h| ==> !Sets(h[i].change, userId)
  }

  lemma {:induction false} CounterGrows(h: History, i: nat, k: nat, userId: string)
    requires Increasing(h, userId) && i < k <= |h| && Accepts(h[i].change, userId) && NoSet(h, i + 1, k, userId)
    ensures h[i].change.counter <= LastCounter(h, k, userId)
  {
    assert StepIncreases(h, k - 1, userId);
    if i + 1 < k {
      CounterGrows(h, i, k - 1, userId);
    }
  }

  function Count(h: History, from: nat, k: nat, userId: string): nat
    requires k <= |h|
  {
    if k <= from then 0 else Count(h, from, k - 1, userId) + if Accepts(h[k - 1].change, userId) then 1 else 0
  }

  lemma {:induction false} CountedAccepts(h: History, from: nat, k: nat, userId: string)
    requires k <= |h| && forall i :: 0 <= i < k ==> !Accepts(h[i].change, userId)
    ensures Count(h, from, k, userId) == 0
  {
    if from < k {
      CountedAccepts(h, from, k - 1, userId);
    }
  }

  /** What n accepted counters, the last of them `last`, say about the clock steps. */
  predicate KeepsUp(n: nat, last: nat, first: int, step: int) {
    n > 0 ==> && n <= last
              && (first - 2 + n <= last <= step + 1
                  || (TotpCheck.LAST_COUNTER - 1 <= last <= TotpCheck.LAST_COUNTER
                      && n + TotpCheck.LAST_COUNTER <= last + 3))
  }

  lemma KeepsUpAccepting(n: nat, last: nat, first: int, before: int, step: int, counter: nat)
    requires KeepsUp(n, last, first, before) && 0 <= first <= before <= step
    requires counter > last && TotpCheck.AtStep(step, counter)
    ensures KeepsUp(n + 1, counter, first, step)
  {
    assert TotpCheck.LAST_COUNTER > 10;
  }

  ghost predicate MonotoneSteps(h: History) {
    && (forall i :: 0 <= i < |h| ==> TotpCheck.ClockStep(h[i].now) >= 0)
    && (forall i, j :: 0 <= i <= j < |h| ==> TotpCheck.ClockStep(h[i].now) <= TotpCheck.ClockStep(h[j].now))
  }

  lemma {:induction false} CountKeepsUp(h: History, from: nat, k: nat, userId: string)
    requires Increasing(h, userId) && InTime(h, userId) && MonotoneSteps(h)
    requires from < k <= |h| && NoSet(h, from, k, userId)
    ensures KeepsUp(Count(h, from, k, userId), LastCounter(h, k, userId),
                    TotpCheck.ClockStep(h[from].now), TotpCheck.ClockStep(h[k - 1].now))
  {
    assert StepIncreases(h, k - 1, userId) && StepInTime(h, k - 1, userId);
    if Creates(h[k - 1].change, userId) {
      CountedAccepts(h, from, k, userId);
    } else {
      var first, step := TotpCheck.ClockStep(h[from].now), TotpCheck.ClockStep(h[k - 1].now);
      var before := if from + 1 < k then TotpCheck.ClockStep(h[k - 2].now) else first;
      if from + 1 < k {
        CountKeepsUp(h, from, k - 1, userId);
      }
      if Accepts(h[k - 1].change, userId) {
        KeepsUpAccepting(Count(h, from, k - 1, userId), LastCounter(h, k - 1, userId), first, before, step,
            h[k - 1].change.counter);
      }
    }
  }

  /** The steps the clock crosses between two instants. */
  function Crossed(first: Time, last: Time): int {
    TotpCheck.ClockStep(last) - TotpCheck.ClockStep(first)
  }

  ghost predicate MonotoneTimes(h: History) {
    && (forall i :: 0 <= i < |h| ==> 0 <= h[i].now)
    && (forall i, j :: 0 <= i <= j < |h| ==> h[i].now <= h[j].now)
  }

  lemma ClockStepGrows(a: Time, b: Time)
    requires a <= b
    ensures TotpCheck.ClockStep(a) <= TotpCheck.ClockStep(b)
  {
  }

  lemma CountBounded(h: History, from: nat, last: nat, userId: string, start: Time, end: Time)
    requires Increasing(h, userId) && InTime(h, userId) && MonotoneTimes(h)
    requires from <= last < |h| && NoSet(h, from, last + 1, userId)
    requires h[from].now == start && h[last].now == end
    ensures Count(h, from, last + 1, userId) <= Crossed(start, end) + 3
  {
    forall i | 0 <= i < |h| ensures TotpCheck.ClockStep(h[i].now) >= 0 {
      ClockStepGrows(0, h[i].now);
    }
    forall i, j | 0 <= i <= j < |h| ensures TotpCheck.ClockStep(h[i].now) <= TotpCheck.ClockStep(h[j].now) {
      ClockStepGrows(h[i].now, h[j].now);
    }
    CountKeepsUp(h, from, last + 1, userId);
    ClockStepGrows(start, end);
  }

  // --- lifted to the server --------------------------------------------------

  function AccountsAt(env: Env, run: Trace, k: nat): AccountChange
    requires Sound(env) && k < |run|
  {
    Decide(env, StateAt(env, run, k), run[k].now, run[k].r).0.accounts
  }

  function HistoryOf(env: Env, run: Trace): (h: History)
    requires Sound(env)
    ensures |h| == |run|
  {
    seq(|run|, k requires 0 <= k < |run| => AccountStep(run[k].now, AccountsAt(env, run, k)))
  }

  /** What consuming a counter takes. */
  predicate AcceptedFor(env: Env, s: State, now: Time, r: Request, userId: string, counter: nat)
    requires Sound(env)
  {
    && r.Login?
    && var found := UserByIdentifierHash(s.store, env.blind(r.identifier));
    && found.Some? && found.value.id == userId && userId in s.store.users
    && AcceptedCounter(env, s.store, found.value, r.code, now) == Some(counter)
  }

  lemma LoginAccepted(env: Env, s: State, now: Time, r: Request)
    requires Sound(env) && r.Login?
    ensures var (c, o) := DecideLogin(env, s, now, r);
            && (c.accounts.CounterSet? ==> AcceptedFor(env, s, now, r, c.accounts.userId, c.accounts.counter))
            && (o.Session? && o.cause.PasswordTotp? ==> c.accounts == CounterSet(o.userId, o.cause.counter))
  {
  }

  /** A counter is consumed only by a login whose code is accepted. */
  lemma ConsumedByLogin(env: Env, s: State, now: Time, r: Request)
    requires Sound(env)
    ensures var (c, o) := Decide(env, s, now, r);
            && (c.accounts.CounterSet? ==> AcceptedFor(env, s, now, r, c.accounts.userId, c.accounts.counter))
            && (o.Session? && o.cause.PasswordTotp? ==> c.accounts == CounterSet(o.userId, o.cause.counter))
  {
    if r.Login? {
      LoginAccepted(env, s, now, r);
    }
  }

  lemma CreatedFromZero(env: Env, s: State, now: Time, r: Request)
    requires Sound(env)
    ensures var c := Decide(env, s, now, r).0.accounts;
            c.Created? ==> c.user.identifierHash !in s.store.byIDHash && c.user.totpLastCounter == 0
  {
  }

  lemma CounterAfter(s: Store, now: Time, c: AccountChange, userId: string)
    requires c.Created? ==> c.user.identifierHash !in s.byIDHash && c.user.totpLastCounter == 0
    ensures CounterFollows(s.users, ApplyAccounts(s, now, c).users, c, userId)
  {
    match c
    case Created(user) =>
      assert ApplyAccounts(s, now, c).users == s.users[user.id := user];
    case Erased(id) =>
      assert forall u :: u in ApplyAccounts(s, now, c).users ==>
          u in s.users && ApplyAccounts(s, now, c).users[u] == s.users[u];
    case _ =>
  }

  function UsersAt(env: Env, run: Trace, k: nat): map<string, User>
    requires Sound(env) && k <= |run|
  {
    StateAt(env, run, k).store.users
  }

  lemma CounterStep(env: Env, run: Trace, k: nat, userId: string)
    requires Sound(env) && k < |run|
    ensures CounterFollows(UsersAt(env, run, k), UsersAt(env, run, k + 1), AccountsAt(env, run, k), userId)
  {
    CreatedFromZero(env, StateAt(env, run, k), run[k].now, run[k].r);
    CounterAfter(StateAt(env, run, k).store, run[k].now, AccountsAt(env, run, k), userId);
  }

  function UserTables(env: Env, run: Trace): (tables: seq<map<string, User>>)
    requires Sound(env)
    ensures |tables| == |run| + 1
  {
    seq(|run| + 1, k requires 0 <= k <= |run| => UsersAt(env, run, k))
  }

  lemma CountersFollow(env: Env, run: Trace, k: nat, userId: string)
    requires Sound(env) && k < |run|
    ensures CounterFollows(UserTables(env, run)[k], UserTables(env, run)[k + 1], HistoryOf(env, run)[k].change, userId)
  {
    var before, after, c := UserTables(env, run)[k], UserTables(env, run)[k + 1], HistoryOf(env, run)[k].change;
    assert before == UsersAt(env, run, k) && after == UsersAt(env, run, k + 1) && c == AccountsAt(env, run, k);
    assert CounterFollows(before, after, c, userId) by {
      CounterStep(env, run, k, userId);
    }
  }

  lemma CountersAgree(env: Env, run: Trace, k: nat, userId: string)
    requires Sound(env) && k <= |run| && userId in UserTables(env, run)[k]
    ensures UserTables(env, run)[k][userId].totpLastCounter == LastCounter(HistoryOf(env, run), k, userId)
  {
    var h, tables := HistoryOf(env, run), UserTables(env, run);
    forall i {:trigger h[i]} | 0 <= i < |h| ensures CounterFollows(tables[i], tables[i + 1], h[i].change, userId) {
      CountersFollow(env, run, i, userId);
    }
    assert tables[0] == UsersAt(env, run, 0);
    CounterIs(h, tables, k, userId);
  }

  lemma AcceptedAbove(env: Env, s: State, now: Time, r: Request)
    requires Sound(env) && IndexInverse(s.store)
    ensures var c := Decide(env, s, now, r).0.accounts;
            c.CounterSet? ==> && c.userId in s.store.users && c.counter > s.store.users[c.userId].totpLastCounter
                              && (TotpCheck.SinceEpoch(now) ==> TotpCheck.AtStep(TotpCheck.ClockStep(now), c.counter))
  {
    var c := Decide(env, s, now, r).0.accounts;
    ConsumedByLogin(env, s, now, r);
    if c.CounterSet? {
      var u := UserByIdentifierHash(s.store, env.blind(r.identifier)).value;
      LookupIsScan(s.store, env.blind(r.identifier), u);
      AcceptedStep(env, s.store, u, r.code, now);
    }
  }

  lemma AcceptedStep(env: Env, s: Store, u: User, code: string, now: Time)
    requires Sound(env)
    ensures var c := AcceptedCounter(env, s, u, code, now);
            c.Some? ==> && c.value > u.totpLastCounter
                        && (TotpCheck.SinceEpoch(now) ==> TotpCheck.AtStep(TotpCheck.ClockStep(now), c.value))
  {
    if env.unseal(u.totpSecret).Some? {
      TotpCheck.AcceptedNearClock(env.totp, env.unseal(u.totpSecret).value, code, now);
      if TotpCheck.SinceEpoch(now) {
        TotpCheck.CountersNearby(now);
      }
    }
  }

  lemma HistoryIncreasing(env: Env, run: Trace, userId: string)
    requires Sound(env) && FreshUserIds(run)
    ensures Increasing(HistoryOf(env, run), userId)
  {
    var h := HistoryOf(env, run);
    forall k: nat | k < |h| && Accepts(h[k].change, userId) ensures StepIncreases(h, k, userId) {
      StoreInvAlways(env, run, k);
      AcceptedAbove(env, StateAt(env, run, k), run[k].now, run[k].r);
      CountersAgree(env, run, k, userId);
    }
    forall i, k | 0 <= i < k < |h| && Accepts(h[i].change, userId) ensures !Creates(h[k].change, userId) {
      StoreInvAlways(env, run, i);
      ConsumedByLogin(env, StateAt(env, run, i), run[i].now, run[i].r);
      assert Registered(run, i, userId);
      DecidedCreation(env, StateAt(env, run, k), run[k].now, run[k].r);
    }
  }

  /** No instant is before the epoch. */
  ghost predicate ClockInRange(run: Trace) {
    forall k :: 0 <= k < |run| ==> TotpCheck.SinceEpoch(run[k].now)
  }

  /** Each counter consumed is that of the clock step at its acceptance or a neighbour. */
  lemma HistoryInTime(env: Env, run: Trace, userId: string)
    requires Sound(env) && FreshUserIds(run) && ClockInRange(run)
    ensures InTime(HistoryOf(env, run), userId)
  {
    var h := HistoryOf(env, run);
    forall k: nat | k < |h| && Accepts(h[k].change, userId) ensures StepInTime(h, k, userId) {
      StoreInvAlways(env, run, k);
      AcceptedAbove(env, StateAt(env, run, k), run[k].now, run[k].r);
    }
  }

  /** Exactly a setup, an accepted enable and an accepted disable set the secret. */
  lemma SetCauses(env: Env, s: State, now: Time, r: Request, userId: string)
    requires Sound(env)
    ensures Sets(Decide(env, s, now, r).0.accounts, userId)
            <==> && userId in s.store.users
                 && var u := s.store.users[userId];
                    || (r.TotpSetup? && r.userId == userId && !u.totpEnabled && r.sealed.Some?)
                    || (r.TotpEnable? && r.userId == userId && u.totpSecret != "" && CodeValid(env, u, r.code, now))
                    || (r.TotpDisable? && r.userId == userId && u.totpEnabled && CodeValid(env, u, r.code, now))
  {
  }

  /** A login answered with a session on a code has consumed the code's counter. */
  lemma LoginConsumes(env: Env, run: Trace, k: nat)
    requires Sound(env) && k < |run|
    ensures var o := OutcomeAt(env, run, k);
            o.Session? && o.cause.PasswordTotp? ==>
                HistoryOf(env, run)[k].change == CounterSet(o.userId, o.cause.counter)
  {
    ConsumedByLogin(env, StateAt(env, run, k), run[k].now, run[k].r);
  }

  /** The counters consumed between two calls that set the secret strictly increase; so
      no code is accepted twice. */
  lemma CountersIncrease(env: Env, run: Trace, i: nat, j: nat, userId: string, a: nat, b: nat)
    requires Sound(env) && FreshUserIds(run) && i < j < |run|
    requires HistoryOf(env, run)[i].change == CounterSet(userId, a)
    requires HistoryOf(env, run)[j].change == CounterSet(userId, b)
    requires NoSet(HistoryOf(env, run), i + 1, j, userId)
    ensures a < b
  {
    HistoryIncreasing(env, run, userId);
    CounterGrows(HistoryOf(env, run), i, j, userId);
    assert StepIncreases(HistoryOf(env, run), j, userId);
  }

  lemma TimeAt(env: Env, run: Trace, k: nat)
    requires Sound(env) && k < |run|
    ensures HistoryOf(env, run)[k].now == run[k].now
  {
  }

  lemma TimesCarried(h: History, run: Trace)
    requires |h| == |run| && Monotone(run) && ClockInRange(run)
    requires forall k {:trigger h[k]} :: 0 <= k < |h| ==> h[k].now == run[k].now
    ensures MonotoneTimes(h)
  {
  }

  lemma HistoryTimes(env: Env, run: Trace)
    requires Sound(env) && Monotone(run) && ClockInRange(run)
    ensures MonotoneTimes(HistoryOf(env, run))
  {
    var h := HistoryOf(env, run);
    forall k {:trigger h[k]} | 0 <= k < |h| ensures h[k].now == run[k].now {
      TimeAt(env, run, k);
    }
    TimesCarried(h, run);
  }

  /** While the clock crosses D steps, at most D + 3 logins on a code are accepted. */
  lemma LoginsBounded(env: Env, run: Trace, from: nat, last: nat, userId: string)
    requires Sound(env) && FreshUserIds(run) && ClockInRange(run) && Monotone(run) && from <= last < |run|
    requires NoSet(HistoryOf(env, run), from, last + 1, userId)
    ensures Count(HistoryOf(env, run), from, last + 1, userId) <= Crossed(run[from].now, run[last].now) + 3
  {
    HistoryIncreasing(env, run, userId);
    HistoryInTime(env, run, userId);
    HistoryTimes(env, run);
    TimeAt(env, run, from);
    TimeAt(env, run, last);
    CountBounded(HistoryOf(env, run), from, last, userId, run[from].now, run[last].now);
  }
}
