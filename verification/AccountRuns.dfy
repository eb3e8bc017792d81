/** Passwords and second factors over whole runs: what a recovery puts in force stays in
    force, and a second factor once enabled is asked for until it is disabled. */
module AccountRuns {
  import opened Prelude
  import opened Storage
  import opened ServerSpec
  import opened ServerRuns
  import opened HandlerLaws
  import SessionRuns
  import TotpRuns

  type Users = map<string, User>

  // --- a second factor stays on ----------------------------------------------

  predicate On(users: Users, userId: string) {
    userId in users ==> users[userId].totpEnabled
  }

  /** An accepted disable of the user. */
  predicate Disables(env: Env, run: Trace, i: nat, userId: string)
    requires Sound(env) && i < |run|
  {
    run[i].r.TotpDisable? && run[i].r.userId == userId && OutcomeAt(env, run, i) == Done
  }

  ghost predicate NoDisable(env: Env, run: Trace, k: nat, j: nat, userId: string)
    requires Sound(env) && j <= |run|
  {
    forall i {:trigger Disables(env, run, i, userId)} :: k < i < j ==> !Disables(env, run, i, userId)
  }

  lemma TurnedOff(env: Env, s: State, now: Time, r: Request)
    requires Sound(env)
    ensures var (c, o) := Decide(env, s, now, r);
            c.accounts.TotpSet? && !c.accounts.enabled ==>
              var id := c.accounts.userId;
              && id in s.store.users
              && ((r.TotpSetup? && !s.store.users[id].totpEnabled) || (r.TotpDisable? && r.userId == id && o == Done))
  {
  }

  lemma OnAfter(s: Store, now: Time, c: AccountChange, userId: string)
    requires !TotpRuns.Creates(c, userId)
    requires TotpRuns.Sets(c, userId) && !c.enabled ==> !On(s.users, userId)
    ensures On(s.users, userId) ==> On(ApplyAccounts(s, now, c).users, userId)
  {
  }

  lemma CreatesOthers(env: Env, run: Trace, k: nat, i: nat, userId: string)
    requires Sound(env) && FreshUserIds(run) && k <= i < |run| && Registered(run, k, userId)
    ensures !TotpRuns.Creates(TotpRuns.AccountsAt(env, run, i), userId)
  {
    DecidedCreation(env, StateAt(env, run, i), run[i].now, run[i].r);
  }

  lemma OnStep(env: Env, run: Trace, i: nat, userId: string)
    requires Sound(env) && i < |run| && !TotpRuns.Creates(TotpRuns.AccountsAt(env, run, i), userId)
    requires !Disables(env, run, i, userId)
    ensures On(TotpRuns.UsersAt(env, run, i), userId) ==> On(TotpRuns.UsersAt(env, run, i + 1), userId)
  {
    TurnedOff(env, StateAt(env, run, i), run[i].now, run[i].r);
    OnAfter(StateAt(env, run, i).store, run[i].now, TotpRuns.AccountsAt(env, run, i), userId);
  }

  lemma EnableTurnsOn(env: Env, s: State, now: Time, r: Request)
    requires Sound(env) && r.TotpEnable? && IndexInverse(s.store)
    ensures var (t, o) := Step(env, s, now, r);
            o == Done ==> r.userId in s.store.users && On(t.store.users, r.userId)
  {
    EnableAnswers(env, s, now, r);
  }

  lemma EnabledIsOn(env: Env, run: Trace, k: nat, userId: string)
    requires Sound(env) && FreshUserIds(run) && k < |run|
    requires run[k].r.TotpEnable? && run[k].r.userId == userId && OutcomeAt(env, run, k) == Done
    ensures Registered(run, k, userId)
    ensures On(TotpRuns.UsersAt(env, run, k + 1), userId)
  {
    StoreInvAlways(env, run, k);
    EnableTurnsOn(env, StateAt(env, run, k), run[k].now, run[k].r);
    StepAt(env, run, k);
  }

  lemma OnKept(env: Env, run: Trace, k: nat, i: nat, userId: string)
    requires Sound(env) && FreshUserIds(run) && k < i < |run| && Registered(run, k, userId)
    requires !Disables(env, run, i, userId)
    ensures On(TotpRuns.UsersAt(env, run, i), userId) ==> On(TotpRuns.UsersAt(env, run, i + 1), userId)
  {
    CreatesOthers(env, run, k, i, userId);
    OnStep(env, run, i, userId);
  }

  lemma OnTables(env: Env, run: Trace, tables: seq<Users>, k: nat, j: nat, userId: string)
    requires Sound(env) && FreshUserIds(run) && k < j <= |run| && Registered(run, k, userId)
    requires |tables| == |run| + 1
    requires forall i {:trigger tables[i]} :: 0 <= i <= |run| ==> tables[i] == TotpRuns.UsersAt(env, run, i)
    requires NoDisable(env, run, k, j, userId)
    ensures forall i {:trigger tables[i]} :: k < i < j ==> (On(tables[i], userId) ==> On(tables[i + 1], userId))
  {
    forall i {:trigger tables[i]} | k < i < j ensures On(tables[i], userId) ==> On(tables[i + 1], userId) {
      OnKept(env, run, k, i, userId);
    }
  }

  /** What every step keeps holds from then on. */
  lemma {:induction false} OnPersists(tables: seq<Users>, from: nat, to: nat, userId: string)
    requires from <= to < |tables| && On(tables[from], userId)
    requires forall i {:trigger tables[i]} :: from <= i < to ==> (On(tables[i], userId) ==> On(tables[i + 1], userId))
    ensures On(tables[to], userId)
  {
    if from < to {
      OnPersists(tables, from, to - 1, userId);
      assert On(tables[to - 1], userId) ==> On(tables[to - 1 + 1], userId);
    }
  }

  lemma OnAlong(env: Env, run: Trace, k: nat, j: nat, userId: string)
    requires Sound(env) && FreshUserIds(run) && k < j <= |run| && Registered(run, k, userId)
    requires NoDisable(env, run, k, j, userId)
    requires On(TotpRuns.UsersAt(env, run, k + 1), userId)
    ensures On(TotpRuns.UsersAt(env, run, j), userId)
  {
    var tables := seq(|run| + 1, i requires 0 <= i <= |run| => TotpRuns.UsersAt(env, run, i));
    OnTables(env, run, tables, k, j, userId);
    OnPersists(tables, k + 1, j, userId);
  }

  lemma PasswordOnlyMeansOff(env: Env, s: State, now: Time, r: Request)
    requires Sound(env) && IndexInverse(s.store)
    ensures var o := Step(env, s, now, r).1;
            o.Session? && o.cause.PasswordOnly? ==> o.userId in s.store.users && !s.store.users[o.userId].totpEnabled
  {
    SessionRuns.SessionEvidence(env, s, now, r);
    if r.Login? {
      var ih := env.blind(r.identifier);
      FoundIsAccount(s, ih);
    }
  }

  /** From an accepted enable to the next accepted disable, no login of the user is
      answered with a session on the password alone. */
  lemma SecondFactorHolds(env: Env, run: Trace, k: nat, j: nat, userId: string)
    requires Sound(env) && FreshUserIds(run) && k < j < |run|
    requires run[k].r.TotpEnable? && run[k].r.userId == userId && OutcomeAt(env, run, k) == Done
    requires NoDisable(env, run, k, j, userId)
    ensures var o := OutcomeAt(env, run, j); !(o.Session? && o.userId == userId && o.cause == PasswordOnly)
  {
    EnabledIsOn(env, run, k, userId);
    OnAlong(env, run, k, j, userId);
    StoreInvAlways(env, run, j);
    PasswordOnlyMeansOff(env, StateAt(env, run, j), run[j].now, run[j].r);
  }

  // --- a recovered password stays in force -----------------------------------

  predicate InForce(users: Users, userId: string, verifier: string) {
    userId in users ==> users[userId].verifier == verifier
  }

  /** A recovery of the account goes through, whether or not it can answer a session. */
  ghost predicate Rotates(env: Env, run: Trace, i: nat, userId: string)
    requires Sound(env) && i < |run|
  {
    SessionRuns.RecoveryGoesThrough(env, StateAt(env, run, i), run[i].now, run[i].r, userId)
  }

  ghost predicate NoRecovery(env: Env, run: Trace, k: nat, j: nat, userId: string)
    requires Sound(env) && j <= |run|
  {
    forall i {:trigger Rotates(env, run, i, userId)} :: k < i < j ==> !Rotates(env, run, i, userId)
  }

  lemma OnlyRecoveryRotates(env: Env, s: State, now: Time, r: Request)
    requires Sound(env)
    ensures var c := Decide(env, s, now, r).0.accounts;
            c.PasswordRotated? ==> SessionRuns.RecoveryGoesThrough(env, s, now, r, c.userId)
  {
  }

  lemma InForceAfter(s: Store, now: Time, c: AccountChange, userId: string, verifier: string)
    requires !TotpRuns.Creates(c, userId) && !(c.PasswordRotated? && c.userId == userId)
    ensures InForce(s.users, userId, verifier) ==> InForce(ApplyAccounts(s, now, c).users, userId, verifier)
  {
  }

  lemma InForceStep(env: Env, run: Trace, i: nat, userId: string, verifier: string)
    requires Sound(env) && i < |run| && !TotpRuns.Creates(TotpRuns.AccountsAt(env, run, i), userId)
    requires !Rotates(env, run, i, userId)
    ensures InForce(TotpRuns.UsersAt(env, run, i), userId, verifier)
        ==> InForce(TotpRuns.UsersAt(env, run, i + 1), userId, verifier)
  {
    OnlyRecoveryRotates(env, StateAt(env, run, i), run[i].now, run[i].r);
    InForceAfter(StateAt(env, run, i).store, run[i].now, TotpRuns.AccountsAt(env, run, i), userId, verifier);
  }

  /** Step k completes a recovery of the account and answers a session. */
  predicate Recovers(env: Env, run: Trace, k: nat, userId: string)
    requires Sound(env) && k < |run|
  {
    var o := OutcomeAt(env, run, k);
    run[k].r.RecoveryComplete? && o.Session? && o.userId == userId
  }

  lemma RecoveredRow(env: Env, s: State, now: Time, r: Request)
    requires Sound(env) && r.RecoveryComplete? && IndexInverse(s.store)
    ensures var (t, o) := Step(env, s, now, r);
            o.Session? ==> && r.verifier.Some? && o.userId in s.store.users
                           && t.store.users == s.store.users[o.userId := NewPassword(now, r, s.store.users[o.userId])]
  {
    RecoveryAnswers(env, s, now, r);
    var ih := env.blind(r.identifier);
    FoundIsAccount(s, ih);
    var found := UserByIdentifierHash(s.store, ih);
    if found.Some? {
      assert Account(s, ih, found.value);
    }
  }

  lemma RecoveredInForce(env: Env, run: Trace, k: nat, userId: string)
    requires Sound(env) && FreshUserIds(run) && k < |run| && Recovers(env, run, k, userId)
    ensures run[k].r.verifier.Some? && Registered(run, k, userId)
    ensures InForce(TotpRuns.UsersAt(env, run, k + 1), userId, run[k].r.verifier.value)
  {
    StoreInvAlways(env, run, k);
    RecoveredRow(env, StateAt(env, run, k), run[k].now, run[k].r);
    StepAt(env, run, k);
  }

  lemma InForceKept(env: Env, run: Trace, k: nat, i: nat, userId: string, verifier: string)
    requires Sound(env) && FreshUserIds(run) && k < i < |run| && Registered(run, k, userId)
    requires !Rotates(env, run, i, userId)
    ensures InForce(TotpRuns.UsersAt(env, run, i), userId, verifier)
        ==> InForce(TotpRuns.UsersAt(env, run, i + 1), userId, verifier)
  {
    CreatesOthers(env, run, k, i, userId);
    InForceStep(env, run, i, userId, verifier);
  }

  lemma InForceTables(env: Env, run: Trace, tables: seq<Users>, k: nat, j: nat, userId: string, verifier: string)
    requires Sound(env) && FreshUserIds(run) && k < j <= |run| && Registered(run, k, userId)
    requires |tables| == |run| + 1
    requires forall i {:trigger tables[i]} :: 0 <= i <= |run| ==> tables[i] == TotpRuns.UsersAt(env, run, i)
    requires NoRecovery(env, run, k, j, userId)
    ensures forall i {:trigger tables[i]} :: k < i < j ==>
              (InForce(tables[i], userId, verifier) ==> InForce(tables[i + 1], userId, verifier))
  {
    forall i {:trigger tables[i]} | k < i < j
      ensures InForce(tables[i], userId, verifier) ==> InForce(tables[i + 1], userId, verifier)
    {
      InForceKept(env, run, k, i, userId, verifier);
    }
  }

  lemma {:induction false} InForcePersists(tables: seq<Users>, from: nat, to: nat, userId: string, verifier: string)
    requires from <= to < |tables| && InForce(tables[from], userId, verifier)
    requires forall i {:trigger tables[i]} :: from <= i < to ==>
               (InForce(tables[i], userId, verifier) ==> InForce(tables[i + 1], userId, verifier))
    ensures InForce(tables[to], userId, verifier)
  {
    if from < to {
      InForcePersists(tables, from, to - 1, userId, verifier);
      assert InForce(tables[to - 1], userId, verifier) ==> InForce(tables[to - 1 + 1], userId, verifier);
    }
  }

  lemma InForceAlong(env: Env, run: Trace, k: nat, j: nat, userId: string, verifier: string)
    requires Sound(env) && FreshUserIds(run) && k < j <= |run| && Registered(run, k, userId)
    requires NoRecovery(env, run, k, j, userId)
    requires InForce(TotpRuns.UsersAt(env, run, k + 1), userId, verifier)
    ensures InForce(TotpRuns.UsersAt(env, run, j), userId, verifier)
  {
    var tables := seq(|run| + 1, i requires 0 <= i <= |run| => TotpRuns.UsersAt(env, run, i));
    InForceTables(env, run, tables, k, j, userId, verifier);
    InForcePersists(tables, k + 1, j, userId, verifier);
  }

  /** What an unlocked login of the account meets: past the password to the factors, or
      refused for the password. */
  ghost predicate PastPassword(env: Env, run: Trace, j: nat, u: User)
    requires Sound(env) && j < |run| && run[j].r.Login?
  {
    FactorsLaw(env, StateAt(env, run, j), run[j].now, run[j].r, u, OutcomeAt(env, run, j))
  }

  ghost predicate RefusedForPassword(env: Env, run: Trace, j: nat, u: User)
    requires Sound(env) && j < |run| && run[j].r.Login?
  {
    && OutcomeAt(env, run, j) == Refused
    && StoreAt(env, run, j + 1).audit == Noted(StateAt(env, run, j), run[j].now, u.id, EvtLoginFailure(ByPassword))
  }

  lemma LoginMeets(env: Env, run: Trace, j: nat, u: User)
    requires Sound(env) && FreshUserIds(run) && j < |run| && run[j].r.Login?
    requires Account(StateAt(env, run, j), env.blind(run[j].r.identifier), u)
    requires !LockedOut(StateAt(env, run, j), run[j].now, env.blind(run[j].r.identifier))
    ensures if env.verify(u.verifier, run[j].r.passwordHash)
            then PastPassword(env, run, j, u) else RefusedForPassword(env, run, j, u)
  {
    StoreInvAlways(env, run, j);
    LoginAnswers(env, StateAt(env, run, j), run[j].now, run[j].r);
    StepAt(env, run, j);
  }

  /** From a completed recovery to the next one, as long as the account is there, a login
      gets past the password exactly with the recovered one. */
  lemma RecoveredPasswordHolds(env: Env, run: Trace, k: nat, j: nat, u: User)
    requires Sound(env) && FreshUserIds(run) && k < j < |run| && Recovers(env, run, k, u.id)
    requires NoRecovery(env, run, k, j, u.id)
    requires run[j].r.Login? && Account(StateAt(env, run, j), env.blind(run[j].r.identifier), u)
    requires !LockedOut(StateAt(env, run, j), run[j].now, env.blind(run[j].r.identifier))
    ensures run[k].r.verifier.Some?
    ensures if env.verify(run[k].r.verifier.value, run[j].r.passwordHash)
            then PastPassword(env, run, j, u) else RefusedForPassword(env, run, j, u)
  {
    RecoveredInForce(env, run, k, u.id);
    InForceAlong(env, run, k, j, u.id, run[k].r.verifier.value);
    LoginMeets(env, run, j, u);
  }
}
