/** Refresh tokens over whole runs of the server: at most one redemption, no life after
    a revoke-all, conservation of sessions, and where each token comes from. */
module SessionRuns {
  import opened Prelude
  import opened Storage
  import opened ServerSpec
  import opened ServerRuns
  import opened TokenHistory
  import Lockout

  // --- what one step does to the tokens --------------------------------------

  /** A session is answered exactly when a token is stored, and it is that token. */
  predicate Answers(env: Env, now: Time, r: Request, d: (Change, Outcome)) {
    && (d.1.Session? <==> NewOf(d.0.sessions).Some?)
    && (d.1.Session? ==> && DrawnToken(r) == Some(d.1.token)
                         && NewOf(d.0.sessions) == Some(NewToken(env, now, d.1.userId, d.1.token)))
  }

  lemma LoginAnswers(env: Env, s: State, now: Time, r: Request)
    requires Sound(env) && r.Login?
    ensures Answers(env, now, r, DecideLogin(env, s, now, r))
  {
  }

  lemma RecoveryAnswers(env: Env, s: State, now: Time, r: Request)
    requires r.RecoveryComplete?
    ensures Answers(env, now, r, DecideRecoveryComplete(env, s, now, r))
  {
  }

  lemma AssertionAnswers(env: Env, s: State, now: Time, r: Request)
    requires r.PasskeyLoginFinish?
    ensures Answers(env, now, r, DecidePasskeyLoginFinish(env, s, now, r))
  {
  }

  lemma AnswersStoredToken(env: Env, s: State, now: Time, r: Request)
    requires Sound(env)
    ensures Answers(env, now, r, Decide(env, s, now, r))
  {
    if r.Login? {
      LoginAnswers(env, s, now, r);
    } else if r.RecoveryComplete? {
      RecoveryAnswers(env, s, now, r);
    } else if r.PasskeyLoginFinish? {
      AssertionAnswers(env, s, now, r);
    }
  }

  /** A rotation redeems the presented token for its owner. */
  predicate Rotates(env: Env, s: State, now: Time, r: Request, d: (Change, Outcome)) {
    && r.Refresh? && d.0.sessions.Rotated? && d.1.Session? && d.1.cause == Rotation(d.0.sessions.parent)
    && d.0.sessions.parent == env.hashToken(r.refreshToken) && Redeemable(s.store.refresh, now, d.0.sessions.parent)
    && s.store.refresh[d.0.sessions.parent].userId == d.1.userId
  }

  lemma RefreshRotates(env: Env, s: State, now: Time, r: Request)
    requires r.Refresh?
    ensures var d := DecideRefresh(env, s, now, r); d.0.sessions.Rotated? || d.1.Session? ==> Rotates(env, s, now, r, d)
  {
  }

  lemma RotationFacts(env: Env, s: State, now: Time, r: Request)
    requires Sound(env)
    ensures var d := Decide(env, s, now, r);
            && (d.0.sessions.Rotated? ==> Rotates(env, s, now, r, d))
            && (d.1.Session? && (d.1.cause.Rotation? || r.Refresh?) ==> Rotates(env, s, now, r, d))
  {
    if r.Refresh? {
      RefreshRotates(env, s, now, r);
    }
  }

  lemma RefreshLosses(env: Env, s: State, now: Time, r: Request, userId: string)
    requires r.Refresh?
    ensures var c := DecideRefresh(env, s, now, r).0;
            && (c.sessions.Spent? ==> Redeemable(s.store.refresh, now, c.sessions.hash))
            && (c.sessions.Expired? ==>
                c.sessions.hash in s.store.refresh && now > s.store.refresh[c.sessions.hash].expiresAt)
            && (Loses(s.store.refresh, c.sessions, userId) <==> RefreshLoses(env, s, now, r, userId))
  {
  }

  lemma OnlyRefreshLoses(env: Env, s: State, now: Time, r: Request)
    requires Sound(env) && !r.Refresh?
    ensures var c := Decide(env, s, now, r).0.sessions; !c.Spent? && !c.Expired?
  {
  }

  lemma LossFacts(env: Env, s: State, now: Time, r: Request)
    requires Sound(env)
    ensures var c := Decide(env, s, now, r).0;
            && (c.sessions.Spent? ==> Redeemable(s.store.refresh, now, c.sessions.hash))
            && (c.sessions.Expired? ==>
                c.sessions.hash in s.store.refresh && now > s.store.refresh[c.sessions.hash].expiresAt)
  {
    if r.Refresh? {
      RefreshLosses(env, s, now, r, "");
    } else {
      OnlyRefreshLoses(env, s, now, r);
    }
  }

  lemma ErasureRevokes(env: Env, s: State, now: Time, r: Request)
    requires Sound(env)
    ensures var c := Decide(env, s, now, r).0; c.accounts.Erased? ==> c.sessions == Revoked(c.accounts.userId)
  {
  }

  lemma RecoveryReplaces(env: Env, s: State, now: Time, r: Request)
    requires r.RecoveryComplete?
    ensures var (c, o) := DecideRecoveryComplete(env, s, now, r);
            && (c.sessions.Replaced? <==> o.Session?)
            && (o.Session? ==> o.cause == RecoveryCode && c.sessions.userId == o.userId)
  {
  }

  lemma RecoveryFacts(env: Env, s: State, now: Time, r: Request)
    requires Sound(env)
    ensures var (c, o) := Decide(env, s, now, r);
            && (c.sessions.Replaced? ==> o.Session? && o.cause == RecoveryCode && c.sessions.userId == o.userId)
            && (o.Session? && o.cause == RecoveryCode ==> c.sessions.Replaced?)
  {
    if r.RecoveryComplete? {
      RecoveryReplaces(env, s, now, r);
    }
  }

  lemma DecidesPermitted(env: Env, s: State, now: Time, r: Request)
    requires Sound(env)
    ensures Permitted(s.store.refresh, now, Decide(env, s, now, r).0.sessions)
  {
    AnswersStoredToken(env, s, now, r);
    RotationFacts(env, s, now, r);
    LossFacts(env, s, now, r);
    RecoveryFacts(env, s, now, r);
  }

  lemma TokensOfChange(s: Store, now: Time, c: Change)
    requires c.accounts.Erased? ==> c.sessions == Revoked(c.accounts.userId)
    ensures ApplyStore(s, now, c).refresh == ApplySessions(s.refresh, c.sessions)
  {
    if c.accounts.Erased? {
      RevokeTwice(s.refresh, c.accounts.userId);
    } else {
      OnlyErasureDeletes(s, now, c.accounts);
    }
  }

  /** The tokens after a step depend on its session change alone. */
  lemma TokensOfStep(env: Env, s: State, now: Time, r: Request)
    requires Sound(env)
    ensures Step(env, s, now, r).0.store.refresh == ApplySessions(s.store.refresh, Decide(env, s, now, r).0.sessions)
  {
    ErasureRevokes(env, s, now, r);
    TokensOfChange(s.store, now, Decide(env, s, now, r).0);
  }

  // --- the token history of a run --------------------------------------------

  function SessionsAt(env: Env, run: Trace, k: nat): SessionChange
    requires Sound(env) && k < |run|
  {
    Decide(env, StateAt(env, run, k), run[k].now, run[k].r).0.sessions
  }

  function TokensAt(env: Env, run: Trace, k: nat): TokenTable
    requires Sound(env) && k <= |run|
  {
    StateAt(env, run, k).store.refresh
  }

  function HistoryOf(env: Env, run: Trace): (h: History)
    requires Sound(env)
    ensures |h| == |run|
  {
    seq(|run|, k requires 0 <= k < |run| => TokenStep(run[k].now, SessionsAt(env, run, k)))
  }

  lemma TokensStep(env: Env, run: Trace, k: nat)
    requires Sound(env) && k < |run|
    ensures TokensAt(env, run, k + 1) == ApplySessions(TokensAt(env, run, k), SessionsAt(env, run, k))
  {
    TokensOfStep(env, StateAt(env, run, k), run[k].now, run[k].r);
  }

  lemma TokensAgree(env: Env, run: Trace, k: nat)
    requires Sound(env) && k <= |run|
    ensures TokensAt(env, run, k) == Kept(HistoryOf(env, run), k)
  {
    var h, tables := HistoryOf(env, run), seq(|run| + 1, i requires 0 <= i <= |run| => TokensAt(env, run, i));
    forall i {:trigger h[i]} | 0 <= i < |h| ensures tables[i + 1] == ApplySessions(tables[i], h[i].change) {
      TokensStep(env, run, i);
    }
    KeptIs(h, tables, k);
  }

  /** Step k answers a session of the user whose refresh token has the hash. */
  ghost predicate Issues(env: Env, run: Trace, k: nat, userId: string, hash: string)
    requires Sound(env)
  {
    && k < |run| && OutcomeAt(env, run, k).Session? && OutcomeAt(env, run, k).userId == userId
    && env.hashToken(OutcomeAt(env, run, k).token) == hash
  }

  lemma StoresIssued(env: Env, run: Trace, k: nat, rt: RefreshToken)
    requires Sound(env) && Stores(HistoryOf(env, run), k, rt)
    ensures Issues(env, run, k, rt.userId, rt.tokenHash)
    ensures DrawnToken(run[k].r).Some? && env.hashToken(DrawnToken(run[k].r).value) == rt.tokenHash
  {
    AnswersStoredToken(env, StateAt(env, run, k), run[k].now, run[k].r);
  }

  lemma IssuedStored(env: Env, run: Trace, k: nat)
    requires Sound(env) && k < |run| && OutcomeAt(env, run, k).Session?
    ensures var o := OutcomeAt(env, run, k);
            Stores(HistoryOf(env, run), k, NewToken(env, run[k].now, o.userId, o.token))
  {
    AnswersStoredToken(env, StateAt(env, run, k), run[k].now, run[k].r);
  }

  lemma PermittedAt(env: Env, run: Trace, k: nat)
    requires Sound(env) && k < |run|
    ensures Permitted(Kept(HistoryOf(env, run), k), run[k].now, SessionsAt(env, run, k))
  {
    TokensAgree(env, run, k);
    DecidesPermitted(env, StateAt(env, run, k), run[k].now, run[k].r);
  }

  lemma HistoryGenuine(env: Env, run: Trace)
    requires Sound(env) && FreshTokens(env, run)
    ensures Genuine(HistoryOf(env, run))
  {
    var h := HistoryOf(env, run);
    forall k {:trigger Kept(h, k)} | 0 <= k < |h| ensures Permitted(Kept(h, k), h[k].now, h[k].change) {
      PermittedAt(env, run, k);
    }
    forall i, j, a, b | Stores(h, i, a) && Stores(h, j, b) && a.tokenHash == b.tokenHash ensures i == j {
      StoresIssued(env, run, i, a);
      StoresIssued(env, run, j, b);
    }
  }

  // --- at most one redemption ------------------------------------------------

  /** Step k is a refresh that presents a token with the hash and succeeds. */
  ghost predicate Redeems(env: Env, run: Trace, k: nat, hash: string)
    requires Sound(env)
  {
    k < |run| && run[k].r.Refresh? && env.hashToken(run[k].r.refreshToken) == hash && OutcomeAt(env, run, k).Session?
  }

  lemma RedeemsRotates(env: Env, run: Trace, k: nat, hash: string)
    requires Sound(env) && Redeems(env, run, k, hash)
    ensures RedeemedAt(HistoryOf(env, run), k, hash)
  {
    RotationFacts(env, StateAt(env, run, k), run[k].now, run[k].r);
  }

  /** In every run a refresh token is redeemed successfully at most once. */
  lemma RedeemedAtMostOnce(env: Env, run: Trace, i: nat, j: nat, hash: string)
    requires Sound(env) && FreshTokens(env, run) && Redeems(env, run, i, hash) && Redeems(env, run, j, hash)
    ensures i == j
  {
    HistoryGenuine(env, run);
    RedeemsRotates(env, run, i, hash);
    RedeemsRotates(env, run, j, hash);
    RedeemedOnce(HistoryOf(env, run), i, j, hash);
  }

  // --- revocation ------------------------------------------------------------

  /** Step k revokes every session of the user. */
  ghost predicate RevokesAt(env: Env, run: Trace, k: nat, userId: string)
    requires Sound(env)
  {
    k < |run| && RevokesAll(SessionsAt(env, run, k), userId)
  }

  /** An accepted recovery that gets as far as rotating the password. */
  predicate RecoveryGoesThrough(env: Env, s: State, now: Time, r: Request, userId: string) {
    && r.RecoveryComplete? && r.authHash != "" && r.passwordHash != "" && r.protectedUserKey != "" && r.verifier.Some?
    && var found := UserByIdentifierHash(s.store, env.blind(r.identifier));
    && !Lockout.IsLocked(s.lockout, now, env.blind(r.identifier)) && RecoveryAccepted(env, found, r.authHash)
    && found.value.id == userId && userId in s.store.users
  }

  /** A token presented again after its rotation. */
  predicate Reuse(env: Env, s: State, now: Time, r: Request, userId: string) {
    && r.Refresh? && r.refreshToken != ""
    && var hash := env.hashToken(r.refreshToken);
    && hash in s.store.refresh && s.store.refresh[hash].used && now <= s.store.refresh[hash].expiresAt
    && s.store.refresh[hash].userId == userId
  }

  lemma RefreshRevokes(env: Env, s: State, now: Time, r: Request, userId: string)
    requires r.Refresh?
    ensures RevokesAll(DecideRefresh(env, s, now, r).0.sessions, userId) <==> Reuse(env, s, now, r, userId)
  {
  }

  lemma RecoveryRevokes(env: Env, s: State, now: Time, r: Request, userId: string)
    requires r.RecoveryComplete?
    ensures RevokesAll(DecideRecoveryComplete(env, s, now, r).0.sessions, userId)
        <==> RecoveryGoesThrough(env, s, now, r, userId)
  {
  }

  /** Exactly four things revoke every session of a user. */
  lemma RevocationCauses(env: Env, s: State, now: Time, r: Request, userId: string)
    requires Sound(env)
    ensures RevokesAll(Decide(env, s, now, r).0.sessions, userId)
            <==> || (r == LogoutAll(userId) && userId != "")
                 || (r == DeleteAccount(userId) && userId != "" && userId in s.store.users)
                 || Reuse(env, s, now, r, userId)
                 || RecoveryGoesThrough(env, s, now, r, userId)
  {
    if r.Refresh? {
      RefreshRevokes(env, s, now, r, userId);
    } else if r.RecoveryComplete? {
      RecoveryRevokes(env, s, now, r, userId);
    }
  }

  /** After a revoke-all no token issued to the user before it ever succeeds again. */
  lemma RevokedNeverRedeemed(env: Env, run: Trace, i: nat, k: nat, j: nat, userId: string, hash: string)
    requires Sound(env) && FreshTokens(env, run) && i < k < j
    requires Issues(env, run, i, userId, hash) && RevokesAt(env, run, k, userId)
    ensures !Redeems(env, run, j, hash)
  {
    if Redeems(env, run, j, hash) {
      var h := HistoryOf(env, run);
      HistoryGenuine(env, run);
      IssuedStored(env, run, i);
      RevokedForGood(h, i, NewToken(env, run[i].now, userId, OutcomeAt(env, run, i).token), k, j);
      RedeemsRotates(env, run, j, hash);
    }
  }

  // --- conservation ----------------------------------------------------------

  /** A refresh whose unused token finds no successor: it has expired, or the random
      source fails. */
  predicate RefreshLoses(env: Env, s: State, now: Time, r: Request, userId: string) {
    && r.Refresh? && r.refreshToken != ""
    && var hash := env.hashToken(r.refreshToken);
    && hash in Unused(s.store.refresh, userId) && (now > s.store.refresh[hash].expiresAt || r.token.None?)
  }

  /** What the counts of the balance mean: an authentication is an answered session that
      is not a rotation, and a loss a refresh without a successor. */
  lemma CountsMean(env: Env, s: State, now: Time, r: Request, userId: string)
    requires Sound(env)
    ensures var (c, o) := Decide(env, s, now, r);
            Authenticates(c.sessions, userId) <==> o.Session? && o.userId == userId && !o.cause.Rotation?
    ensures Loses(s.store.refresh, Decide(env, s, now, r).0.sessions, userId) <==> RefreshLoses(env, s, now, r, userId)
  {
    AnswersStoredToken(env, s, now, r);
    RotationFacts(env, s, now, r);
    if r.Refresh? {
      RefreshLosses(env, s, now, r, userId);
    } else {
      OnlyRefreshLoses(env, s, now, r);
    }
  }

  /** In every reachable state a user's unused tokens number the authentications since
      the last revoke-all, less the tokens lost since; rotation changes nothing. */
  lemma SessionBalance(env: Env, run: Trace, k: nat, userId: string)
    requires Sound(env) && FreshTokens(env, run) && k <= |run|
    ensures var h := HistoryOf(env, run);
            var last := LastRevocation(h, k, userId);
            |Unused(TokensAt(env, run, k), userId)| == Authentications(h, last, k, userId) - Losses(h, last, k, userId)
  {
    HistoryGenuine(env, run);
    TokensAgree(env, run, k);
    SessionsConserved(HistoryOf(env, run), k, userId);
  }

  // --- the session list ------------------------------------------------------

  /** The list shows exactly the unused tokens still before expiry, and refresh accepts
      exactly those and the ones at the very instant of expiry. */
  lemma ListedAreAccepted(env: Env, s: State, now: Time, userId: string, refreshToken: string, drawn: string)
    requires Sound(env) && refreshToken != ""
    ensures var hash := env.hashToken(refreshToken);
            var o := Step(env, s, now, Refresh(refreshToken, Some(drawn))).1;
            && (o == Session(userId, drawn, Rotation(hash))
                <==> hash in Unused(s.store.refresh, userId) && now <= s.store.refresh[hash].expiresAt)
            && (hash in s.store.refresh ==>
                  ((hash, s.store.refresh[hash]) in LiveTokens(s.store, now, userId)
                   <==> o == Session(userId, drawn, Rotation(hash)) && now != s.store.refresh[hash].expiresAt))
  {
  }

  // --- provenance ------------------------------------------------------------

  /** The account an identifier and password name. */
  predicate PasswordOf(env: Env, s: State, identifier: string, passwordHash: string, userId: string) {
    var found := UserByIdentifierHash(s.store, env.blind(identifier));
    PasswordAccepted(env, found, passwordHash) && found.value.id == userId
  }

  /** What a session needs, by its cause. */
  predicate Evidence(env: Env, s: State, now: Time, r: Request, userId: string, cause: Cause)
    requires Sound(env)
  {
    match cause
    case PasswordOnly =>
      && r.Login? && PasswordOf(env, s, r.identifier, r.passwordHash, userId)
      && !UserByIdentifierHash(s.store, env.blind(r.identifier)).value.totpEnabled && PasskeysOf(s.store, userId) == {}
    case PasswordTotp(counter) =>
      && r.Login? && PasswordOf(env, s, r.identifier, r.passwordHash, userId)
      && var u := UserByIdentifierHash(s.store, env.blind(r.identifier)).value;
      && u.totpEnabled && AcceptedCounter(env, s.store, u, r.code, now) == Some(counter)
    case Assertion(handle) =>
      && r.PasskeyLoginFinish? && r.handle == handle && PasswordOf(env, s, r.identifier, r.passwordHash, userId)
      && var challenge := LiveChallenge(s, now, handle, userId);
      && challenge.Some? && env.validate(PasskeyRows(s.store, userId), challenge.value.data, r.credential).Some?
    case RecoveryCode => RecoveryGoesThrough(env, s, now, r, userId)
    case Rotation(parent) =>
      r.Refresh? && env.hashToken(r.refreshToken) == parent && parent in Unused(s.store.refresh, userId)
  }

  lemma SessionEvidence(env: Env, s: State, now: Time, r: Request)
    requires Sound(env)
    ensures var o := Step(env, s, now, r).1; o.Session? ==> Evidence(env, s, now, r, o.userId, o.cause)
  {
    if r.Login? {
      LoginEvidence(env, s, now, r);
    } else if r.PasskeyLoginFinish? {
      AssertionEvidence(env, s, now, r);
    }
  }

  lemma LoginEvidence(env: Env, s: State, now: Time, r: Request)
    requires Sound(env) && r.Login?
    ensures var o := DecideLogin(env, s, now, r).1; o.Session? ==> Evidence(env, s, now, r, o.userId, o.cause)
  {
  }

  lemma AssertionEvidence(env: Env, s: State, now: Time, r: Request)
    requires Sound(env) && r.PasskeyLoginFinish?
    ensures var o := DecidePasskeyLoginFinish(env, s, now, r).1;
            o.Session? ==> Evidence(env, s, now, r, o.userId, o.cause)
  {
  }

  /** The token with the hash, before step k, goes back through rotations for one user
      to a session that had its evidence. */
  ghost predicate Descends(env: Env, run: Trace, k: nat, userId: string, hash: string)
    requires Sound(env)
    decreases k
  {
    exists i :: && 0 <= i < k && Issues(env, run, i, userId, hash)
                && Evidence(env, StateAt(env, run, i), run[i].now, run[i].r, userId, OutcomeAt(env, run, i).cause)
                && (OutcomeAt(env, run, i).cause.Rotation? ==>
                    Descends(env, run, i, userId, OutcomeAt(env, run, i).cause.parent))
  }

  lemma KeptWasIssued(env: Env, run: Trace, k: nat, hash: string) returns (i: nat)
    requires Sound(env) && FreshTokens(env, run) && k <= |run| && hash in TokensAt(env, run, k)
    ensures i < k && Issues(env, run, i, TokensAt(env, run, k)[hash].userId, hash)
  {
    var h := HistoryOf(env, run);
    HistoryGenuine(env, run);
    TokensAgree(env, run, k);
    TokensWereStored(h, k, hash);
    var rt := Kept(h, k)[hash].(used := false);
    i :| 0 <= i < k && Stores(h, i, rt);
    StoresIssued(env, run, i, rt);
  }

  /** Every refresh token in any reachable state descends from a login without enrolled
      factors, a login that consumed a TOTP step, a passkey assertion over a live
      challenge of the user, or a completed recovery. */
  lemma {:induction false} EveryTokenDescends(env: Env, run: Trace, k: nat, hash: string)
    requires Sound(env) && FreshTokens(env, run) && k <= |run| && hash in TokensAt(env, run, k)
    ensures Descends(env, run, k, TokensAt(env, run, k)[hash].userId, hash)
    decreases k
  {
    var i := KeptWasIssued(env, run, k, hash);
    SessionEvidence(env, StateAt(env, run, i), run[i].now, run[i].r);
    var cause := OutcomeAt(env, run, i).cause;
    if cause.Rotation? {
      EveryTokenDescends(env, run, i, cause.parent);
    }
  }
}
