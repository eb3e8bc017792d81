/** What each request answers and what it leaves behind, said of the tables themselves:
    when the answer is which, and every table of the next state. */
module HandlerLaws {
  import opened Prelude
  import opened Storage
  import opened ServerSpec
  import opened ServerRuns
  import Lockout
  import Challenges
  import TotpCheck

  // --- the terms -------------------------------------------------------------

  /** The account with an identifier hash. */
  ghost predicate Account(s: State, ih: string, u: User) {
    u.id in s.store.users && s.store.users[u.id] == u && u.identifierHash == ih
  }

  ghost predicate NoAccount(s: State, ih: string) {
    forall id :: id in s.store.users ==> s.store.users[id].identifierHash != ih
  }

  lemma FoundIsAccount(s: State, ih: string)
    requires IndexInverse(s.store)
    ensures UserByIdentifierHash(s.store, ih).None? <==> NoAccount(s, ih)
    ensures forall u :: UserByIdentifierHash(s.store, ih) == Some(u) <==> Account(s, ih, u)
  {
    forall u ensures UserByIdentifierHash(s.store, ih) == Some(u) <==> Account(s, ih, u) {
      LookupIsScan(s.store, ih, u);
    }
    if UserByIdentifierHash(s.store, ih).Some? {
      var u := UserByIdentifierHash(s.store, ih).value;
      assert Account(s, ih, u);
    } else {
      forall id | id in s.store.users ensures s.store.users[id].identifierHash != ih {
        assert s.store.users[id].identifierHash in s.store.byIDHash;
      }
    }
  }

  predicate HasPasskey(s: State, userId: string) {
    exists id :: id in s.store.passkeys && s.store.passkeys[id].userId == userId
  }

  lemma PasskeysAre(s: State, userId: string)
    ensures PasskeysOf(s.store, userId) == {} <==> !HasPasskey(s, userId)
  {
    if HasPasskey(s, userId) {
      var id :| id in s.store.passkeys && s.store.passkeys[id].userId == userId;
      assert id in PasskeysOf(s.store, userId);
    }
  }

  /** A new session lasts thirty days. */
  function Fresh(env: Env, now: Time, userId: string, token: string): RefreshToken {
    RefreshToken(env.hashToken(token), userId, now + 2_592_000_000_000_000, now, false)
  }

  function With(env: Env, tokens: TokenTable, now: Time, userId: string, token: string): TokenTable {
    tokens[env.hashToken(token) := Fresh(env, now, userId, token)]
  }

  /** An event without a user is not recorded. */
  function Noted(s: State, now: Time, userId: string, event: Event): seq<AuditEvent> {
    if userId == "" then s.store.audit else s.store.audit + [AuditEvent(userId, event, now)]
  }

  /** Five failures lock for fifteen minutes. */
  function AfterFailure(s: State, now: Time, ih: string): Lockout.Entries {
    var fails := if ih in s.lockout then s.lockout[ih].fails else 0;
    var till := if ih in s.lockout then s.lockout[ih].lockedTill else None;
    s.lockout[ih := if fails + 1 >= 5 then Lockout.LockEntry(0, Some(now + 900_000_000_000))
                    else Lockout.LockEntry(fails + 1, till)]
  }

  predicate LockedOut(s: State, now: Time, ih: string) {
    ih in s.lockout && s.lockout[ih].lockedTill.Some? && now < s.lockout[ih].lockedTill.value
  }

  /** The code fits the stored secret, with the counter of the first instant it matches. */
  ghost predicate CodeFits(env: Env, u: User, code: string, now: Time, counter: nat)
    requires Sound(env)
  {
    && env.unseal(u.totpSecret).Some? && env.totp.decode(env.unseal(u.totpSecret).value).Some?
    && var key := env.totp.decode(env.unseal(u.totpSecret).value).value;
       exists i: nat :: TotpCheck.MatchesFirst(env.totp, key, code, now, i)
                        && counter == TotpCheck.CounterAt(TotpCheck.Instant(now, i))
  }

  lemma CodeFitsIs(env: Env, u: User, code: string, now: Time)
    requires Sound(env)
    ensures CodeValid(env, u, code, now) <==> exists c: nat :: CodeFits(env, u, code, now, c)
    ensures env.unseal(u.totpSecret).Some? ==>
              forall c: nat :: TotpCheck.Verified(env.totp, env.unseal(u.totpSecret).value, code, now) == Some(c)
                <==> CodeFits(env, u, code, now, c)
  {
    if env.unseal(u.totpSecret).Some? {
      var secret := env.unseal(u.totpSecret).value;
      forall c: nat
        ensures TotpCheck.Verified(env.totp, secret, code, now) == Some(c) <==> CodeFits(env, u, code, now, c)
      {
        TotpCheck.VerifiedExactly(env.totp, secret, code, now, c);
      }
      var v := TotpCheck.Verified(env.totp, secret, code, now);
      assert v.Some? ==> CodeFits(env, u, code, now, v.value);
    }
  }

  lemma AcceptedIs(env: Env, s: State, u: User, code: string, now: Time)
    requires Sound(env) && u.id in s.store.users
    ensures forall c: nat :: AcceptedCounter(env, s.store, u, code, now) == Some(c)
              <==> CodeFits(env, u, code, now, c) && c > u.totpLastCounter
  {
    CodeFitsIs(env, u, code, now);
  }

  // --- login -----------------------------------------------------------------

  ghost predicate Enrolled(s: State, u: User) {
    u.totpEnabled || HasPasskey(s, u.id)
  }

  ghost predicate SecondFactor(env: Env, now: Time, r: Request, u: User, counter: nat)
    requires Sound(env) && r.Login?
  {
    u.totpEnabled && r.code != "" && CodeFits(env, u, r.code, now, counter) && counter > u.totpLastCounter
  }

  /** Of an unlocked account whose password is right: which answer. */
  ghost predicate FactorsLaw(env: Env, s: State, now: Time, r: Request, u: User, o: Outcome)
    requires Sound(env) && r.Login?
  {
    && (o == SecondFactorRequired <==> Enrolled(s, u) && r.code == "")
    && (o == Refused <==> Enrolled(s, u) && r.code != "" && forall c: nat :: !SecondFactor(env, now, r, u, c))
    && (o == Failed <==> r.token.None? && (!Enrolled(s, u) || exists c: nat :: SecondFactor(env, now, r, u, c)))
    && (r.token.Some? ==>
          && (o == Session(u.id, r.token.value, PasswordOnly) <==> !Enrolled(s, u))
          && (forall c: nat :: o == Session(u.id, r.token.value, PasswordTotp(c)) <==> SecondFactor(env, now, r, u, c)))
  }

  /** And what it leaves behind. */
  ghost predicate FactorsLeave(env: Env, s: State, now: Time, r: Request, u: User, t: State, o: Outcome)
    requires Sound(env) && r.Login?
  {
    var ih := env.blind(r.identifier);
    match o
    case SecondFactorRequired => t == s
    case Refused =>
      t == s.(lockout := AfterFailure(s, now, ih),
              store := s.store.(audit := Noted(s, now, u.id, EvtLoginFailure(BySecondFactor))))
    case Failed =>
      if !Enrolled(s, u) then t == s
      else exists c: nat :: SecondFactor(env, now, r, u, c)
                            && t == s.(store := s.store.(users := s.store.users[u.id := u.(totpLastCounter := c)]))
    case Session(id, token, cause) =>
      && id == u.id && r.token == Some(token) && (cause.PasswordOnly? || cause.PasswordTotp?)
      && var users := if cause.PasswordOnly? then s.store.users
                      else s.store.users[u.id := u.(totpLastCounter := cause.counter)];
         t == s.(lockout := s.lockout - {ih},
                 store := s.store.(users := users, refresh := With(env, s.store.refresh, now, u.id, token),
                                   audit := Noted(s, now, u.id, EvtLoginSuccess)))
    case _ => false
  }

  lemma SecondFactorIs(env: Env, s: State, now: Time, r: Request, u: User)
    requires Sound(env) && r.Login? && u.id in s.store.users
    ensures var counter := AcceptedCounter(env, s.store, u, r.code, now);
            && (forall c: nat ::
                  SecondFactor(env, now, r, u, c) <==> u.totpEnabled && r.code != "" && counter == Some(c))
            && ((exists c: nat :: SecondFactor(env, now, r, u, c)) <==> u.totpEnabled && r.code != "" && counter.Some?)
  {
    AcceptedIs(env, s, u, r.code, now);
    var counter := AcceptedCounter(env, s.store, u, r.code, now);
    assert u.totpEnabled && r.code != "" && counter.Some? ==> SecondFactor(env, now, r, u, counter.value);
  }

  lemma FactorsAnswer(env: Env, s: State, now: Time, r: Request, u: User)
    requires Sound(env) && r.Login? && Account(s, env.blind(r.identifier), u)
    ensures FactorsLaw(env, s, now, r, u, DecideFactors(env, s, now, env.blind(r.identifier), u, r.code, r.token).1)
  {
    PasskeysAre(s, u.id);
    SecondFactorIs(env, s, now, r, u);
  }

  lemma FactorsChange(env: Env, s: State, now: Time, r: Request, u: User)
    requires Sound(env) && r.Login? && Account(s, env.blind(r.identifier), u)
    ensures var d := After(s, now, DecideFactors(env, s, now, env.blind(r.identifier), u, r.code, r.token));
            FactorsLeave(env, s, now, r, u, d.0, d.1)
  {
    PasskeysAre(s, u.id);
    SecondFactorIs(env, s, now, r, u);
  }

  /** The whole of a login. */
  ghost predicate LoginLaw(env: Env, s: State, now: Time, r: Request, t: State, o: Outcome)
    requires Sound(env) && r.Login?
  {
    var ih := env.blind(r.identifier);
    && (o == Locked <==> LockedOut(s, now, ih))
    && (o == Locked ==> t == s)
    && (!LockedOut(s, now, ih) && NoAccount(s, ih) ==> o == Refused && t == s.(lockout := AfterFailure(s, now, ih)))
    && (forall u :: !LockedOut(s, now, ih) && Account(s, ih, u) ==>
          if env.verify(u.verifier, r.passwordHash)
          then FactorsLaw(env, s, now, r, u, o) && FactorsLeave(env, s, now, r, u, t, o)
          else && o == Refused
               && t == s.(lockout := AfterFailure(s, now, ih),
                          store := s.store.(audit := Noted(s, now, u.id, EvtLoginFailure(ByPassword)))))
  }

  lemma PasswordRight(env: Env, s: State, now: Time, r: Request, u: User)
    requires Sound(env) && r.Login? && IndexInverse(s.store) && Account(s, env.blind(r.identifier), u)
    requires !LockedOut(s, now, env.blind(r.identifier)) && env.verify(u.verifier, r.passwordHash)
    ensures DecideLogin(env, s, now, r) == DecideFactors(env, s, now, env.blind(r.identifier), u, r.code, r.token)
    ensures var d := After(s, now, DecideLogin(env, s, now, r));
            FactorsLaw(env, s, now, r, u, d.1) && FactorsLeave(env, s, now, r, u, d.0, d.1)
  {
    LookupIsScan(s.store, env.blind(r.identifier), u);
    FactorsAnswer(env, s, now, r, u);
    FactorsChange(env, s, now, r, u);
  }

  lemma PasswordWrong(env: Env, s: State, now: Time, r: Request, u: User)
    requires Sound(env) && r.Login? && IndexInverse(s.store) && Account(s, env.blind(r.identifier), u)
    requires !LockedOut(s, now, env.blind(r.identifier)) && !env.verify(u.verifier, r.passwordHash)
    ensures After(s, now, DecideLogin(env, s, now, r))
         == (s.(lockout := AfterFailure(s, now, env.blind(r.identifier)),
                store := s.store.(audit := Noted(s, now, u.id, EvtLoginFailure(ByPassword)))), Refused)
  {
    LookupIsScan(s.store, env.blind(r.identifier), u);
  }

  lemma LoginDecides(env: Env, s: State, now: Time, r: Request)
    requires Sound(env) && r.Login? && IndexInverse(s.store)
    ensures var d := After(s, now, DecideLogin(env, s, now, r)); LoginLaw(env, s, now, r, d.0, d.1)
  {
    var ih := env.blind(r.identifier);
    FoundIsAccount(s, ih);
    var found := UserByIdentifierHash(s.store, ih);
    if found.Some? && !LockedOut(s, now, ih) {
      if env.verify(found.value.verifier, r.passwordHash) {
        PasswordRight(env, s, now, r, found.value);
      } else {
        PasswordWrong(env, s, now, r, found.value);
      }
    }
  }

  lemma LoginAnswers(env: Env, s: State, now: Time, r: Request)
    requires Sound(env) && r.Login? && IndexInverse(s.store)
    ensures LoginLaw(env, s, now, r, Step(env, s, now, r).0, Step(env, s, now, r).1)
  {
    LoginDecides(env, s, now, r);
  }

  // --- registration and deletion ---------------------------------------------

  ghost predicate RegisterLaw(env: Env, s: State, now: Time, r: Request, t: State, o: Outcome)
    requires r.Register?
  {
    var ih := env.blind(r.identifier);
    && o == (if r.identifier == "" || r.passwordHash == "" || r.protectedUserKey == "" then Invalid
             else if r.verifier.None? then Failed
             else if NoAccount(s, ih) then Done else Conflicting)
    && (o != Done ==> t == s)
    && (o == Done ==>
          var kdf := if r.kdf.kind == "" then Kdf("argon2id", 3, 64, 4) else r.kdf;
          var u := User(r.id, ih, kdf, r.verifier.value, r.protectedUserKey, r.publicKey, r.protectedPrivateKey,
                        "", "", "", false, 0, now, now);
          t == s.(store := s.store.(users := s.store.users[r.id := u], byIDHash := s.store.byIDHash[ih := r.id],
                                    audit := Noted(s, now, r.id, EvtRegister))))
  }

  lemma RegisterAnswers(env: Env, s: State, now: Time, r: Request)
    requires Sound(env) && r.Register? && IndexInverse(s.store)
    ensures RegisterLaw(env, s, now, r, Step(env, s, now, r).0, Step(env, s, now, r).1)
  {
    FoundIsAccount(s, env.blind(r.identifier));
  }

  /** No row of any table names the user. */
  ghost predicate Gone(s: Store, userId: string) {
    && userId !in s.users && (forall id :: id in s.users ==> s.users[id].id != userId)
    && (forall ih :: ih in s.byIDHash ==> s.byIDHash[ih] != userId)
    && (forall id :: id in s.ciphers ==> s.ciphers[id].userId != userId)
    && (forall h :: h in s.refresh ==> s.refresh[h].userId != userId)
    && (forall id :: id in s.passkeys ==> s.passkeys[id].userId != userId)
    && (forall id :: id in s.shares ==> s.shares[id].ownerUserId != userId && s.shares[id].recipientUserId != userId)
    && (forall e :: e in s.audit ==> e.userId != userId)
  }

  /** Every row that does not name the user is kept as it was. */
  ghost predicate OthersKept(s: Store, t: Store, userId: string) {
    && (forall id :: id in s.users && id != userId ==> id in t.users && t.users[id] == s.users[id])
    && (forall ih :: ih in s.byIDHash && s.byIDHash[ih] != userId ==>
          ih in t.byIDHash && t.byIDHash[ih] == s.byIDHash[ih])
    && (forall id :: id in s.ciphers && s.ciphers[id].userId != userId ==>
          id in t.ciphers && t.ciphers[id] == s.ciphers[id])
    && (forall h :: h in s.refresh && s.refresh[h].userId != userId ==> h in t.refresh && t.refresh[h] == s.refresh[h])
    && (forall id :: id in s.passkeys && s.passkeys[id].userId != userId ==>
          id in t.passkeys && t.passkeys[id] == s.passkeys[id])
    && (forall id :: id in s.shares && s.shares[id].ownerUserId != userId && s.shares[id].recipientUserId != userId
          ==> id in t.shares && t.shares[id] == s.shares[id])
    && t.audit == Filter((e: AuditEvent) => e.userId != userId, s.audit)
  }

  ghost predicate DeleteLaw(s: State, r: Request, t: State, o: Outcome)
    requires r.DeleteAccount?
  {
    && o == (if r.userId == "" then Refused else if r.userId in s.store.users then Done else Missing)
    && (o != Done ==> t == s)
    && (o == Done ==>
          && Gone(t.store, r.userId) && OthersKept(s.store, t.store, r.userId)
          && t.lockout == s.lockout && t.pending == s.pending)
  }

  lemma ErasedIsGone(s: Store, userId: string)
    requires IndexInverse(s) && userId in s.users
    ensures Gone(DeleteAccountIn(s, userId), userId) && OthersKept(s, DeleteAccountIn(s, userId), userId)
  {
    DeleteAccountExact(s, userId);
  }

  lemma ErasedState(s: State, now: Time, userId: string)
    requires userId in s.store.users
    ensures Apply(s, now, NOTHING.(accounts := Erased(userId), sessions := Revoked(userId)))
         == s.(store := DeleteAccountIn(s.store, userId))
  {
    RevokeTwice(s.store.refresh, userId);
  }

  lemma DeleteDecides(s: State, now: Time, r: Request)
    requires r.DeleteAccount? && IndexInverse(s.store)
    ensures var d := After(s, now, DecideDeleteAccount(s, r)); DeleteLaw(s, r, d.0, d.1)
  {
    if r.userId != "" && r.userId in s.store.users {
      ErasedState(s, now, r.userId);
      ErasedIsGone(s.store, r.userId);
    }
  }

  lemma DeleteAnswers(env: Env, s: State, now: Time, r: Request)
    requires Sound(env) && r.DeleteAccount? && IndexInverse(s.store)
    ensures DeleteLaw(s, r, Step(env, s, now, r).0, Step(env, s, now, r).1)
  {
    DeleteDecides(s, now, r);
  }

  // --- sessions --------------------------------------------------------------

  ghost predicate RefreshLaw(env: Env, s: State, now: Time, r: Request, t: State, o: Outcome)
    requires r.Refresh?
  {
    var h, tokens := env.hashToken(r.refreshToken), s.store.refresh;
    if r.refreshToken == "" then o == Invalid && t == s
    else if h !in tokens then o == Refused && t == s
    else if now > tokens[h].expiresAt then o == Refused && t == s.(store := s.store.(refresh := tokens - {h}))
    else if tokens[h].used then
      && o == Refused
      && t == s.(store := s.store.(refresh := map k | k in tokens && tokens[k].userId != tokens[h].userId :: tokens[k],
                                   audit := Noted(s, now, tokens[h].userId, EvtTokenReuse)))
    else
      var spent := tokens[h := tokens[h].(used := true)];
      if r.token.None? then o == Failed && t == s.(store := s.store.(refresh := spent))
      else && o == Session(tokens[h].userId, r.token.value, Rotation(h))
           && t == s.(store := s.store.(refresh := With(env, spent, now, tokens[h].userId, r.token.value)))
  }

  lemma RefreshAnswers(env: Env, s: State, now: Time, r: Request)
    requires Sound(env) && r.Refresh?
    ensures RefreshLaw(env, s, now, r, Step(env, s, now, r).0, Step(env, s, now, r).1)
  {
  }

  ghost predicate LogoutLaw(s: State, now: Time, r: Request, t: State, o: Outcome)
    requires r.LogoutAll?
  {
    if r.userId == "" then o == Refused && t == s
    else && o == Done
         && t == s.(store := s.store.(
              refresh := map k | k in s.store.refresh && s.store.refresh[k].userId != r.userId :: s.store.refresh[k],
              audit := Noted(s, now, r.userId, EvtSessionRevokeAll)))
  }

  lemma LogoutAnswers(env: Env, s: State, now: Time, r: Request)
    requires Sound(env) && r.LogoutAll?
    ensures LogoutLaw(s, now, r, Step(env, s, now, r).0, Step(env, s, now, r).1)
  {
  }

  // --- one account's row -----------------------------------------------------

  /** The state with the account's row replaced, and the event. */
  function Edited(s: State, now: Time, u: User, event: Event): State
  {
    s.(store := s.store.(users := s.store.users[u.id := u], audit := Noted(s, now, u.id, event)))
  }

  ghost predicate RecoveryEnableLaw(s: State, now: Time, r: Request, t: State, o: Outcome)
    requires r.RecoveryEnable?
  {
    && o == (if r.recoveryKey == "" || r.authHash == "" then Invalid
             else if r.verifier.Some? && r.userId in s.store.users then Done else Failed)
    && (o != Done ==> t == s)
    && (o == Done ==>
          t == Edited(s, now, s.store.users[r.userId].(recoveryProtectedUserKey := r.recoveryKey,
                                                       recoveryVerifier := r.verifier.value),
                      EvtRecoveryEnable))
  }

  lemma RecoveryEnableAnswers(env: Env, s: State, now: Time, r: Request)
    requires Sound(env) && r.RecoveryEnable? && IndexInverse(s.store)
    ensures RecoveryEnableLaw(s, now, r, Step(env, s, now, r).0, Step(env, s, now, r).1)
  {
  }

  ghost predicate RecoveryDisableLaw(s: State, now: Time, r: Request, t: State, o: Outcome)
    requires r.RecoveryDisable?
  {
    if r.userId !in s.store.users then o == Failed && t == s
    else && o == Done
         && t == Edited(s, now, s.store.users[r.userId].(recoveryProtectedUserKey := "", recoveryVerifier := ""),
                        EvtRecoveryDisable)
  }

  lemma RecoveryDisableAnswers(env: Env, s: State, now: Time, r: Request)
    requires Sound(env) && r.RecoveryDisable? && IndexInverse(s.store)
    ensures RecoveryDisableLaw(s, now, r, Step(env, s, now, r).0, Step(env, s, now, r).1)
  {
  }

  /** The account's row with the new password; its other fields are kept. */
  function NewPassword(now: Time, r: Request, u: User): User
    requires r.RecoveryComplete? && r.verifier.Some?
  {
    u.(verifier := r.verifier.value, protectedUserKey := r.protectedUserKey,
       kdf := if r.kdf.kind == "" then u.kdf else r.kdf, updatedAt := now)
  }

  /** An accepted recovery, of an unlocked account. */
  ghost predicate SwapLaw(env: Env, s: State, now: Time, r: Request, u: User, t: State, o: Outcome)
    requires r.RecoveryComplete? && r.verifier.Some?
  {
    var users := s.store.users[u.id := NewPassword(now, r, u)];
    var others := map k | k in s.store.refresh && s.store.refresh[k].userId != u.id :: s.store.refresh[k];
    var audit := Noted(s, now, u.id, EvtRecoveryComplete);
    if r.token.None? then
      o == Failed && t == State(s.store.(users := users, refresh := others, audit := audit), s.lockout, s.pending)
    else
      var tokens := With(env, others, now, u.id, r.token.value);
      && o == Session(u.id, r.token.value, RecoveryCode)
      && t == State(s.store.(users := users, refresh := tokens, audit := audit), s.lockout - {env.blind(r.identifier)},
                    s.pending)
  }

  ghost predicate RecoveryLaw(env: Env, s: State, now: Time, r: Request, t: State, o: Outcome)
    requires r.RecoveryComplete?
  {
    var ih := env.blind(r.identifier);
    if r.authHash == "" || r.passwordHash == "" || r.protectedUserKey == "" then o == Invalid && t == s
    else if LockedOut(s, now, ih) then o == Locked && t == s
    else
      && (NoAccount(s, ih) ==> o == Refused && t == s.(lockout := AfterFailure(s, now, ih)))
      && (forall u :: Account(s, ih, u) ==>
            if u.recoveryVerifier == "" || !env.verify(u.recoveryVerifier, r.authHash)
            then o == Refused && t == s.(lockout := AfterFailure(s, now, ih))
            else if r.verifier.None? then o == Failed && t == s
            else SwapLaw(env, s, now, r, u, t, o))
  }

  lemma RowReplaced(s: State, now: Time, r: Request, u: User)
    requires r.RecoveryComplete? && r.verifier.Some? && u.id in s.store.users && s.store.users[u.id] == u
    ensures ApplyAccounts(s.store, now, PasswordRotated(u.id, r.verifier.value, r.protectedUserKey,
                                                        if r.kdf.kind == "" then u.kdf else r.kdf))
         == s.store.(users := s.store.users[u.id := NewPassword(now, r, u)])
  {
  }

  lemma SwapAnswers(env: Env, s: State, now: Time, r: Request, u: User)
    requires r.RecoveryComplete? && r.verifier.Some? && u.id in s.store.users && s.store.users[u.id] == u
    ensures var kdf := if r.kdf.kind == "" then u.kdf else r.kdf;
            var rotated := PasswordRotated(u.id, r.verifier.value, r.protectedUserKey, kdf);
            var d := After(s, now, DecideSwap(env, now, env.blind(r.identifier), u.id, rotated, r.token));
            SwapLaw(env, s, now, r, u, d.0, d.1)
  {
    RowReplaced(s, now, r, u);
  }

  /** Of an unlocked account, with nothing blank. */
  lemma AcceptedRecovery(env: Env, s: State, now: Time, r: Request, u: User)
    requires r.RecoveryComplete? && Account(s, env.blind(r.identifier), u) && IndexInverse(s.store)
    requires r.authHash != "" && r.passwordHash != "" && r.protectedUserKey != "" && r.verifier.Some?
    requires !LockedOut(s, now, env.blind(r.identifier))
    requires u.recoveryVerifier != "" && env.verify(u.recoveryVerifier, r.authHash)
    ensures var d := After(s, now, DecideRecoveryComplete(env, s, now, r)); SwapLaw(env, s, now, r, u, d.0, d.1)
  {
    FoundIsAccount(s, env.blind(r.identifier));
    SwapAnswers(env, s, now, r, u);
  }

  lemma RecoveryDecides(env: Env, s: State, now: Time, r: Request)
    requires r.RecoveryComplete? && IndexInverse(s.store)
    ensures var d := After(s, now, DecideRecoveryComplete(env, s, now, r)); RecoveryLaw(env, s, now, r, d.0, d.1)
  {
    var ih := env.blind(r.identifier);
    FoundIsAccount(s, ih);
    var found := UserByIdentifierHash(s.store, ih);
    if && r.authHash != "" && r.passwordHash != "" && r.protectedUserKey != "" && r.verifier.Some?
       && !LockedOut(s, now, ih)
       && found.Some? && found.value.recoveryVerifier != "" && env.verify(found.value.recoveryVerifier, r.authHash)
    {
      AcceptedRecovery(env, s, now, r, found.value);
    }
  }

  lemma RecoveryAnswers(env: Env, s: State, now: Time, r: Request)
    requires Sound(env) && r.RecoveryComplete? && IndexInverse(s.store)
    ensures RecoveryLaw(env, s, now, r, Step(env, s, now, r).0, Step(env, s, now, r).1)
  {
    RecoveryDecides(env, s, now, r);
  }

  // --- TOTP enrolment --------------------------------------------------------

  ghost predicate SetupLaw(s: State, r: Request, t: State, o: Outcome)
    requires r.TotpSetup?
  {
    && o == (if r.userId !in s.store.users then Refused
             else if s.store.users[r.userId].totpEnabled then Conflicting
             else if r.sealed.None? then Failed else Done)
    && (o != Done ==> t == s)
    && (o == Done ==>
          t == s.(store := s.store.(users := s.store.users[r.userId :=
                 s.store.users[r.userId].(totpSecret := r.sealed.value, totpEnabled := false, totpLastCounter := 0)])))
  }

  lemma SetupAnswers(env: Env, s: State, now: Time, r: Request)
    requires Sound(env) && r.TotpSetup?
    ensures SetupLaw(s, r, Step(env, s, now, r).0, Step(env, s, now, r).1)
  {
  }

  ghost predicate EnableLaw(env: Env, s: State, now: Time, r: Request, t: State, o: Outcome)
    requires Sound(env) && r.TotpEnable?
  {
    if r.userId !in s.store.users then o == Refused && t == s
    else
      var u := s.store.users[r.userId];
      if u.totpSecret == "" || forall c: nat :: !CodeFits(env, u, r.code, now, c) then o == Invalid && t == s
      else o == Done && t == Edited(s, now, u.(totpEnabled := true, totpLastCounter := 0), EvtTOTPEnable)
  }

  lemma EnableAnswers(env: Env, s: State, now: Time, r: Request)
    requires Sound(env) && r.TotpEnable? && IndexInverse(s.store)
    ensures EnableLaw(env, s, now, r, Step(env, s, now, r).0, Step(env, s, now, r).1)
  {
    if r.userId in s.store.users {
      CodeFitsIs(env, s.store.users[r.userId], r.code, now);
    }
  }

  ghost predicate DisableLaw(env: Env, s: State, now: Time, r: Request, t: State, o: Outcome)
    requires Sound(env) && r.TotpDisable?
  {
    if r.userId !in s.store.users then o == Refused && t == s
    else
      var u := s.store.users[r.userId];
      if !u.totpEnabled then o == Done && t == s
      else if forall c: nat :: !CodeFits(env, u, r.code, now, c) then o == Invalid && t == s
      else && o == Done
           && t == Edited(s, now, u.(totpSecret := "", totpEnabled := false, totpLastCounter := 0), EvtTOTPDisable)
  }

  lemma DisableAnswers(env: Env, s: State, now: Time, r: Request)
    requires Sound(env) && r.TotpDisable? && IndexInverse(s.store)
    ensures DisableLaw(env, s, now, r, Step(env, s, now, r).0, Step(env, s, now, r).1)
  {
    if r.userId in s.store.users {
      CodeFitsIs(env, s.store.users[r.userId], r.code, now);
    }
  }

  // --- passkeys --------------------------------------------------------------

  /** The challenges with a new one, alive for two minutes, and without the expired. */
  function Challenged(s: State, now: Time, handle: string, userId: string, data: string): Challenges.Pending {
    (map k | k in s.pending && now <= s.pending[k].expires :: s.pending[k])
      [handle := Challenges.Challenge(data, userId, now + 120_000_000_000)]
  }

  /** A live challenge of the user. */
  predicate Alive(s: State, now: Time, handle: string, userId: string) {
    handle in s.pending && now <= s.pending[handle].expires && s.pending[handle].userId == userId
  }

  ghost predicate EnrolBeginLaw(env: Env, s: State, now: Time, r: Request, t: State, o: Outcome)
    requires r.PasskeyRegisterBegin?
  {
    if !env.passkeysConfigured then o == Unavailable && t == s
    else if r.session.None? then o == Failed && t == s
    else o == Begun(r.handle) && t == s.(pending := Challenged(s, now, r.handle, r.userId, r.session.value))
  }

  lemma EnrolBeginAnswers(env: Env, s: State, now: Time, r: Request)
    requires Sound(env) && r.PasskeyRegisterBegin?
    ensures EnrolBeginLaw(env, s, now, r, Step(env, s, now, r).0, Step(env, s, now, r).1)
  {
  }

  predicate CredentialTaken(s: State, credentialId: string) {
    exists id :: id in s.store.passkeys && s.store.passkeys[id].credentialId == credentialId
  }

  ghost predicate EnrolFinishLaw(env: Env, s: State, now: Time, r: Request, t: State, o: Outcome)
    requires r.PasskeyRegisterFinish?
  {
    if !env.passkeysConfigured then o == Unavailable && t == s
    else
      var left := s.(pending := s.pending - {r.handle});
      if !Alive(s, now, r.handle, r.userId) then o == Invalid && t == left
      else
        var cred := env.attest(s.pending[r.handle].data, r.credential);
        if cred.None? then o == Invalid && t == left
        else if CredentialTaken(s, cred.value.0) then o == Conflicting && t == left
        else
          var name := TotpCheck.TrimSpace(r.name);
          var row := Passkey(r.userId, cred.value.0, cred.value.1, if name == "" then "Passkey" else name, now, now);
          && o == Done
          && t == left.(store := s.store.(passkeys := s.store.passkeys[r.id := row],
                                          audit := Noted(s, now, r.userId, EvtPasskeyEnroll)))
  }

  lemma EnrolFinishAnswers(env: Env, s: State, now: Time, r: Request)
    requires Sound(env) && r.PasskeyRegisterFinish?
    ensures EnrolFinishLaw(env, s, now, r, Step(env, s, now, r).0, Step(env, s, now, r).1)
  {
  }

  ghost predicate RemoveLaw(s: State, now: Time, r: Request, t: State, o: Outcome)
    requires r.PasskeyDelete?
  {
    if r.id !in s.store.passkeys || s.store.passkeys[r.id].userId != r.userId then o == Missing && t == s
    else && o == Done
         && t == s.(store := s.store.(passkeys := s.store.passkeys - {r.id},
                                      audit := Noted(s, now, r.userId, EvtPasskeyRemove)))
  }

  lemma RemoveAnswers(env: Env, s: State, now: Time, r: Request)
    requires Sound(env) && r.PasskeyDelete?
    ensures RemoveLaw(s, now, r, Step(env, s, now, r).0, Step(env, s, now, r).1)
  {
  }

  ghost predicate AssertBeginLaw(env: Env, s: State, now: Time, r: Request, t: State, o: Outcome)
    requires r.PasskeyLoginBegin?
  {
    var ih := env.blind(r.identifier);
    if !env.passkeysConfigured then o == Unavailable && t == s
    else if LockedOut(s, now, ih) then o == Locked && t == s
    else
      && (NoAccount(s, ih) ==> o == Refused && t == s.(lockout := AfterFailure(s, now, ih)))
      && (forall u :: Account(s, ih, u) ==>
            if !env.verify(u.verifier, r.passwordHash) then o == Refused && t == s.(lockout := AfterFailure(s, now, ih))
            else if !HasPasskey(s, u.id) then o == Invalid && t == s
            else if r.session.None? then o == Failed && t == s
            else o == Begun(r.handle) && t == s.(pending := Challenged(s, now, r.handle, u.id, r.session.value)))
  }

  lemma AssertBeginDecides(env: Env, s: State, now: Time, r: Request)
    requires r.PasskeyLoginBegin? && IndexInverse(s.store)
    ensures var d := After(s, now, DecidePasskeyLoginBegin(env, s, now, r)); AssertBeginLaw(env, s, now, r, d.0, d.1)
  {
    var ih := env.blind(r.identifier);
    FoundIsAccount(s, ih);
    var found := UserByIdentifierHash(s.store, ih);
    if found.Some? {
      PasskeysAre(s, found.value.id);
    }
  }

  lemma AssertBeginAnswers(env: Env, s: State, now: Time, r: Request)
    requires Sound(env) && r.PasskeyLoginBegin? && IndexInverse(s.store)
    ensures AssertBeginLaw(env, s, now, r, Step(env, s, now, r).0, Step(env, s, now, r).1)
  {
    AssertBeginDecides(env, s, now, r);
  }

  /** The user's passkeys. */
  function Rows(s: State, userId: string): PasskeyTable {
    map id | id in s.store.passkeys && s.store.passkeys[id].userId == userId :: s.store.passkeys[id]
  }

  /** The rows of a credential with its new count. */
  function Recounted(s: State, now: Time, credentialId: string, count: nat): PasskeyTable {
    map id | id in s.store.passkeys ::
      if s.store.passkeys[id].credentialId == credentialId
      then s.store.passkeys[id].(signCount := count, updatedAt := now) else s.store.passkeys[id]
  }

  /** Of an unlocked account whose password is right. */
  ghost predicate AssertionLaw(env: Env, s: State, now: Time, r: Request, u: User, t: State, o: Outcome)
    requires r.PasskeyLoginFinish?
  {
    var ih := env.blind(r.identifier);
    var left := s.(pending := s.pending - {r.handle});
    if !Alive(s, now, r.handle, u.id) || !env.parseAssertion(r.credential) then o == Invalid && t == left
    else
      var cred := env.validate(Rows(s, u.id), s.pending[r.handle].data, r.credential);
      if cred.None? then o == Refused && t == left.(lockout := AfterFailure(s, now, ih))
      else
        var passkeys := Recounted(s, now, cred.value.0, cred.value.1);
        if r.token.None? then o == Failed && t == left.(store := s.store.(passkeys := passkeys))
        else && o == Session(u.id, r.token.value, Assertion(r.handle))
             && t == left.(lockout := s.lockout - {ih},
                           store := s.store.(passkeys := passkeys,
                                             refresh := With(env, s.store.refresh, now, u.id, r.token.value)))
  }

  lemma AssertionDecides(env: Env, s: State, now: Time, r: Request, u: User)
    requires r.PasskeyLoginFinish?
    ensures var ih := env.blind(r.identifier);
            var d := After(s, now, DecideAssertion(env, s, now, ih, u, r.handle, r.credential, r.token));
            AssertionLaw(env, s, now, r, u, d.0, d.1)
  {
    assert PasskeyRows(s.store, u.id) == Rows(s, u.id);
  }

  ghost predicate AssertFinishLaw(env: Env, s: State, now: Time, r: Request, t: State, o: Outcome)
    requires r.PasskeyLoginFinish?
  {
    var ih := env.blind(r.identifier);
    if !env.passkeysConfigured then o == Unavailable && t == s
    else if LockedOut(s, now, ih) then o == Locked && t == s
    else
      && (NoAccount(s, ih) ==> o == Refused && t == s.(lockout := AfterFailure(s, now, ih)))
      && (forall u :: Account(s, ih, u) ==>
            if !env.verify(u.verifier, r.passwordHash) then o == Refused && t == s.(lockout := AfterFailure(s, now, ih))
            else AssertionLaw(env, s, now, r, u, t, o))
  }

  lemma AssertFinishDecides(env: Env, s: State, now: Time, r: Request)
    requires r.PasskeyLoginFinish? && IndexInverse(s.store)
    ensures var d := After(s, now, DecidePasskeyLoginFinish(env, s, now, r)); AssertFinishLaw(env, s, now, r, d.0, d.1)
  {
    var ih := env.blind(r.identifier);
    FoundIsAccount(s, ih);
    var found := UserByIdentifierHash(s.store, ih);
    if found.Some? {
      AssertionDecides(env, s, now, r, found.value);
    }
  }

  lemma AssertFinishAnswers(env: Env, s: State, now: Time, r: Request)
    requires Sound(env) && r.PasskeyLoginFinish? && IndexInverse(s.store)
    ensures AssertFinishLaw(env, s, now, r, Step(env, s, now, r).0, Step(env, s, now, r).1)
  {
    AssertFinishDecides(env, s, now, r);
  }
}
