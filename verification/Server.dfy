/** The request handlers of backend/internal/server over the in-memory store. Each is
    one atomic step with one reading of the clock, and does to the server exactly
    what `ServerSpec` says. */
module Server {
  import opened Prelude
  import opened Storage
  import opened ServerSpec
  import opened ServerRuns
  import Lockout
  import Challenges
  import TotpCheck

  lemma CounterThenSession(env: Env, s: State, now: Time, ih: string, u: User, token: Option<string>, cause: Cause)
    requires cause.PasswordTotp?
    ensures var counter := CounterSet(u.id, cause.counter);
            After(s.(store := ApplyAccounts(s.store, now, counter)), now,
                DecideSession(env, now, ih, u, token, cause, KeepAccounts))
            == After(s, now, DecideSession(env, now, ih, u, token, cause, counter))
  {
  }

  lemma RotationThenSwap(env: Env, s: State, now: Time, ih: string, userId: string, rotation: AccountChange,
      token: Option<string>)
    ensures After(s.(store := ApplyAccounts(s.store, now, rotation)), now,
        DecideSwap(env, now, ih, userId, KeepAccounts, token))
            == After(s, now, DecideSwap(env, now, ih, userId, rotation, token))
  {
  }

  lemma RowsOf(s: Store, userId: string)
    ensures PasskeyRows(s, userId) == map[] <==> PasskeysOf(s, userId) == {}
  {
    assert PasskeyRows(s, userId).Keys == PasskeysOf(s, userId);
  }

  class Server {
    const env: Env
    const store: Memory
    const lockout: Lockout.LockoutTracker
    const waPending: Challenges.ChallengeStore

    ghost predicate Valid() {
      && Sound(env)
      && lockout.maxFails == MAX_FAILS && lockout.lockFor == LOCK_FOR
      && waPending.ttl == CHALLENGE_TTL
    }

    ghost function Snapshot(): State
      reads store, lockout, waPending
    {
      State(store.State(), lockout.entries, waPending.m)
    }

    constructor (env: Env)
      requires Sound(env)
      ensures Valid() && this.env == env
      ensures Snapshot() == INITIAL
      ensures fresh(store) && fresh(lockout) && fresh(waPending)
    {
      this.env := env;
      this.store := new Memory();
      this.lockout := new Lockout.LockoutTracker(MAX_FAILS, LOCK_FOR);
      this.waPending := new Challenges.ChallengeStore(CHALLENGE_TTL);
    }

    method Audit(now: Time, userId: string, event: Event)
      modifies store
      ensures store.State() == Log(old(store.State()), now, userId, event)
    {
      if userId == "" { return; }
      store.AppendAuditEvent(AuditEvent(userId, event, now));
    }

    /** `token` is the refresh token drawn, None when the random source failed. */
    method IssueTokens(now: Time, userId: string, token: Option<string>) returns (ok: bool)
      modifies store
      ensures ok == token.Some?
      ensures store.State() == if ok then AddToken(old(store.State()), NewToken(env, now, userId, token.value))
          else old(store.State())
    {
      if token.None? { return false; }
      store.CreateRefreshToken(RefreshToken(env.hashToken(token.value), userId, now + REFRESH_TTL, now, false));
      return true;
    }

    method HandleRegister(now: Time, identifier: string, passwordHash: string, protectedUserKey: string,
                          publicKey: string, protectedPrivateKey: string, kdf: Kdf, id: string,
                          verifier: Option<string>)
      returns (o: Outcome)
      modifies store
      ensures (Snapshot(), o) == After(old(Snapshot()), now,
                DecideRegister(env, old(Snapshot()), now,
                  Register(identifier, passwordHash, protectedUserKey, publicKey, protectedPrivateKey, kdf, id,
                      verifier)))
    {
      if identifier == "" || passwordHash == "" || protectedUserKey == "" { return Invalid; }
      var params := kdf;
      if params.kind == "" {
        params := DEFAULT_KDF;
      }
      if verifier.None? { return Failed; }
      var u := User(id, env.blind(identifier), params, verifier.value, protectedUserKey, publicKey, protectedPrivateKey,
                    "", "", "", false, 0, now, now);
      var err := store.CreateUser(u);
      if err.Some? { return Conflicting; }
      Audit(now, u.id, EvtRegister);
      return Done;
    }

    /** `verifyLoginTOTP`: the counter it consumed, if it accepts the code. */
    method VerifyLoginTOTP(now: Time, u: User, code: string) returns (counter: Option<nat>)
      requires Valid()
      modifies store
      ensures counter == AcceptedCounter(env, old(store.State()), u, code, now)
      ensures store.State() == if counter.Some? then SetTotpCounter(old(store.State()), u.id, counter.value)
          else old(store.State())
    {
      var secret := env.unseal(u.totpSecret);
      if secret.None? { return None; }
      counter := TotpCheck.VerifyTOTPAt(env.totp, secret.value, code, now);
      if counter.None? || counter.value <= u.totpLastCounter { return None; }
      var err := store.SetUserTOTPCounter(u.id, counter.value);
      if err.Some? { return None; }
    }

    /** The part of `handleLogin` after the password was accepted. */
    method CheckFactors(now: Time, ih: string, u: User, code: string, token: Option<string>) returns (o: Outcome)
      requires Valid()
      modifies store, lockout
      ensures (Snapshot(), o)
          == After(old(Snapshot()), now, DecideFactors(env, old(Snapshot()), now, ih, u, code, token))
    {
      var n := store.CountWebAuthnCredentials(u.id);
      if !u.totpEnabled && n == 0 {
        o := FinishLogin(now, ih, u, token, PasswordOnly);
        return;
      }
      if code == "" { return SecondFactorRequired; }
      var counter: Option<nat> := None;
      if u.totpEnabled {
        counter := VerifyLoginTOTP(now, u, code);
      }
      if counter.None? {
        lockout.RecordFailure(now, ih);
        Audit(now, u.id, EvtLoginFailure(BySecondFactor));
        return Refused;
      }
      o := FinishLogin(now, ih, u, token, PasswordTotp(counter.value));
      CounterThenSession(env, old(Snapshot()), now, ih, u, token, PasswordTotp(counter.value));
    }

    /** The end of a login whose factors were accepted. */
    method FinishLogin(now: Time, ih: string, u: User, token: Option<string>, cause: Cause) returns (o: Outcome)
      modifies store, lockout
      ensures (Snapshot(), o) == After(old(Snapshot()), now, DecideSession(env, now, ih, u, token, cause, KeepAccounts))
    {
      var ok := IssueTokens(now, u.id, token);
      if !ok { return Failed; }
      lockout.Reset(ih);
      Audit(now, u.id, EvtLoginSuccess);
      return Session(u.id, token.value, cause);
    }

    method HandleLogin(now: Time, identifier: string, passwordHash: string, code: string, token: Option<string>)
      returns (o: Outcome)
      requires Valid()
      modifies store, lockout
      ensures (Snapshot(), o) == After(old(Snapshot()), now,
                DecideLogin(env, old(Snapshot()), now, Login(identifier, passwordHash, code, token)))
    {
      var ih := env.blind(identifier);
      var locked := lockout.Locked(now, ih);
      if locked { return ServerSpec.Locked; }
      var found := store.GetUserByIdentifierHash(ih);
      if found.Some? {
        var u := found.value;
        if env.verify(u.verifier, passwordHash) {
          o := CheckFactors(now, ih, u, code, token);
          return;
        }
      }
      lockout.RecordFailure(now, ih);
      if found.Some? {
        Audit(now, found.value.id, EvtLoginFailure(ByPassword));
      }
      return Refused;
    }

    method HandleRefresh(now: Time, refreshToken: string, token: Option<string>) returns (o: Outcome)
      modifies store
      ensures (Snapshot(), o) == After(old(Snapshot()), now,
                DecideRefresh(env, old(Snapshot()), now, Refresh(refreshToken, token)))
    {
      if refreshToken == "" { return Invalid; }
      var h := env.hashToken(refreshToken);
      var rt := store.GetRefreshToken(h);
      if rt.None? || now > rt.value.expiresAt {
        if rt.Some? {
          store.DeleteRefreshToken(h);
        }
        return Refused;
      }
      if rt.value.used {
        store.DeleteRefreshTokensForUser(rt.value.userId);
        Audit(now, rt.value.userId, EvtTokenReuse);
        return Refused;
      }
      store.MarkRefreshTokenUsed(h);
      var ok := IssueTokens(now, rt.value.userId, token);
      if !ok { return Failed; }
      return Session(rt.value.userId, token.value, Rotation(h));
    }

    method HandleDeleteAccount(now: Time, userId: string) returns (o: Outcome)
      modifies store
      ensures (Snapshot(), o)
          == After(old(Snapshot()), now, DecideDeleteAccount(old(Snapshot()), DeleteAccount(userId)))
    {
      if userId == "" { return Refused; }
      RevokeTwice(store.refresh, userId);
      var err := store.DeleteAccount(userId);
      return if err.Some? then Missing else Done;
    }

    /** None is a 401. */
    method HandleListSessions(now: Time, userId: string) returns (sessions: Option<seq<(string, RefreshToken)>>)
      ensures sessions.None? <==> userId == ""
      ensures sessions.Some? ==> && multiset(sessions.value) == multiset(LiveTokens(store.State(), now, userId))
                                 && Ordered(Newest, sessions.value)
    {
      if userId == "" { return None; }
      var list := store.ListRefreshTokensForUser(now, userId);
      return Some(list);
    }

    method HandleLogoutAll(now: Time, userId: string) returns (o: Outcome)
      modifies store
      ensures (Snapshot(), o) == After(old(Snapshot()), now, DecideLogoutAll(LogoutAll(userId)))
    {
      if userId == "" { return Refused; }
      store.DeleteRefreshTokensForUser(userId);
      Audit(now, userId, EvtSessionRevokeAll);
      return Done;
    }

    method HandleRecoveryEnable(now: Time, userId: string, recoveryKey: string, authHash: string,
        verifier: Option<string>)
      returns (o: Outcome)
      modifies store
      ensures (Snapshot(), o) == After(old(Snapshot()), now,
                DecideRecoveryEnable(old(Snapshot()), RecoveryEnable(userId, recoveryKey, authHash, verifier)))
    {
      if recoveryKey == "" || authHash == "" { return Invalid; }
      if verifier.None? { return Failed; }
      var err := store.SetUserRecovery(userId, recoveryKey, verifier.value);
      if err.Some? { return Failed; }
      Audit(now, userId, EvtRecoveryEnable);
      return Done;
    }

    method HandleRecoveryDisable(now: Time, userId: string) returns (o: Outcome)
      modifies store
      ensures (Snapshot(), o)
          == After(old(Snapshot()), now, DecideRecoveryDisable(old(Snapshot()), RecoveryDisable(userId)))
    {
      var err := store.SetUserRecovery(userId, "", "");
      if err.Some? { return Failed; }
      Audit(now, userId, EvtRecoveryDisable);
      return Done;
    }

    /** The end of a recovery, once the password is rotated. */
    method FinishRecovery(now: Time, ih: string, userId: string, token: Option<string>) returns (o: Outcome)
      modifies store, lockout
      ensures (Snapshot(), o) == After(old(Snapshot()), now, DecideSwap(env, now, ih, userId, KeepAccounts, token))
    {
      store.DeleteRefreshTokensForUser(userId);
      Audit(now, userId, EvtRecoveryComplete);
      var ok := IssueTokens(now, userId, token);
      if !ok { return Failed; }
      lockout.Reset(ih);
      return Session(userId, token.value, RecoveryCode);
    }

    method HandleRecoveryComplete(now: Time, identifier: string, authHash: string, passwordHash: string,
                                  protectedUserKey: string, kdf: Kdf, verifier: Option<string>, token: Option<string>)
      returns (o: Outcome)
      requires Valid()
      modifies store, lockout
      ensures (Snapshot(), o) == After(old(Snapshot()), now,
                DecideRecoveryComplete(env, old(Snapshot()), now,
                  RecoveryComplete(identifier, authHash, passwordHash, protectedUserKey, kdf, verifier, token)))
    {
      if authHash == "" || passwordHash == "" || protectedUserKey == "" { return Invalid; }
      var ih := env.blind(identifier);
      var locked := lockout.Locked(now, ih);
      if locked { return ServerSpec.Locked; }
      var found := store.GetUserByIdentifierHash(ih);
      if found.Some? && found.value.recoveryVerifier != "" {
        var u := found.value;
        if env.verify(u.recoveryVerifier, authHash) {
          var params := kdf;
          if params.kind == "" {
            params := u.kdf;
          }
          if verifier.None? { return Failed; }
          ghost var before := Snapshot();
          var err := store.RotateMasterPassword(now, u.id, verifier.value, protectedUserKey, params);
          if err.Some? { return Failed; }
          o := FinishRecovery(now, ih, u.id, token);
          RotationThenSwap(env, before, now, ih, u.id,
              PasswordRotated(u.id, verifier.value, protectedUserKey, params), token);
          return;
        }
      }
      lockout.RecordFailure(now, ih);
      return Refused;
    }

    method HandleTOTPSetup(now: Time, userId: string, sealed: Option<string>) returns (o: Outcome)
      modifies store
      ensures (Snapshot(), o)
          == After(old(Snapshot()), now, DecideTotpSetup(old(Snapshot()), TotpSetup(userId, sealed)))
    {
      var u := store.GetUserByID(userId);
      if u.None? { return Refused; }
      if u.value.totpEnabled { return Conflicting; }
      if sealed.None? { return Failed; }
      var err := store.SetUserTOTP(userId, sealed.value, false);
      return if err.Some? then Failed else Done;
    }

    method CheckCode(now: Time, u: User, code: string) returns (ok: bool)
      requires Valid()
      ensures ok == CodeValid(env, u, code, now)
    {
      var secret := env.unseal(u.totpSecret);
      if secret.None? { return false; }
      var counter := TotpCheck.VerifyTOTPAt(env.totp, secret.value, code, now);
      return counter.Some?;
    }

    method HandleTOTPEnable(now: Time, userId: string, code: string) returns (o: Outcome)
      requires Valid()
      modifies store
      ensures (Snapshot(), o) == After(old(Snapshot()), now,
                DecideTotpEnable(env, old(Snapshot()), now, TotpEnable(userId, code)))
    {
      var u := store.GetUserByID(userId);
      if u.None? { return Refused; }
      if u.value.totpSecret == "" { return Invalid; }
      var ok := CheckCode(now, u.value, code);
      if !ok { return Invalid; }
      var err := store.SetUserTOTP(userId, u.value.totpSecret, true);
      if err.Some? { return Failed; }
      Audit(now, userId, EvtTOTPEnable);
      return Done;
    }

    method HandleTOTPDisable(now: Time, userId: string, code: string) returns (o: Outcome)
      requires Valid()
      modifies store
      ensures (Snapshot(), o) == After(old(Snapshot()), now,
                DecideTotpDisable(env, old(Snapshot()), now, TotpDisable(userId, code)))
    {
      var u := store.GetUserByID(userId);
      if u.None? { return Refused; }
      if !u.value.totpEnabled { return Done; }
      var ok := CheckCode(now, u.value, code);
      if !ok { return Invalid; }
      var err := store.SetUserTOTP(userId, "", false);
      if err.Some? { return Failed; }
      Audit(now, userId, EvtTOTPDisable);
      return Done;
    }

    /** `handle` is the random handle drawn; `session` what the library returned. */
    method HandleWebAuthnRegisterBegin(now: Time, userId: string, handle: string, session: Option<string>)
      returns (o: Outcome)
      requires Valid()
      modifies waPending
      ensures (Snapshot(), o) == After(old(Snapshot()), now,
                DecidePasskeyRegisterBegin(env, PasskeyRegisterBegin(userId, handle, session)))
    {
      if !env.passkeysConfigured { return Unavailable; }
      if session.None? { return Failed; }
      waPending.PutEntry(now, handle, userId, session.value);
      return Begun(handle);
    }

    method HandleWebAuthnRegisterFinish(now: Time, userId: string, handle: string, name: string,
        credential: string, id: string)
      returns (o: Outcome)
      modifies store, waPending
      ensures (Snapshot(), o) == After(old(Snapshot()), now,
                DecidePasskeyRegisterFinish(env, old(Snapshot()), now,
                  PasskeyRegisterFinish(userId, handle, name, credential, id)))
    {
      if !env.passkeysConfigured { return Unavailable; }
      var entry := waPending.TakeEntry(now, handle);
      if entry.None? || entry.value.userId != userId { return Invalid; }
      var cred := env.attest(entry.value.data, credential);
      if cred.None? { return Invalid; }
      var title := TotpCheck.TrimSpace(name);
      if title == "" {
        title := "Passkey";
      }
      var err := store.CreateWebAuthnCredential(id, Passkey(userId, cred.value.0, cred.value.1, title, now, now));
      if err.Some? { return Conflicting; }
      Audit(now, userId, EvtPasskeyEnroll);
      return Done;
    }

    /** `webAuthnUserFor`: the user's passkeys as the library takes them. */
    method WebAuthnUserFor(userId: string) returns (rows: PasskeyTable)
      ensures rows == PasskeyRows(store.State(), userId)
    {
      var creds := store.ListWebAuthnCredentials(userId);
      ghost var all := PasskeyRows(store.State(), userId);
      SameMembers(creds, PasskeyList(store.State(), userId));
      rows := map[];
      for i := 0 to |creds|
        invariant forall j :: 0 <= j < i ==> creds[j].0 in rows
        invariant forall id :: id in rows ==> id in all && rows[id] == all[id]
      {
        assert creds[i] in creds;
        rows := rows[creds[i].0 := creds[i].1];
      }
      forall id | id in all ensures id in rows {
        assert (id, all[id]) in PasskeyList(store.State(), userId);
      }
    }

    method HandleWebAuthnDelete(now: Time, userId: string, id: string) returns (o: Outcome)
      modifies store
      ensures (Snapshot(), o)
          == After(old(Snapshot()), now, DecidePasskeyDelete(old(Snapshot()), PasskeyDelete(userId, id)))
    {
      var err := store.DeleteWebAuthnCredential(userId, id);
      if err.Some? { return Missing; }
      Audit(now, userId, EvtPasskeyRemove);
      return Done;
    }

    method HandleWebAuthnLoginBegin(now: Time, identifier: string, passwordHash: string, handle: string,
        session: Option<string>)
      returns (o: Outcome)
      requires Valid()
      modifies lockout, waPending
      ensures (Snapshot(), o) == After(old(Snapshot()), now,
                DecidePasskeyLoginBegin(env, old(Snapshot()), now,
                  PasskeyLoginBegin(identifier, passwordHash, handle, session)))
    {
      if !env.passkeysConfigured { return Unavailable; }
      var ih := env.blind(identifier);
      var locked := lockout.Locked(now, ih);
      if locked { return ServerSpec.Locked; }
      var found := store.GetUserByIdentifierHash(ih);
      if found.Some? && env.verify(found.value.verifier, passwordHash) {
        var rows := WebAuthnUserFor(found.value.id);
        RowsOf(store.State(), found.value.id);
        if rows == map[] { return Invalid; }
        if session.None? { return Failed; }
        waPending.PutEntry(now, handle, found.value.id, session.value);
        return Begun(handle);
      }
      lockout.RecordFailure(now, ih);
      return Refused;
    }

    method HandleWebAuthnLoginFinish(now: Time, identifier: string, passwordHash: string, handle: string,
                                     credential: string, token: Option<string>)
      returns (o: Outcome)
      requires Valid() && UniqueCredentials(store.State())
      modifies store, lockout, waPending
      ensures (Snapshot(), o) == After(old(Snapshot()), now,
                DecidePasskeyLoginFinish(env, old(Snapshot()), now,
                  PasskeyLoginFinish(identifier, passwordHash, handle, credential, token)))
    {
      if !env.passkeysConfigured { return Unavailable; }
      var ih := env.blind(identifier);
      var locked := lockout.Locked(now, ih);
      if locked { return ServerSpec.Locked; }
      var found := store.GetUserByIdentifierHash(ih);
      if found.None? || !env.verify(found.value.verifier, passwordHash) {
        lockout.RecordFailure(now, ih);
        return Refused;
      }
      o := CheckAssertion(now, ih, found.value, handle, credential, token);
    }

    /** The part of `handleWebAuthnLoginFinish` after the password was accepted. */
    method CheckAssertion(now: Time, ih: string, u: User, handle: string, credential: string, token: Option<string>)
      returns (o: Outcome)
      requires Valid() && UniqueCredentials(store.State())
      modifies store, lockout, waPending
      ensures (Snapshot(), o) == After(old(Snapshot()), now,
                DecideAssertion(env, old(Snapshot()), now, ih, u, handle, credential, token))
    {
      var entry := waPending.TakeEntry(now, handle);
      if entry.None? || entry.value.userId != u.id { return Invalid; }
      if !env.parseAssertion(credential) { return Invalid; }
      var rows := WebAuthnUserFor(u.id);
      var cred := env.validate(rows, entry.value.data, credential);
      if cred.None? {
        lockout.RecordFailure(now, ih);
        return Refused;
      }
      UpdateSignCount(now, cred.value.0, cred.value.1);
      var ok := IssueTokens(now, u.id, token);
      if !ok { return Failed; }
      lockout.Reset(ih);
      return Session(u.id, token.value, Assertion(handle));
    }

    /** A count that cannot be stored does not fail the login. */
    method UpdateSignCount(now: Time, credentialId: string, count: nat)
      requires UniqueCredentials(store.State())
      modifies store
      ensures store.State() == SetSignCount(old(store.State()), now, credentialId, count)
    {
      ghost var before := store.State();
      var err := store.UpdateWebAuthnSignCount(now, credentialId, count);
      if err.Some? {
        SignCountAbsent(before, now, credentialId, count);
      } else {
        ghost var id :| SignCountAt(before, store.State(), id, now, credentialId, count);
        SignCountDetermined(before, store.State(), id, now, credentialId, count);
      }
    }

    /** One step of a run. */
    method Handle(now: Time, r: Request) returns (o: Outcome)
      requires Valid() && UniqueCredentials(store.State())
      modifies store, lockout, waPending
      ensures (Snapshot(), o) == Step(env, old(Snapshot()), now, r)
      ensures UniqueCredentials(store.State())
    {
      ghost var before := Snapshot();
      o := Route(now, r);
      StepKeepsTables(env, before, now, r);
    }

    predicate AboutFactors(r: Request) {
      !r.Register? && !r.Login? && !r.Refresh? && !r.DeleteAccount? && !r.LogoutAll?
      && !r.RecoveryEnable? && !r.RecoveryDisable? && !r.RecoveryComplete?
    }

    /** One step of a run whose states and answers are known. */
    method ServeOne(run: Trace, k: nat, ghost states: seq<State>, ghost answers: seq<Outcome>) returns (o: Outcome)
      requires Valid() && UniqueCredentials(store.State()) && k < |run| && StepsTo(env, run, states, answers, k)
      requires Snapshot() == states[k]
      modifies store, lockout, waPending
      ensures UniqueCredentials(store.State())
      ensures Snapshot() == states[k + 1] && o == answers[k]
    {
      o := Handle(run[k].now, run[k].r);
    }

    method ServeAlong(run: Trace, ghost states: seq<State>, ghost answers: seq<Outcome>)
        returns (outcomes: seq<Outcome>)
      requires Valid() && Snapshot() == INITIAL && |states| == |run| + 1 && |answers| == |run| && states[0] == INITIAL
      requires forall k: nat :: k < |run| ==> StepsTo(env, run, states, answers, k)
      modifies store, lockout, waPending
      ensures Snapshot() == states[|run|] && outcomes == answers
    {
      outcomes := [];
      for i := 0 to |run|
        invariant UniqueCredentials(store.State()) && Snapshot() == states[i]
        invariant outcomes == answers[..i]
      {
        var o := ServeOne(run, i, states, answers);
        outcomes := outcomes + [o];
      }
    }

    /** A whole run, from the start: its states and answers are those the run theorems
        speak of. */
    method Serve(run: Trace) returns (outcomes: seq<Outcome>)
      requires Valid() && Snapshot() == INITIAL
      modifies store, lockout, waPending
      ensures Snapshot() == StateAt(env, run, |run|)
      ensures outcomes == OutcomesOf(env, run)
    {
      ghost var states := seq(|run| + 1, k requires 0 <= k <= |run| => StateAt(env, run, k));
      forall k: nat | k < |run| ensures StepsTo(env, run, states, OutcomesOf(env, run), k) {
        StepAt(env, run, k);
      }
      outcomes := ServeAlong(run, states, OutcomesOf(env, run));
    }

    /** The routes. */
    method Route(now: Time, r: Request) returns (o: Outcome)
      requires Valid() && UniqueCredentials(store.State())
      modifies store, lockout, waPending
      ensures (Snapshot(), o) == Step(env, old(Snapshot()), now, r)
    {
      match r
      case Register(identifier, hash, key, publicKey, privateKey, kdf, id, verifier) =>
        o := HandleRegister(now, identifier, hash, key, publicKey, privateKey, kdf, id, verifier);
      case Login(identifier, hash, code, token) => o := HandleLogin(now, identifier, hash, code, token);
      case Refresh(refreshToken, token) => o := HandleRefresh(now, refreshToken, token);
      case DeleteAccount(userId) => o := HandleDeleteAccount(now, userId);
      case LogoutAll(userId) => o := HandleLogoutAll(now, userId);
      case RecoveryEnable(userId, key, hash, verifier) => o := HandleRecoveryEnable(now, userId, key, hash, verifier);
      case RecoveryDisable(userId) => o := HandleRecoveryDisable(now, userId);
      case RecoveryComplete(identifier, authHash, hash, key, kdf, verifier, token) =>
        o := HandleRecoveryComplete(now, identifier, authHash, hash, key, kdf, verifier, token);
      case _ => o := RouteFactors(now, r);
    }

    /** The routes of the second factors. */
    method RouteFactors(now: Time, r: Request) returns (o: Outcome)
      requires Valid() && UniqueCredentials(store.State()) && AboutFactors(r)
      modifies store, lockout, waPending
      ensures (Snapshot(), o) == Step(env, old(Snapshot()), now, r)
    {
      match r
      case TotpSetup(userId, sealed) => o := HandleTOTPSetup(now, userId, sealed);
      case TotpEnable(userId, code) => o := HandleTOTPEnable(now, userId, code);
      case TotpDisable(userId, code) => o := HandleTOTPDisable(now, userId, code);
      case PasskeyRegisterBegin(userId, handle, session) =>
        o := HandleWebAuthnRegisterBegin(now, userId, handle, session);
      case PasskeyRegisterFinish(userId, handle, name, credential, id) =>
        o := HandleWebAuthnRegisterFinish(now, userId, handle, name, credential, id);
      case PasskeyDelete(userId, id) => o := HandleWebAuthnDelete(now, userId, id);
      case PasskeyLoginBegin(identifier, hash, handle, session) =>
        o := HandleWebAuthnLoginBegin(now, identifier, hash, handle, session);
      case PasskeyLoginFinish(identifier, hash, handle, credential, token) =>
        o := HandleWebAuthnLoginFinish(now, identifier, hash, handle, credential, token);
    }
  }
}
