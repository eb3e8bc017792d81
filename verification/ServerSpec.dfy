/** What each handler of backend/internal/server decides to change, and to answer, as
    a function of the state, the clock and the request. Randomness is part of the
    request: None stands for a failing random source. */
module ServerSpec {
  import opened Prelude
  import opened Storage
  import Lockout
  import Challenges
  import TotpCheck

  const REFRESH_TTL: int := 30 * 24 * 3600 * TotpCheck.SECOND
  const MAX_FAILS: int := 5
  const LOCK_FOR: int := 15 * 60 * TotpCheck.SECOND
  const CHALLENGE_TTL: int := 2 * 60 * TotpCheck.SECOND
  const DEFAULT_KDF: Kdf := Kdf("argon2id", 3, 64, 4)

  /** Keyed hashes, verifiers and the passkey library. */
  datatype Env = Env(
    blind: string -> string,
    hashToken: string -> string,
    verify: (string, string) -> bool,
    unseal: string -> Option<string>,
    totp: TotpCheck.TotpEnv,
    passkeysConfigured: bool,
    attest: (string, string) -> Option<(string, nat)>,
    parseAssertion: string -> bool,
    validate: (map<string, Passkey>, string, string) -> Option<(string, nat)>)

  ghost predicate Sound(env: Env) {
    TotpCheck.Sound(env.totp)
  }

  datatype State = State(store: Store, lockout: Lockout.Entries, pending: Challenges.Pending)

  const INITIAL: State := State(EMPTY, map[], map[])

  datatype Request =
    | Register(identifier: string, passwordHash: string, protectedUserKey: string, publicKey: string,
               protectedPrivateKey: string, kdf: Kdf, id: string, verifier: Option<string>)
    | Login(identifier: string, passwordHash: string, code: string, token: Option<string>)
    | Refresh(refreshToken: string, token: Option<string>)
    | DeleteAccount(userId: string)
    | LogoutAll(userId: string)
    | RecoveryEnable(userId: string, recoveryKey: string, authHash: string, verifier: Option<string>)
    | RecoveryDisable(userId: string)
    | RecoveryComplete(identifier: string, authHash: string, passwordHash: string, protectedUserKey: string,
                       kdf: Kdf, verifier: Option<string>, token: Option<string>)
    | TotpSetup(userId: string, sealed: Option<string>)
    | TotpEnable(userId: string, code: string)
    | TotpDisable(userId: string, code: string)
    | PasskeyRegisterBegin(userId: string, handle: string, session: Option<string>)
    | PasskeyRegisterFinish(userId: string, handle: string, name: string, credential: string, id: string)
    | PasskeyDelete(userId: string, id: string)
    | PasskeyLoginBegin(identifier: string, passwordHash: string, handle: string, session: Option<string>)
    | PasskeyLoginFinish(identifier: string, passwordHash: string, handle: string, credential: string,
        token: Option<string>)

  /** How a refresh token came to be issued. */
  datatype Cause =
    | PasswordOnly
    | PasswordTotp(counter: nat)
    | Assertion(handle: string)
    | RecoveryCode
    | Rotation(parent: string)

  datatype Outcome =
    | Invalid                // 400
    | Refused                // 401
    | SecondFactorRequired   // 401, naming the enrolled factors
    | Missing                // 404
    | Conflicting            // 409
    | Locked                 // 429
    | Failed                 // 500
    | Unavailable            // 503
    | Done                   // 2xx
    | Begun(handle: string)  // 200 with a challenge
    | Session(userId: string, token: string, cause: Cause)  // 200 with a session

  function ChosenKdf(kdf: Kdf): Kdf {
    if kdf.kind == "" then DEFAULT_KDF else kdf
  }

  function PasskeyName(name: string): string {
    var trimmed := TotpCheck.TrimSpace(name);
    if trimmed == "" then "Passkey" else trimmed
  }

  // --- what a request changes ------------------------------------------------

  datatype AccountChange =
    | KeepAccounts
    | Created(user: User)
    | TotpSet(userId: string, secret: string, enabled: bool)
    | CounterSet(userId: string, counter: nat)
    | RecoverySet(userId: string, key: string, verifier: string)
    | PasswordRotated(userId: string, verifier: string, key: string, kdf: Kdf)
    | Erased(userId: string)

  datatype SessionChange =
    | KeepSessions
    | Opened(rt: RefreshToken)
    | Rotated(parent: string, rt: RefreshToken)
    | Spent(hash: string)     // marked used, but no successor could be generated
    | Expired(hash: string)
    | Revoked(userId: string)
    | Replaced(userId: string, rt: RefreshToken)

  datatype PasskeyChange =
    | KeepPasskeys
    | Enrolled(id: string, passkey: Passkey)
    | Counted(credentialId: string, count: nat)
    | Removed(id: string)

  datatype ChallengeChange =
    | KeepChallenges
    | Issued(handle: string, userId: string, data: string)
    | Taken(handle: string)

  datatype LockoutChange = KeepLockout | FailedFor(ih: string) | ResetFor(ih: string)

  datatype Entry = Entry(userId: string, event: Event)

  datatype Change = Change(accounts: AccountChange, sessions: SessionChange, passkeys: PasskeyChange,
                           challenges: ChallengeChange, lockout: LockoutChange, entry: Option<Entry>)

  const NOTHING: Change := Change(KeepAccounts, KeepSessions, KeepPasskeys, KeepChallenges, KeepLockout, None)

  function ApplyAccounts(s: Store, now: Time, c: AccountChange): Store {
    match c
    case KeepAccounts => s
    case Created(user) => CreateUserIn(s, user).0
    case TotpSet(userId, secret, enabled) => SetTotp(s, userId, secret, enabled)
    case CounterSet(userId, counter) => SetTotpCounter(s, userId, counter)
    case RecoverySet(userId, key, verifier) => SetRecovery(s, userId, key, verifier)
    case PasswordRotated(userId, verifier, key, kdf) => RotateMasterPasswordIn(s, now, userId, verifier, key, kdf)
    case Erased(userId) => DeleteAccountIn(s, userId)
  }

  function ApplySessions(m: TokenTable, c: SessionChange): TokenTable {
    match c
    case KeepSessions => m
    case Opened(rt) => m[rt.tokenHash := rt]
    case Rotated(parent, rt) => (if parent in m then m[parent := m[parent].(used := true)] else m)[rt.tokenHash := rt]
    case Spent(hash) => if hash in m then m[hash := m[hash].(used := true)] else m
    case Expired(hash) => m - {hash}
    case Revoked(userId) => Revoke(m, userId)
    case Replaced(userId, rt) => Revoke(m, userId)[rt.tokenHash := rt]
  }

  function ApplyPasskeys(m: PasskeyTable, now: Time, c: PasskeyChange): PasskeyTable {
    match c
    case KeepPasskeys => m
    case Enrolled(id, passkey) => m[id := passkey]
    case Counted(credentialId, count) => Recount(m, now, credentialId, count)
    case Removed(id) => m - {id}
  }

  function ApplyChallenges(m: Challenges.Pending, now: Time, c: ChallengeChange): Challenges.Pending {
    match c
    case KeepChallenges => m
    case Issued(handle, userId, data) => Challenges.Put(m, CHALLENGE_TTL, now, handle, userId, data)
    case Taken(handle) => m - {handle}
  }

  function ApplyLockout(m: Lockout.Entries, now: Time, c: LockoutChange): Lockout.Entries {
    match c
    case KeepLockout => m
    case FailedFor(ih) => Lockout.Record(MAX_FAILS, LOCK_FOR, m, now, ih)
    case ResetFor(ih) => m - {ih}
  }

  function ApplyStore(s: Store, now: Time, c: Change): Store {
    var accounts := ApplyAccounts(s, now, c.accounts);
    accounts.(
      refresh := ApplySessions(accounts.refresh, c.sessions),
      passkeys := ApplyPasskeys(accounts.passkeys, now, c.passkeys),
      audit := if c.entry.None? then accounts.audit
               else Recorded(accounts.audit, AuditEvent(c.entry.value.userId, c.entry.value.event, now)))
  }

  function Apply(s: State, now: Time, c: Change): State {
    State(ApplyStore(s.store, now, c), ApplyLockout(s.lockout, now, c.lockout),
        ApplyChallenges(s.pending, now, c.challenges))
  }

  // --- shared decisions ------------------------------------------------------

  function NewToken(env: Env, now: Time, userId: string, token: string): RefreshToken {
    RefreshToken(env.hashToken(token), userId, now + REFRESH_TTL, now, false)
  }

  /** `verifyLoginTOTP`: the counter consumed, if the code is accepted. */
  function AcceptedCounter(env: Env, s: Store, u: User, code: string, now: Time): Option<nat>
    requires Sound(env)
  {
    var secret := env.unseal(u.totpSecret);
    if secret.None? then None
    else
      var counter := TotpCheck.Verified(env.totp, secret.value, code, now);
      if counter.Some? && counter.value > u.totpLastCounter && u.id in s.users then counter else None
  }

  /** `auth.VerifyTOTP` on a stored secret. */
  predicate CodeValid(env: Env, u: User, code: string, now: Time)
    requires Sound(env)
  {
    var secret := env.unseal(u.totpSecret);
    secret.Some? && TotpCheck.Verified(env.totp, secret.value, code, now).Some?
  }

  /** A refused attempt on an identifier; the event is recorded for a known account. */
  function Failure(ih: string, entry: Option<Entry>): Change {
    NOTHING.(lockout := FailedFor(ih), entry := entry)
  }

  // --- accounts and sessions -------------------------------------------------

  function DecideRegister(env: Env, s: State, now: Time, r: Request): (Change, Outcome)
    requires r.Register?
  {
    if r.identifier == "" || r.passwordHash == "" || r.protectedUserKey == "" then (NOTHING, Invalid)
    else if r.verifier.None? then (NOTHING, Failed)
    else if env.blind(r.identifier) in s.store.byIDHash then (NOTHING, Conflicting)
    else
      var u := User(r.id, env.blind(r.identifier), ChosenKdf(r.kdf), r.verifier.value, r.protectedUserKey, r.publicKey,
                    r.protectedPrivateKey, "", "", "", false, 0, now, now);
      (NOTHING.(accounts := Created(u), entry := Some(Entry(r.id, EvtRegister))), Done)
  }

  /** A password login that got past its factors. */
  function DecideSession(env: Env, now: Time, ih: string, u: User, token: Option<string>, cause: Cause,
      accounts: AccountChange)
    : (Change, Outcome)
  {
    if token.None? then (NOTHING.(accounts := accounts), Failed)
    else
      (Change(accounts, Opened(NewToken(env, now, u.id, token.value)), KeepPasskeys, KeepChallenges, ResetFor(ih),
              Some(Entry(u.id, EvtLoginSuccess))),
       Session(u.id, token.value, cause))
  }

  /** A login whose password was accepted. */
  function DecideFactors(env: Env, s: State, now: Time, ih: string, u: User, code: string,
      token: Option<string>): (Change, Outcome)
    requires Sound(env)
  {
    if !u.totpEnabled && PasskeysOf(s.store, u.id) == {}
        then DecideSession(env, now, ih, u, token, PasswordOnly, KeepAccounts)
    else if code == "" then (NOTHING, SecondFactorRequired)
    else
      var counter := if u.totpEnabled then AcceptedCounter(env, s.store, u, code, now) else None;
      if counter.None? then (Failure(ih, Some(Entry(u.id, EvtLoginFailure(BySecondFactor)))), Refused)
      else DecideSession(env, now, ih, u, token, PasswordTotp(counter.value), CounterSet(u.id, counter.value))
  }

  function DecideLogin(env: Env, s: State, now: Time, r: Request): (Change, Outcome)
    requires r.Login? && Sound(env)
  {
    var ih := env.blind(r.identifier);
    var found := UserByIdentifierHash(s.store, ih);
    if Lockout.IsLocked(s.lockout, now, ih) then (NOTHING, Locked)
    else if found.None? then (Failure(ih, None), Refused)
    else
      var u := found.value;
      if !env.verify(u.verifier, r.passwordHash)
          then (Failure(ih, Some(Entry(u.id, EvtLoginFailure(ByPassword)))), Refused)
      else DecideFactors(env, s, now, ih, u, r.code, r.token)
  }

  function DecideRefresh(env: Env, s: State, now: Time, r: Request): (Change, Outcome)
    requires r.Refresh?
  {
    var h := env.hashToken(r.refreshToken);
    if r.refreshToken == "" then (NOTHING, Invalid)
    else if h !in s.store.refresh then (NOTHING, Refused)
    else
      var rt := s.store.refresh[h];
      if now > rt.expiresAt then (NOTHING.(sessions := Expired(h)), Refused)
      else if rt.used then
        (NOTHING.(sessions := Revoked(rt.userId), entry := Some(Entry(rt.userId, EvtTokenReuse))), Refused)
      else if r.token.None? then (NOTHING.(sessions := Spent(h)), Failed)
      else
        (NOTHING.(sessions := Rotated(h, NewToken(env, now, rt.userId, r.token.value))),
         Session(rt.userId, r.token.value, Rotation(h)))
  }

  function DecideDeleteAccount(s: State, r: Request): (Change, Outcome)
    requires r.DeleteAccount?
  {
    if r.userId == "" then (NOTHING, Refused)
    else if r.userId !in s.store.users then (NOTHING, Missing)
    else (NOTHING.(accounts := Erased(r.userId), sessions := Revoked(r.userId)), Done)
  }

  function DecideLogoutAll(r: Request): (Change, Outcome)
    requires r.LogoutAll?
  {
    if r.userId == "" then (NOTHING, Refused)
    else (NOTHING.(sessions := Revoked(r.userId), entry := Some(Entry(r.userId, EvtSessionRevokeAll))), Done)
  }

  // --- recovery --------------------------------------------------------------

  function DecideRecoveryEnable(s: State, r: Request): (Change, Outcome)
    requires r.RecoveryEnable?
  {
    if r.recoveryKey == "" || r.authHash == "" then (NOTHING, Invalid)
    else if r.verifier.None? || r.userId !in s.store.users then (NOTHING, Failed)
    else
      (NOTHING.(accounts := RecoverySet(r.userId, r.recoveryKey, r.verifier.value),
                entry := Some(Entry(r.userId, EvtRecoveryEnable))), Done)
  }

  function DecideRecoveryDisable(s: State, r: Request): (Change, Outcome)
    requires r.RecoveryDisable?
  {
    if r.userId !in s.store.users then (NOTHING, Failed)
    else (NOTHING.(accounts := RecoverySet(r.userId, "", ""), entry := Some(Entry(r.userId, EvtRecoveryDisable))), Done)
  }

  /** The account whose recovery verifier accepts the code. */
  predicate RecoveryAccepted(env: Env, found: Option<User>, authHash: string) {
    found.Some? && found.value.recoveryVerifier != "" && env.verify(found.value.recoveryVerifier, authHash)
  }

  function DecideRecoveryComplete(env: Env, s: State, now: Time, r: Request): (Change, Outcome)
    requires r.RecoveryComplete?
  {
    var ih := env.blind(r.identifier);
    var found := UserByIdentifierHash(s.store, ih);
    if r.authHash == "" || r.passwordHash == "" || r.protectedUserKey == "" then (NOTHING, Invalid)
    else if Lockout.IsLocked(s.lockout, now, ih) then (NOTHING, Locked)
    else if !RecoveryAccepted(env, found, r.authHash) then (Failure(ih, None), Refused)
    else if r.verifier.None? || found.value.id !in s.store.users then (NOTHING, Failed)
    else
      var u := found.value;
      var kdf := if r.kdf.kind == "" then u.kdf else r.kdf;
      DecideSwap(env, now, ih, u.id, PasswordRotated(u.id, r.verifier.value, r.protectedUserKey, kdf), r.token)
  }

  /** An accepted recovery: the new password, and no session but the one opened here. */
  function DecideSwap(env: Env, now: Time, ih: string, userId: string, accounts: AccountChange, token: Option<string>)
    : (Change, Outcome)
  {
    var swapped := NOTHING.(accounts := accounts, entry := Some(Entry(userId, EvtRecoveryComplete)));
    if token.None? then (swapped.(sessions := Revoked(userId)), Failed)
    else
      (swapped.(sessions := Replaced(userId, NewToken(env, now, userId, token.value)), lockout := ResetFor(ih)),
       Session(userId, token.value, RecoveryCode))
  }

  // --- TOTP enrolment --------------------------------------------------------

  function DecideTotpSetup(s: State, r: Request): (Change, Outcome)
    requires r.TotpSetup?
  {
    if r.userId !in s.store.users then (NOTHING, Refused)
    else if s.store.users[r.userId].totpEnabled then (NOTHING, Conflicting)
    else if r.sealed.None? then (NOTHING, Failed)
    else (NOTHING.(accounts := TotpSet(r.userId, r.sealed.value, false)), Done)
  }

  function DecideTotpEnable(env: Env, s: State, now: Time, r: Request): (Change, Outcome)
    requires r.TotpEnable? && Sound(env)
  {
    if r.userId !in s.store.users then (NOTHING, Refused)
    else
      var u := s.store.users[r.userId];
      if u.totpSecret == "" || !CodeValid(env, u, r.code, now) then (NOTHING, Invalid)
      else
        (NOTHING.(accounts := TotpSet(r.userId, u.totpSecret, true),
                  entry := Some(Entry(r.userId, EvtTOTPEnable))), Done)
  }

  function DecideTotpDisable(env: Env, s: State, now: Time, r: Request): (Change, Outcome)
    requires r.TotpDisable? && Sound(env)
  {
    if r.userId !in s.store.users then (NOTHING, Refused)
    else
      var u := s.store.users[r.userId];
      if !u.totpEnabled then (NOTHING, Done)
      else if !CodeValid(env, u, r.code, now) then (NOTHING, Invalid)
      else (NOTHING.(accounts := TotpSet(r.userId, "", false), entry := Some(Entry(r.userId, EvtTOTPDisable))), Done)
  }

  // --- passkeys --------------------------------------------------------------

  function DecidePasskeyRegisterBegin(env: Env, r: Request): (Change, Outcome)
    requires r.PasskeyRegisterBegin?
  {
    if !env.passkeysConfigured then (NOTHING, Unavailable)
    else if r.session.None? then (NOTHING, Failed)
    else (NOTHING.(challenges := Issued(r.handle, r.userId, r.session.value)), Begun(r.handle))
  }

  /** The challenge a handle names, while it is alive and if it was issued to the user. */
  function LiveChallenge(s: State, now: Time, handle: string, userId: string): Option<Challenges.Challenge> {
    var entry := Challenges.Take(s.pending, now, handle).1;
    if entry.Some? && entry.value.userId == userId then entry else None
  }

  function DecidePasskeyRegisterFinish(env: Env, s: State, now: Time, r: Request): (Change, Outcome)
    requires r.PasskeyRegisterFinish?
  {
    var entry := LiveChallenge(s, now, r.handle, r.userId);
    var cred := if entry.Some? then env.attest(entry.value.data, r.credential) else None;
    var taken := NOTHING.(challenges := Taken(r.handle));
    if !env.passkeysConfigured then (NOTHING, Unavailable)
    else if cred.None? then (taken, Invalid)
    else if HasCredential(s.store, cred.value.0) then (taken, Conflicting)
    else
      (taken.(passkeys := Enrolled(r.id, Passkey(r.userId, cred.value.0, cred.value.1, PasskeyName(r.name), now, now)),
              entry := Some(Entry(r.userId, EvtPasskeyEnroll))), Done)
  }

  function DecidePasskeyDelete(s: State, r: Request): (Change, Outcome)
    requires r.PasskeyDelete?
  {
    if r.id !in s.store.passkeys || s.store.passkeys[r.id].userId != r.userId then (NOTHING, Missing)
    else (NOTHING.(passkeys := Removed(r.id), entry := Some(Entry(r.userId, EvtPasskeyRemove))), Done)
  }

  predicate PasswordAccepted(env: Env, found: Option<User>, passwordHash: string) {
    found.Some? && env.verify(found.value.verifier, passwordHash)
  }

  function DecidePasskeyLoginBegin(env: Env, s: State, now: Time, r: Request): (Change, Outcome)
    requires r.PasskeyLoginBegin?
  {
    var ih := env.blind(r.identifier);
    var found := UserByIdentifierHash(s.store, ih);
    if !env.passkeysConfigured then (NOTHING, Unavailable)
    else if Lockout.IsLocked(s.lockout, now, ih) then (NOTHING, Locked)
    else if !PasswordAccepted(env, found, r.passwordHash) then (Failure(ih, None), Refused)
    else if PasskeysOf(s.store, found.value.id) == {} then (NOTHING, Invalid)
    else if r.session.None? then (NOTHING, Failed)
    else (NOTHING.(challenges := Issued(r.handle, found.value.id, r.session.value)), Begun(r.handle))
  }

  function DecidePasskeyLoginFinish(env: Env, s: State, now: Time, r: Request): (Change, Outcome)
    requires r.PasskeyLoginFinish?
  {
    var ih := env.blind(r.identifier);
    var found := UserByIdentifierHash(s.store, ih);
    if !env.passkeysConfigured then (NOTHING, Unavailable)
    else if Lockout.IsLocked(s.lockout, now, ih) then (NOTHING, Locked)
    else if !PasswordAccepted(env, found, r.passwordHash) then (Failure(ih, None), Refused)
    else DecideAssertion(env, s, now, ih, found.value, r.handle, r.credential, r.token)
  }

  /** A passkey login whose password was accepted. */
  function DecideAssertion(env: Env, s: State, now: Time, ih: string, u: User, handle: string, credential: string,
                           token: Option<string>): (Change, Outcome)
  {
    var taken := NOTHING.(challenges := Taken(handle));
    var entry := LiveChallenge(s, now, handle, u.id);
    if entry.None? || !env.parseAssertion(credential) then (taken, Invalid)
    else
      var cred := env.validate(PasskeyRows(s.store, u.id), entry.value.data, credential);
      if cred.None? then (taken.(lockout := FailedFor(ih)), Refused)
      else
        var counted := taken.(passkeys := Counted(cred.value.0, cred.value.1));
        if token.None? then (counted, Failed)
        else
          (counted.(sessions := Opened(NewToken(env, now, u.id, token.value)), lockout := ResetFor(ih)),
           Session(u.id, token.value, Assertion(handle)))
  }

  // --- one step --------------------------------------------------------------

  function Decide(env: Env, s: State, now: Time, r: Request): (Change, Outcome)
    requires Sound(env)
  {
    match r
    case Register(_, _, _, _, _, _, _, _) => DecideRegister(env, s, now, r)
    case Login(_, _, _, _) => DecideLogin(env, s, now, r)
    case Refresh(_, _) => DecideRefresh(env, s, now, r)
    case DeleteAccount(_) => DecideDeleteAccount(s, r)
    case LogoutAll(_) => DecideLogoutAll(r)
    case RecoveryEnable(_, _, _, _) => DecideRecoveryEnable(s, r)
    case RecoveryDisable(_) => DecideRecoveryDisable(s, r)
    case RecoveryComplete(_, _, _, _, _, _, _) => DecideRecoveryComplete(env, s, now, r)
    case TotpSetup(_, _) => DecideTotpSetup(s, r)
    case TotpEnable(_, _) => DecideTotpEnable(env, s, now, r)
    case TotpDisable(_, _) => DecideTotpDisable(env, s, now, r)
    case PasskeyRegisterBegin(_, _, _) => DecidePasskeyRegisterBegin(env, r)
    case PasskeyRegisterFinish(_, _, _, _, _) => DecidePasskeyRegisterFinish(env, s, now, r)
    case PasskeyDelete(_, _) => DecidePasskeyDelete(s, r)
    case PasskeyLoginBegin(_, _, _, _) => DecidePasskeyLoginBegin(env, s, now, r)
    case PasskeyLoginFinish(_, _, _, _, _) => DecidePasskeyLoginFinish(env, s, now, r)
  }

  /** The state after a decision, and its answer. */
  function After(s: State, now: Time, d: (Change, Outcome)): (State, Outcome) {
    (Apply(s, now, d.0), d.1)
  }

  function Step(env: Env, s: State, now: Time, r: Request): (State, Outcome)
    requires Sound(env)
  {
    After(s, now, Decide(env, s, now, r))
  }
}
