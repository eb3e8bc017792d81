/** The in-memory store of backend/internal/storage/memory.go, as far as accounts and
    sessions go: the class `Memory` and, on values, what each method does. */
module Storage {
  import opened Prelude

  type Time = int  // nanoseconds

  datatype Kdf = Kdf(kind: string, iterations: int, memoryMiB: int, parallelism: int)

  datatype User = User(
    id: string, identifierHash: string, kdf: Kdf, verifier: string, protectedUserKey: string,
    publicKey: string, protectedPrivateKey: string, recoveryProtectedUserKey: string, recoveryVerifier: string,
    totpSecret: string, totpEnabled: bool, totpLastCounter: nat, createdAt: Time, updatedAt: Time)

  datatype Cipher = Cipher(userId: string, data: string, createdAt: Time, updatedAt: Time)

  datatype RefreshToken = RefreshToken(tokenHash: string, userId: string, expiresAt: Time, createdAt: Time, used: bool)

  datatype Passkey = Passkey(userId: string, credentialId: string, signCount: nat, name: string, createdAt: Time,
      updatedAt: Time)

  /** What a failed login failed at. */
  datatype Factor = ByPassword | BySecondFactor

  datatype Event =
    | EvtRegister | EvtLoginSuccess | EvtLoginFailure(factor: Factor) | EvtTokenReuse | EvtSessionRevokeAll
    | EvtRecoveryEnable | EvtRecoveryDisable | EvtRecoveryComplete | EvtTOTPEnable | EvtTOTPDisable
    | EvtPasskeyEnroll | EvtPasskeyRemove

  datatype AuditEvent = AuditEvent(userId: string, event: Event, createdAt: Time)

  datatype Share = Share(ownerUserId: string, recipientUserId: string, wrappedKey: string, data: string)

  datatype StoreError = NotFound | Conflict

  datatype Store = Store(
    users: map<string, User>, byIDHash: map<string, string>, ciphers: map<string, Cipher>,
    refresh: TokenTable, passkeys: PasskeyTable, audit: seq<AuditEvent>,
    shares: map<string, Share>)

  const EMPTY: Store := Store(map[], map[], map[], map[], map[], [], map[])

  /** Go's zero value, which a dangling index entry would yield. */
  const ZERO_USER: User := User("", "", Kdf("", 0, 0, 0), "", "", "", "", "", "", "", false, 0, 0, 0)

  // --- the methods on values -------------------------------------------------

  function CreateUserIn(s: Store, u: User): (Store, Option<StoreError>) {
    if u.identifierHash in s.byIDHash then (s, Some(Conflict))
    else (s.(users := s.users[u.id := u], byIDHash := s.byIDHash[u.identifierHash := u.id]), None)
  }

  function UserByIdentifierHash(s: Store, identifierHash: string): Option<User> {
    if identifierHash !in s.byIDHash then None
    else
      var id := s.byIDHash[identifierHash];
      Some(if id in s.users then s.users[id] else ZERO_USER)
  }

  function SetTotp(s: Store, userId: string, secret: string, enabled: bool): Store {
    if userId !in s.users then s
    else s.(users := s.users[userId :=
        s.users[userId].(totpSecret := secret, totpEnabled := enabled, totpLastCounter := 0)])
  }

  function SetTotpCounter(s: Store, userId: string, counter: nat): Store {
    if userId !in s.users then s
    else s.(users := s.users[userId := s.users[userId].(totpLastCounter := counter)])
  }

  function SetRecovery(s: Store, userId: string, key: string, verifier: string): Store {
    if userId !in s.users then s
    else s.(users := s.users[userId := s.users[userId].(recoveryProtectedUserKey := key, recoveryVerifier := verifier)])
  }

  function RotateMasterPasswordIn(s: Store, now: Time, userId: string, verifier: string, key: string, kdf: Kdf): Store {
    if userId !in s.users then s
    else
      s.(users := s.users[userId :=
          s.users[userId].(verifier := verifier, protectedUserKey := key, kdf := kdf, updatedAt := now)])
  }

  type TokenTable = map<string, RefreshToken>

  /** Without the tokens of a user. */
  function Revoke(tokens: TokenTable, userId: string): TokenTable {
    map h | h in tokens && tokens[h].userId != userId :: tokens[h]
  }

  function DeleteTokensOf(s: Store, userId: string): Store {
    s.(refresh := Revoke(s.refresh, userId))
  }

  function DeleteAccountIn(s: Store, userId: string): Store {
    if userId !in s.users then s
    else
      Store(
        s.users - {userId},
        s.byIDHash - {s.users[userId].identifierHash},
        map id | id in s.ciphers && s.ciphers[id].userId != userId :: s.ciphers[id],
        Revoke(s.refresh, userId),
        map id | id in s.passkeys && s.passkeys[id].userId != userId :: s.passkeys[id],
        Filter((e: AuditEvent) => e.userId != userId, s.audit),
        map id | id in s.shares && s.shares[id].ownerUserId != userId && s.shares[id].recipientUserId != userId ::
            s.shares[id])
  }

  predicate HasCredential(s: Store, credentialId: string) {
    exists id :: id in s.passkeys && s.passkeys[id].credentialId == credentialId
  }

  function CreatePasskey(s: Store, id: string, c: Passkey): (Store, Option<StoreError>) {
    if HasCredential(s, c.credentialId) then (s, Some(Conflict)) else (s.(passkeys := s.passkeys[id := c]), None)
  }

  function PasskeysOf(s: Store, userId: string): set<string> {
    set id | id in s.passkeys && s.passkeys[id].userId == userId
  }

  function PasskeyList(s: Store, userId: string): set<(string, Passkey)> {
    set id | id in s.passkeys && s.passkeys[id].userId == userId :: (id, s.passkeys[id])
  }

  function PasskeyRows(s: Store, userId: string): PasskeyTable {
    map id | id in s.passkeys && s.passkeys[id].userId == userId :: s.passkeys[id]
  }

  type PasskeyTable = map<string, Passkey>

  /** Every row of the credential gets the new count; in reachable states there is at
      most one. */
  function Recount(passkeys: PasskeyTable, now: Time, credentialId: string, count: nat): PasskeyTable {
    map id | id in passkeys ::
      if passkeys[id].credentialId == credentialId then passkeys[id].(signCount := count, updatedAt := now)
          else passkeys[id]
  }

  function SetSignCount(s: Store, now: Time, credentialId: string, count: nat): Store {
    s.(passkeys := Recount(s.passkeys, now, credentialId, count))
  }

  /** One row of the credential got the new count, and nothing else changed. */
  ghost predicate SignCountAt(s: Store, t: Store, id: string, now: Time, credentialId: string, count: nat) {
    && id in s.passkeys && s.passkeys[id].credentialId == credentialId
    && t == s.(passkeys := s.passkeys[id := s.passkeys[id].(signCount := count, updatedAt := now)])
  }

  function DeletePasskey(s: Store, userId: string, id: string): (Store, Option<StoreError>) {
    if id !in s.passkeys || s.passkeys[id].userId != userId then (s, Some(NotFound))
    else (s.(passkeys := s.passkeys - {id}), None)
  }

  function AddToken(s: Store, rt: RefreshToken): Store {
    s.(refresh := s.refresh[rt.tokenHash := rt])
  }

  function DeleteToken(s: Store, hash: string): Store {
    s.(refresh := s.refresh - {hash})
  }

  function MarkUsed(s: Store, hash: string): Store {
    if hash !in s.refresh then s else s.(refresh := s.refresh[hash := s.refresh[hash].(used := true)])
  }

  /** The sessions the list shows: unused and strictly before expiry. */
  function LiveTokens(s: Store, now: Time, userId: string): set<(string, RefreshToken)> {
    set h | h in s.refresh && s.refresh[h].userId == userId && !s.refresh[h].used && s.refresh[h].expiresAt > now
      :: (h, s.refresh[h])
  }

  /** An event without a user is not recorded. */
  function Recorded(audit: seq<AuditEvent>, e: AuditEvent): seq<AuditEvent> {
    if e.userId == "" then audit else audit + [e]
  }

  function Log(s: Store, now: Time, userId: string, event: Event): Store {
    s.(audit := Recorded(s.audit, AuditEvent(userId, event, now)))
  }

  // --- sorting ---------------------------------------------------------------

  predicate Ordered<T>(rank: T -> int, list: seq<T>) {
    forall i, j :: 0 <= i < j < |list| ==> rank(list[i]) <= rank(list[j])
  }

  function Insert<T>(rank: T -> int, list: seq<T>, t: T): (r: seq<T>)
    ensures multiset(r) == multiset(list) + multiset{t}
  {
    if list == [] then [t]
    else if rank(t) < rank(list[0]) then [t] + list
    else
      assert list == [list[0]] + list[1..];
      [list[0]] + Insert(rank, list[1..], t)
  }

  lemma {:induction false} InsertOrdered<T>(rank: T -> int, list: seq<T>, t: T)
    requires Ordered(rank, list)
    ensures Ordered(rank, Insert(rank, list, t))
  {
    if list != [] && rank(t) >= rank(list[0]) {
      InsertOrdered(rank, list[1..], t);
      var rest := Insert(rank, list[1..], t);
      forall x | x in rest ensures rank(list[0]) <= rank(x) {
        assert x in multiset(rest);
        assert x == t || x in list[1..];
      }
    }
  }

  /** `sort.Slice`: which of two equal ones comes first is not said. */
  function Sort<T>(rank: T -> int, list: seq<T>): (r: seq<T>)
    ensures multiset(r) == multiset(list) && Ordered(rank, r)
  {
    if list == [] then []
    else
      assert list == [list[0]] + list[1..];
      InsertOrdered(rank, Sort(rank, list[1..]), list[0]);
      Insert(rank, Sort(rank, list[1..]), list[0])
  }

  lemma SameMembers<T>(list: seq<T>, all: set<T>)
    requires multiset(list) == multiset(all)
    ensures forall x :: x in list <==> x in all
  {
    assert forall x :: x in list <==> x in multiset(list);
  }

  function Newest(t: (string, RefreshToken)): int { -t.1.createdAt }

  function Oldest(p: (string, Passkey)): int { p.1.createdAt }

  // --- the class -------------------------------------------------------------

  class Memory {
    var users: map<string, User>
    var byIDHash: map<string, string>
    var ciphers: map<string, Cipher>
    var refresh: TokenTable
    var passkeys: PasskeyTable
    var audit: seq<AuditEvent>
    var shares: map<string, Share>

    ghost function State(): Store
      reads this
    {
      Store(users, byIDHash, ciphers, refresh, passkeys, audit, shares)
    }

    constructor ()
      ensures State() == EMPTY
    {
      users, byIDHash, ciphers, refresh, passkeys, audit, shares := map[], map[], map[], map[], map[], [], map[];
    }

    method CreateUser(u: User) returns (err: Option<StoreError>)
      modifies this
      ensures (State(), err) == CreateUserIn(old(State()), u)
    {
      if u.identifierHash in byIDHash { return Some(Conflict); }
      users := users[u.id := u];
      byIDHash := byIDHash[u.identifierHash := u.id];
      return None;
    }

    method GetUserByIdentifierHash(identifierHash: string) returns (u: Option<User>)
      ensures u == UserByIdentifierHash(State(), identifierHash)
    {
      if identifierHash !in byIDHash { return None; }
      var id := byIDHash[identifierHash];
      u := Some(if id in users then users[id] else ZERO_USER);
    }

    method GetUserByID(id: string) returns (u: Option<User>)
      ensures u == if id in users then Some(users[id]) else None
    {
      u := if id in users then Some(users[id]) else None;
    }

    method SetUserTOTP(userId: string, secret: string, enabled: bool) returns (err: Option<StoreError>)
      modifies this
      ensures State() == SetTotp(old(State()), userId, secret, enabled)
      ensures err == if userId in old(users) then None else Some(NotFound)
    {
      if userId !in users { return Some(NotFound); }
      users := users[userId := users[userId].(totpSecret := secret, totpEnabled := enabled, totpLastCounter := 0)];
      return None;
    }

    method SetUserTOTPCounter(userId: string, counter: nat) returns (err: Option<StoreError>)
      modifies this
      ensures State() == SetTotpCounter(old(State()), userId, counter)
      ensures err == if userId in old(users) then None else Some(NotFound)
    {
      if userId !in users { return Some(NotFound); }
      users := users[userId := users[userId].(totpLastCounter := counter)];
      return None;
    }

    method SetUserRecovery(userId: string, key: string, verifier: string) returns (err: Option<StoreError>)
      modifies this
      ensures State() == SetRecovery(old(State()), userId, key, verifier)
      ensures err == if userId in old(users) then None else Some(NotFound)
    {
      if userId !in users { return Some(NotFound); }
      users := users[userId := users[userId].(recoveryProtectedUserKey := key, recoveryVerifier := verifier)];
      return None;
    }

    method RotateMasterPassword(now: Time, userId: string, verifier: string, key: string, kdf: Kdf)
        returns (err: Option<StoreError>)
      modifies this
      ensures State() == RotateMasterPasswordIn(old(State()), now, userId, verifier, key, kdf)
      ensures err == if userId in old(users) then None else Some(NotFound)
    {
      if userId !in users { return Some(NotFound); }
      users := users[userId :=
          users[userId].(verifier := verifier, protectedUserKey := key, kdf := kdf, updatedAt := now)];
      return None;
    }

    method DeleteAccount(userId: string) returns (err: Option<StoreError>)
      modifies this
      ensures State() == DeleteAccountIn(old(State()), userId)
      ensures err == if userId in old(users) then None else Some(NotFound)
    {
      if userId !in users { return Some(NotFound); }
      var u := users[userId];
      users := users - {userId};
      byIDHash := byIDHash - {u.identifierHash};
      DeleteCiphersOf(userId);
      DeleteRefreshTokensForUser(userId);
      DeletePasskeysOf(userId);
      DeleteSharesOf(userId);
      DeleteAuditOf(userId);
      return None;
    }

    method DeleteAuditOf(userId: string)
      modifies this`audit
      ensures audit == Filter((e: AuditEvent) => e.userId != userId, old(audit))
    {
      var kept: seq<AuditEvent> := [];
      ghost var others := (e: AuditEvent) => e.userId != userId;
      for i := 0 to |audit|
        invariant audit == old(audit) && kept == Filter(others, audit[..i])
      {
        FilterAppend(others, audit[..i], audit[i]);
        assert audit[..i + 1] == audit[..i] + [audit[i]];
        if audit[i].userId != userId {
          kept := kept + [audit[i]];
        }
      }
      assert audit[..|audit|] == audit;
      audit := kept;
    }

    method DeleteCiphersOf(userId: string)
      modifies this`ciphers
      ensures ciphers == map id | id in old(ciphers) && old(ciphers)[id].userId != userId :: old(ciphers)[id]
    {
      var todo := ciphers.Keys;
      while todo != {}
        invariant todo <= old(ciphers).Keys
        invariant ciphers == map id | id in old(ciphers) && (id in todo || old(ciphers)[id].userId != userId) ::
            old(ciphers)[id]
        decreases |todo|
      {
        var id :| id in todo;
        todo := todo - {id};
        if ciphers[id].userId == userId { ciphers := ciphers - {id}; }
      }
    }

    method DeleteRefreshTokensForUser(userId: string)
      modifies this`refresh
      ensures State() == DeleteTokensOf(old(State()), userId)
    {
      var todo := refresh.Keys;
      while todo != {}
        invariant todo <= old(refresh).Keys
        invariant refresh == map h | h in old(refresh) && (h in todo || old(refresh)[h].userId != userId) ::
            old(refresh)[h]
        decreases |todo|
      {
        var h :| h in todo;
        todo := todo - {h};
        if refresh[h].userId == userId { refresh := refresh - {h}; }
      }
    }

    method DeletePasskeysOf(userId: string)
      modifies this`passkeys
      ensures passkeys == map id | id in old(passkeys) && old(passkeys)[id].userId != userId :: old(passkeys)[id]
    {
      var todo := passkeys.Keys;
      while todo != {}
        invariant todo <= old(passkeys).Keys
        invariant passkeys == map id | id in old(passkeys) && (id in todo || old(passkeys)[id].userId != userId) ::
            old(passkeys)[id]
        decreases |todo|
      {
        var id :| id in todo;
        todo := todo - {id};
        if passkeys[id].userId == userId { passkeys := passkeys - {id}; }
      }
    }

    method DeleteSharesOf(userId: string)
      modifies this`shares
      ensures shares == map id | id in old(shares) && old(shares)[id].ownerUserId != userId
                                 && old(shares)[id].recipientUserId != userId :: old(shares)[id]
    {
      var todo := shares.Keys;
      while todo != {}
        invariant todo <= old(shares).Keys
        invariant shares == map id | id in old(shares) && (id in todo || (old(shares)[id].ownerUserId != userId
                                       && old(shares)[id].recipientUserId != userId)) :: old(shares)[id]
        decreases |todo|
      {
        var id :| id in todo;
        todo := todo - {id};
        if shares[id].ownerUserId == userId || shares[id].recipientUserId == userId { shares := shares - {id}; }
      }
    }

    method CreateWebAuthnCredential(id: string, c: Passkey) returns (err: Option<StoreError>)
      modifies this
      ensures (State(), err) == CreatePasskey(old(State()), id, c)
    {
      var todo := passkeys.Keys;
      while todo != {}
        invariant todo <= passkeys.Keys
        invariant forall k :: k in passkeys && k !in todo ==> passkeys[k].credentialId != c.credentialId
        decreases |todo|
      {
        var k :| k in todo;
        todo := todo - {k};
        if passkeys[k].credentialId == c.credentialId { return Some(Conflict); }
      }
      passkeys := passkeys[id := c];
      return None;
    }

    method CountWebAuthnCredentials(userId: string) returns (n: nat)
      ensures n == |PasskeysOf(State(), userId)|
    {
      n := 0;
      var todo := passkeys.Keys;
      ghost var seen: set<string> := {};
      while todo != {}
        invariant todo <= passkeys.Keys
        invariant seen == set id | id in passkeys && id !in todo && passkeys[id].userId == userId
        invariant n == |seen|
        decreases |todo|
      {
        var id :| id in todo;
        todo := todo - {id};
        if passkeys[id].userId == userId {
          n := n + 1;
          seen := seen + {id};
        }
      }
      assert seen == PasskeysOf(State(), userId);
    }

    /** The rows listed are exactly the user's, each once, oldest first. */
    method ListWebAuthnCredentials(userId: string) returns (list: seq<(string, Passkey)>)
      ensures multiset(list) == multiset(PasskeyList(State(), userId))
      ensures Ordered(Oldest, list)
    {
      var out: seq<(string, Passkey)> := [];
      var todo := passkeys.Keys;
      ghost var seen: set<(string, Passkey)> := {};
      while todo != {}
        invariant todo <= passkeys.Keys
        invariant seen == set id | id in passkeys && id !in todo && passkeys[id].userId == userId :: (id, passkeys[id])
        invariant multiset(out) == multiset(seen)
        decreases |todo|
      {
        var id :| id in todo;
        var c := passkeys[id];
        assert (id, c) !in seen;
        todo := todo - {id};
        if c.userId == userId {
          out := out + [(id, c)];
          seen := seen + {(id, c)};
        }
      }
      assert seen == PasskeyList(State(), userId);
      list := Sort(Oldest, out);
    }

    /** Updates some row of the credential, whichever the map yields first. */
    method UpdateWebAuthnSignCount(now: Time, credentialId: string, count: nat) returns (err: Option<StoreError>)
      modifies this`passkeys
      ensures err.Some? <==> !old(HasCredential(State(), credentialId))
      ensures err.Some? ==> State() == old(State())
      ensures err.None? ==> exists id :: SignCountAt(old(State()), State(), id, now, credentialId, count)
    {
      var todo := passkeys.Keys;
      while todo != {}
        invariant todo <= passkeys.Keys && passkeys == old(passkeys)
        invariant forall k :: k in passkeys && k !in todo ==> passkeys[k].credentialId != credentialId
        decreases |todo|
      {
        var id :| id in todo;
        todo := todo - {id};
        if passkeys[id].credentialId == credentialId {
          passkeys := passkeys[id := passkeys[id].(signCount := count, updatedAt := now)];
          assert SignCountAt(old(State()), State(), id, now, credentialId, count);
          return None;
        }
      }
      return Some(NotFound);
    }

    method DeleteWebAuthnCredential(userId: string, id: string) returns (err: Option<StoreError>)
      modifies this
      ensures (State(), err) == DeletePasskey(old(State()), userId, id)
    {
      if id !in passkeys || passkeys[id].userId != userId { return Some(NotFound); }
      passkeys := passkeys - {id};
      return None;
    }

    method CreateRefreshToken(rt: RefreshToken)
      modifies this
      ensures State() == AddToken(old(State()), rt)
    {
      refresh := refresh[rt.tokenHash := rt];
    }

    method GetRefreshToken(hash: string) returns (rt: Option<RefreshToken>)
      ensures rt == if hash in refresh then Some(refresh[hash]) else None
    {
      rt := if hash in refresh then Some(refresh[hash]) else None;
    }

    method DeleteRefreshToken(hash: string)
      modifies this
      ensures State() == DeleteToken(old(State()), hash)
    {
      refresh := refresh - {hash};
    }

    method MarkRefreshTokenUsed(hash: string)
      modifies this
      ensures State() == MarkUsed(old(State()), hash)
    {
      if hash in refresh {
        refresh := refresh[hash := refresh[hash].(used := true)];
      }
    }

    /** The tokens listed are exactly the live ones, each once, newest first. */
    method ListRefreshTokensForUser(now: Time, userId: string) returns (list: seq<(string, RefreshToken)>)
      ensures multiset(list) == multiset(LiveTokens(State(), now, userId))
      ensures Ordered(Newest, list)
    {
      var out: seq<(string, RefreshToken)> := [];
      var todo := refresh.Keys;
      ghost var seen: set<(string, RefreshToken)> := {};
      while todo != {}
        invariant todo <= refresh.Keys
        invariant seen == set h | h in refresh && h !in todo && refresh[h].userId == userId && !refresh[h].used
                                  && refresh[h].expiresAt > now :: (h, refresh[h])
        invariant multiset(out) == multiset(seen)
        decreases |todo|
      {
        var h :| h in todo;
        var rt := refresh[h];
        assert (h, rt) !in seen;
        todo := todo - {h};
        if rt.userId == userId && !rt.used && rt.expiresAt > now {
          out := out + [(h, rt)];
          seen := seen + {(h, rt)};
        }
      }
      assert seen == LiveTokens(State(), now, userId);
      list := Sort(Newest, out);
    }

    method AppendAuditEvent(e: AuditEvent)
      modifies this
      ensures State() == old(State()).(audit := old(State()).audit + [e])
    {
      audit := audit + [e];
    }
  }

  // --- invariants of the store -----------------------------------------------

  /** byIDHash is the exact inverse of the users' identifier hashes. */
  ghost predicate IndexInverse(s: Store) {
    && (forall id :: id in s.users ==> s.users[id].id == id && s.users[id].identifierHash in s.byIDHash
                                       && s.byIDHash[s.users[id].identifierHash] == id)
    && (forall ih :: ih in s.byIDHash ==> s.byIDHash[ih] in s.users && s.users[s.byIDHash[ih]].identifierHash == ih)
  }

  ghost predicate Distinct(passkeys: PasskeyTable) {
    forall a, b :: a in passkeys && b in passkeys && passkeys[a].credentialId == passkeys[b].credentialId ==> a == b
  }

  ghost predicate UniqueCredentials(s: Store) {
    Distinct(s.passkeys)
  }

  ghost predicate Keyed(tokens: TokenTable) {
    forall h :: h in tokens ==> tokens[h].tokenHash == h
  }

  ghost predicate TokenKeys(s: Store) {
    Keyed(s.refresh)
  }

  ghost predicate StoreInv(s: Store) {
    IndexInverse(s) && UniqueCredentials(s) && TokenKeys(s)
  }

  /** Credential ids being unique, the update does not depend on the map's order. */
  lemma SignCountDetermined(s: Store, t: Store, id: string, now: Time, credentialId: string, count: nat)
    requires UniqueCredentials(s) && SignCountAt(s, t, id, now, credentialId, count)
    ensures t == SetSignCount(s, now, credentialId, count)
  {
    assert t.passkeys == SetSignCount(s, now, credentialId, count).passkeys;
  }

  lemma SignCountAbsent(s: Store, now: Time, credentialId: string, count: nat)
    requires !HasCredential(s, credentialId)
    ensures SetSignCount(s, now, credentialId, count) == s
  {
    assert SetSignCount(s, now, credentialId, count).passkeys == s.passkeys;
  }

  lemma RevokeTwice(tokens: TokenTable, userId: string)
    ensures Revoke(Revoke(tokens, userId), userId) == Revoke(tokens, userId)
  {
  }

  /** With the index exact, looking a user up is scanning for the identifier hash. */
  lemma LookupIsScan(s: Store, ih: string, u: User)
    requires IndexInverse(s)
    ensures UserByIdentifierHash(s, ih) == Some(u) <==> u.id in s.users && s.users[u.id] == u && u.identifierHash == ih
  {
  }

  /** Creating a user keeps the index exact precisely when the row id is new. */
  lemma CreateUserKeepsIndex(s: Store, u: User)
    requires IndexInverse(s) && u.identifierHash !in s.byIDHash
    ensures IndexInverse(CreateUserIn(s, u).0) <==> u.id !in s.users
  {
    var t := CreateUserIn(s, u).0;
    if u.id in s.users {
      var ih := s.users[u.id].identifierHash;
      assert ih in t.byIDHash && t.byIDHash[ih] == u.id;
    } else {
      assert forall ih :: ih in s.byIDHash ==> s.byIDHash[ih] != u.id;
    }
  }

  /** Deleting an account removes exactly the rows that name the user; every other row
      keeps its value, and the audit list its order. */
  lemma DeleteAccountExact(s: Store, userId: string)
    requires IndexInverse(s) && userId in s.users
    ensures var t := DeleteAccountIn(s, userId);
            && IndexInverse(t)
            && t.users == (map id | id in s.users && id != userId :: s.users[id])
            && t.byIDHash == (map ih | ih in s.byIDHash && s.byIDHash[ih] != userId :: s.byIDHash[ih])
            && (forall id :: id in t.ciphers <==> id in s.ciphers && s.ciphers[id].userId != userId)
            && (forall id :: id in t.ciphers ==> t.ciphers[id] == s.ciphers[id])
            && (forall h :: h in t.refresh <==> h in s.refresh && s.refresh[h].userId != userId)
            && (forall h :: h in t.refresh ==> t.refresh[h] == s.refresh[h])
            && (forall id :: id in t.passkeys <==> id in s.passkeys && s.passkeys[id].userId != userId)
            && (forall id :: id in t.passkeys ==> t.passkeys[id] == s.passkeys[id])
            && (forall id :: id in t.shares <==>
                  id in s.shares && userId != s.shares[id].ownerUserId && userId != s.shares[id].recipientUserId)
            && (forall id :: id in t.shares ==> t.shares[id] == s.shares[id])
            && t.audit == Filter((e: AuditEvent) => e.userId != userId, s.audit)
  {
    var t := DeleteAccountIn(s, userId);
    var ih := s.users[userId].identifierHash;
    assert s.byIDHash[ih] == userId;
    forall k | k in s.byIDHash ensures k == ih <==> s.byIDHash[k] == userId { }
  }
}
