/** Runs of the server: sequences of requests handled one after the other, from the
    empty state, with a clock that never goes back. */
module ServerRuns {
  import opened Prelude
  import opened Storage
  import opened ServerSpec

  datatype Timed = Timed(now: Time, r: Request)

  type Trace = seq<Timed>

  /** The state before step k. */
  function StateAt(env: Env, run: Trace, k: nat): State
    requires Sound(env) && k <= |run|
  {
    if k == 0 then INITIAL else Step(env, StateAt(env, run, k - 1), run[k - 1].now, run[k - 1].r).0
  }

  function OutcomeAt(env: Env, run: Trace, k: nat): Outcome
    requires Sound(env) && k < |run|
  {
    Step(env, StateAt(env, run, k), run[k].now, run[k].r).1
  }

  function OutcomesOf(env: Env, run: Trace): (outcomes: seq<Outcome>)
    requires Sound(env)
    ensures |outcomes| == |run|
  {
    seq(|run|, k requires 0 <= k < |run| => OutcomeAt(env, run, k))
  }

  /** Step k goes from one of the states to the next, with the answer. */
  ghost predicate StepsTo(env: Env, run: Trace, states: seq<State>, answers: seq<Outcome>, k: nat)
    requires Sound(env)
  {
    && k < |run| && k + 1 < |states| && k < |answers|
    && Step(env, states[k], run[k].now, run[k].r) == (states[k + 1], answers[k])
  }

  lemma StepAt(env: Env, run: Trace, k: nat)
    requires Sound(env) && k < |run|
    ensures Step(env, StateAt(env, run, k), run[k].now, run[k].r) == (StateAt(env, run, k + 1), OutcomeAt(env, run, k))
  {
  }

  ghost predicate Monotone(run: Trace) {
    forall i, j :: 0 <= i < j < |run| ==> run[i].now <= run[j].now
  }

  // --- what a request draws at random ----------------------------------------

  function DrawnToken(r: Request): Option<string> {
    match r
    case Login(_, _, _, token) => token
    case Refresh(_, token) => token
    case RecoveryComplete(_, _, _, _, _, _, token) => token
    case PasskeyLoginFinish(_, _, _, _, token) => token
    case _ => None
  }

  function DrawnHandle(r: Request): Option<string> {
    match r
    case PasskeyRegisterBegin(_, handle, _) => Some(handle)
    case PasskeyLoginBegin(_, _, handle, _) => Some(handle)
    case _ => None
  }

  function DrawnUserId(r: Request): Option<string> {
    if r.Register? then Some(r.id) else None
  }

  ghost predicate FreshTokens(env: Env, run: Trace) {
    forall i, j :: 0 <= i < j < |run| && DrawnToken(run[i].r).Some? && DrawnToken(run[j].r).Some?
      ==> env.hashToken(DrawnToken(run[i].r).value) != env.hashToken(DrawnToken(run[j].r).value)
  }

  ghost predicate FreshHandles(run: Trace) {
    forall i, j :: 0 <= i < j < |run| && DrawnHandle(run[i].r).Some? ==> DrawnHandle(run[i].r) != DrawnHandle(run[j].r)
  }

  ghost predicate FreshUserIds(run: Trace) {
    forall i, j :: 0 <= i < j < |run| && DrawnUserId(run[i].r).Some? ==> DrawnUserId(run[i].r) != DrawnUserId(run[j].r)
  }

  // --- the store's invariants ------------------------------------------------

  /** The same accounts, under the same identifier hashes. */
  ghost predicate SameAccounts(s: Store, t: Store) {
    && t.byIDHash == s.byIDHash && t.users.Keys == s.users.Keys
    && forall id :: id in s.users ==>
        t.users[id].id == s.users[id].id && t.users[id].identifierHash == s.users[id].identifierHash
  }

  lemma EditKeepsAccounts(s: Store, id: string, u: User)
    requires id in s.users && u.id == s.users[id].id && u.identifierHash == s.users[id].identifierHash
    ensures SameAccounts(s, s.(users := s.users[id := u]))
  {
  }

  lemma EditsKeepAccounts(s: Store, now: Time, c: AccountChange)
    requires !c.Created? && !c.Erased?
    ensures SameAccounts(s, ApplyAccounts(s, now, c))
  {
    if !c.KeepAccounts? && c.userId in s.users {
      EditKeepsAccounts(s, c.userId, ApplyAccounts(s, now, c).users[c.userId]);
    }
  }

  lemma SameAccountsKept(s: Store, t: Store)
    requires IndexInverse(s) && SameAccounts(s, t)
    ensures IndexInverse(t) && forall id :: id in t.users ==> id in s.users
  {
  }

  lemma IndexKept(s: Store, now: Time, c: AccountChange)
    requires IndexInverse(s)
    requires c.Created? ==> c.user.id !in s.users
    ensures IndexInverse(ApplyAccounts(s, now, c))
    ensures forall id :: id in ApplyAccounts(s, now, c).users ==> id in s.users || (c.Created? && id == c.user.id)
  {
    if c.Created? {
      if c.user.identifierHash !in s.byIDHash {
        CreateUserKeepsIndex(s, c.user);
      }
    } else if c.Erased? {
      if c.userId in s.users {
        DeleteAccountExact(s, c.userId);
      }
    } else {
      EditsKeepAccounts(s, now, c);
      SameAccountsKept(s, ApplyAccounts(s, now, c));
    }
  }

  lemma CredentialsKept(m: PasskeyTable, now: Time, c: PasskeyChange)
    requires Distinct(m)
    requires c.Enrolled? ==> forall id :: id in m ==> m[id].credentialId != c.passkey.credentialId
    ensures Distinct(ApplyPasskeys(m, now, c))
  {
  }

  lemma TokenKeysKept(m: TokenTable, c: SessionChange)
    requires Keyed(m)
    ensures Keyed(ApplySessions(m, c))
  {
  }

  lemma DecidedCreation(env: Env, s: State, now: Time, r: Request)
    requires Sound(env)
    ensures var c := Decide(env, s, now, r).0.accounts; c.Created? ==> DrawnUserId(r) == Some(c.user.id)
  {
  }

  lemma DecidedEnrolment(env: Env, s: State, now: Time, r: Request)
    requires Sound(env)
    ensures var c := Decide(env, s, now, r).0.passkeys; c.Enrolled? ==> !HasCredential(s.store, c.passkey.credentialId)
  {
  }

  lemma OnlyErasureDeletes(s: Store, now: Time, c: AccountChange)
    requires !c.Erased?
    ensures var a := ApplyAccounts(s, now, c); a.refresh == s.refresh && a.passkeys == s.passkeys
  {
  }

  /** Erasing an account drops rows of both tables, and changes none. */
  lemma AccountsNarrow(s: Store, now: Time, c: AccountChange)
    ensures var a := ApplyAccounts(s, now, c);
            && (forall h :: h in a.refresh ==> h in s.refresh && a.refresh[h] == s.refresh[h])
            && (forall id :: id in a.passkeys ==> id in s.passkeys && a.passkeys[id] == s.passkeys[id])
  {
    if !c.Erased? {
      OnlyErasureDeletes(s, now, c);
    }
  }

  lemma StepKeepsIndex(env: Env, s: State, now: Time, r: Request)
    requires Sound(env) && IndexInverse(s.store)
    requires r.Register? ==> r.id !in s.store.users
    ensures var t := Step(env, s, now, r).0.store;
            IndexInverse(t) && forall id :: id in t.users ==> id in s.store.users || DrawnUserId(r) == Some(id)
  {
    var c := Decide(env, s, now, r).0;
    DecidedCreation(env, s, now, r);
    IndexKept(s.store, now, c.accounts);
  }

  lemma StepKeepsTables(env: Env, s: State, now: Time, r: Request)
    requires Sound(env)
    ensures UniqueCredentials(s.store) ==> UniqueCredentials(Step(env, s, now, r).0.store)
    ensures TokenKeys(s.store) ==> TokenKeys(Step(env, s, now, r).0.store)
  {
    var c := Decide(env, s, now, r).0;
    var a := ApplyAccounts(s.store, now, c.accounts);
    AccountsNarrow(s.store, now, c.accounts);
    if UniqueCredentials(s.store) {
      DecidedEnrolment(env, s, now, r);
      CredentialsKept(a.passkeys, now, c.passkeys);
    }
    if TokenKeys(s.store) {
      TokenKeysKept(a.refresh, c.sessions);
    }
  }

  /** One step of a run, on the invariant, for the user id it may draw. */
  ghost predicate Keeps(s: Store, t: Store, id: Option<string>) {
    StoreInv(s) && (id.Some? ==> id.value !in s.users) ==>
      StoreInv(t) && forall u :: u in t.users ==> u in s.users || id == Some(u)
  }

  ghost predicate Drawn(ids: seq<Option<string>>, k: nat, id: string) {
    exists i :: 0 <= i < k <= |ids| && ids[i] == Some(id)
  }

  lemma {:induction false} InvAlong(stores: seq<Store>, ids: seq<Option<string>>, k: nat)
    requires |stores| == |ids| + 1 && stores[0] == EMPTY && k <= |ids|
    requires forall i {:trigger ids[i]} :: 0 <= i < |ids| ==> Keeps(stores[i], stores[i + 1], ids[i])
    requires forall i, j :: 0 <= i < j < |ids| && ids[i].Some? ==> ids[i] != ids[j]
    ensures StoreInv(stores[k]) && forall id :: id in stores[k].users ==> Drawn(ids, k, id)
  {
    if k > 0 {
      InvAlong(stores, ids, k - 1);
      assert Keeps(stores[k - 1], stores[k - 1 + 1], ids[k - 1]);
      forall id | id in stores[k].users ensures Drawn(ids, k, id) {
        if ids[k - 1] != Some(id) {
          var i :| 0 <= i < k - 1 && ids[i] == Some(id);
        }
      }
    }
  }

  function StoreAt(env: Env, run: Trace, k: nat): Store
    requires Sound(env) && k <= |run|
  {
    StateAt(env, run, k).store
  }

  lemma StepKeeps(env: Env, run: Trace, k: nat)
    requires Sound(env) && k < |run|
    ensures Keeps(StoreAt(env, run, k), StoreAt(env, run, k + 1), DrawnUserId(run[k].r))
  {
    var s, step := StateAt(env, run, k), run[k];
    if StoreInv(s.store) && (DrawnUserId(step.r).Some? ==> DrawnUserId(step.r).value !in s.store.users) {
      StepKeepsIndex(env, s, step.now, step.r);
      StepKeepsTables(env, s, step.now, step.r);
    }
  }

  ghost predicate Registered(run: Trace, k: nat, id: string) {
    exists i :: 0 <= i < k <= |run| && DrawnUserId(run[i].r) == Some(id)
  }

  function DrawnIds(run: Trace): (ids: seq<Option<string>>)
    ensures |ids| == |run| && forall i :: 0 <= i < |run| ==> ids[i] == DrawnUserId(run[i].r)
  {
    seq(|run|, i requires 0 <= i < |run| => DrawnUserId(run[i].r))
  }

  lemma DrawnIsRegistered(run: Trace, k: nat, id: string)
    requires Drawn(DrawnIds(run), k, id)
    ensures Registered(run, k, id)
  {
    var i :| 0 <= i < k <= |run| && DrawnIds(run)[i] == Some(id);
  }

  lemma StoresKeep(env: Env, run: Trace, stores: seq<Store>)
    requires Sound(env) && |stores| == |run| + 1
    requires forall i {:trigger stores[i]} :: 0 <= i <= |run| ==> stores[i] == StoreAt(env, run, i)
    ensures forall i {:trigger run[i]} :: 0 <= i < |run| ==> Keeps(stores[i], stores[i + 1], DrawnUserId(run[i].r))
  {
    forall i {:trigger run[i]} | 0 <= i < |run| ensures Keeps(stores[i], stores[i + 1], DrawnUserId(run[i].r)) {
      StepKeeps(env, run, i);
    }
  }

  lemma InvAt(run: Trace, stores: seq<Store>, k: nat)
    requires FreshUserIds(run) && |stores| == |run| + 1 && stores[0] == EMPTY && k <= |run|
    requires forall i {:trigger run[i]} :: 0 <= i < |run| ==> Keeps(stores[i], stores[i + 1], DrawnUserId(run[i].r))
    ensures StoreInv(stores[k]) && forall id :: id in stores[k].users ==> Registered(run, k, id)
  {
    var ids := DrawnIds(run);
    assert forall i {:trigger ids[i]} :: 0 <= i < |ids| ==> Keeps(stores[i], stores[i + 1], DrawnUserId(run[i].r));
    InvAlong(stores, ids, k);
    forall id | id in stores[k].users ensures Registered(run, k, id) {
      DrawnIsRegistered(run, k, id);
    }
  }

  /** In every state reached with fresh user ids the index is exact, credential ids are
      unique and tokens are kept under their hash; so by `LookupIsScan` a lookup is a
      scan, and by `SignCountDetermined` no map order shows. */
  lemma StoreInvAlways(env: Env, run: Trace, k: nat)
    requires Sound(env) && FreshUserIds(run) && k <= |run|
    ensures StoreInv(StoreAt(env, run, k))
    ensures forall id :: id in StoreAt(env, run, k).users ==> Registered(run, k, id)
  {
    var stores := seq(|run| + 1, i requires 0 <= i <= |run| => StoreAt(env, run, i));
    StoresKeep(env, run, stores);
    InvAt(run, stores, k);
  }
}
