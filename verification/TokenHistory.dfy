/** The refresh-token table of backend/internal/storage/memory.go by itself, under any
    sequence of the changes the handlers make to it. */
module TokenHistory {
  import opened Prelude
  import opened Storage
  import opened ServerSpec

  datatype TokenStep = TokenStep(now: Time, change: SessionChange)

  type History = seq<TokenStep>

  function Kept(h: History, k: nat): TokenTable
    requires k <= |h|
  {
    if k == 0 then map[] else ApplySessions(Kept(h, k - 1), h[k - 1].change)
  }

  lemma {:induction false} KeptIs(h: History, tables: seq<TokenTable>, k: nat)
    requires |tables| == |h| + 1 && tables[0] == map[] && k <= |h|
    requires forall i {:trigger h[i]} :: 0 <= i < |h| ==> tables[i + 1] == ApplySessions(tables[i], h[i].change)
    ensures tables[k] == Kept(h, k)
  {
    if k > 0 {
      KeptIs(h, tables, k - 1);
    }
  }

  /** The token a change stores. */
  function NewOf(c: SessionChange): Option<RefreshToken> {
    match c
    case Opened(rt) => Some(rt)
    case Rotated(_, rt) => Some(rt)
    case Replaced(_, rt) => Some(rt)
    case _ => None
  }

  predicate Redeemable(m: TokenTable, now: Time, hash: string) {
    hash in m && !m[hash].used && now <= m[hash].expiresAt
  }

  /** When the handlers make each change. */
  predicate Permitted(m: TokenTable, now: Time, c: SessionChange) {
    && (c.Rotated? ==> Redeemable(m, now, c.parent) && m[c.parent].userId == c.rt.userId)
    && (c.Spent? ==> Redeemable(m, now, c.hash))
    && (c.Expired? ==> c.hash in m && now > m[c.hash].expiresAt)
    && (c.Replaced? ==> c.rt.userId == c.userId)
    && (NewOf(c).Some? ==>
          && NewOf(c).value.createdAt == now && NewOf(c).value.expiresAt == now + REFRESH_TTL
          && !NewOf(c).value.used)
  }

  ghost predicate Stores(h: History, i: nat, rt: RefreshToken) {
    i < |h| && NewOf(h[i].change) == Some(rt)
  }

  ghost predicate Genuine(h: History) {
    && (forall k {:trigger Kept(h, k)} :: 0 <= k < |h| ==> Permitted(Kept(h, k), h[k].now, h[k].change))
    && (forall i, j, a, b :: Stores(h, i, a) && Stores(h, j, b) && a.tokenHash == b.tokenHash ==> i == j)
  }

  // --- where a token comes from ----------------------------------------------

  /** A token kept after a change is the one it stores, or was kept before it with the
      same owner and dates. */
  lemma Origin(m: TokenTable, c: SessionChange, hash: string)
    requires hash in ApplySessions(m, c)
    ensures var rt := ApplySessions(m, c)[hash];
            || (NewOf(c) == Some(rt) && hash == rt.tokenHash)
            || (hash in m && rt.(used := m[hash].used) == m[hash] && (m[hash].used ==> rt.used))
  {
  }

  ghost predicate StoredBefore(h: History, k: nat, hash: string, rt: RefreshToken) {
    rt.tokenHash == hash && exists i :: 0 <= i < k && Stores(h, i, rt)
  }

  lemma {:induction false} TokensWereStored(h: History, k: nat, hash: string)
    requires Genuine(h) && k <= |h| && hash in Kept(h, k)
    ensures StoredBefore(h, k, hash, Kept(h, k)[hash].(used := false))
  {
    var m, c := Kept(h, k - 1), h[k - 1].change;
    Origin(m, c, hash);
    if hash in m && Kept(h, k)[hash].(used := false) == m[hash].(used := false) {
      TokensWereStored(h, k - 1, hash);
    } else {
      assert Stores(h, k - 1, Kept(h, k)[hash]);
    }
  }

  // --- at most one redemption ------------------------------------------------

  predicate Dead(m: TokenTable, hash: string) {
    hash !in m || m[hash].used
  }

  /** A token stored earlier that is used or gone stays so; one that is gone stays
      gone. */
  lemma {:induction false} StaysDead(h: History, i: nat, rt: RefreshToken, j: nat, k: nat)
    requires Genuine(h) && Stores(h, i, rt) && i < j <= k <= |h|
    ensures Dead(Kept(h, j), rt.tokenHash) ==> Dead(Kept(h, k), rt.tokenHash)
    ensures rt.tokenHash !in Kept(h, j) ==> rt.tokenHash !in Kept(h, k)
  {
    if j < k {
      StaysDead(h, i, rt, j, k - 1);
      var c := h[k - 1].change;
      assert NewOf(c).Some? ==> Stores(h, k - 1, NewOf(c).value);
      if rt.tokenHash in Kept(h, k) {
        Origin(Kept(h, k - 1), c, rt.tokenHash);
      }
    }
  }

  predicate RedeemedAt(h: History, k: nat, hash: string) {
    k < |h| && h[k].change.Rotated? && h[k].change.parent == hash
  }

  lemma RedeemedOnce(h: History, i: nat, j: nat, hash: string)
    requires Genuine(h) && RedeemedAt(h, i, hash) && RedeemedAt(h, j, hash)
    ensures i == j
  {
    var a, b := if i <= j then i else j, if i <= j then j else i;
    if a < b {
      TokensWereStored(h, a, hash);
      var rt := Kept(h, a)[hash].(used := false);
      var first :| 0 <= first < a && Stores(h, first, rt);
      assert Stores(h, a, h[a].change.rt);
      assert Dead(Kept(h, a + 1), hash);
      StaysDead(h, first, rt, a + 1, b);
    }
  }

  // --- revocation ------------------------------------------------------------

  predicate RevokesAll(c: SessionChange, userId: string) {
    (c.Revoked? || c.Replaced?) && c.userId == userId
  }

  /** No token stored for a user before a revoke-all of the user is ever kept again. */
  lemma RevokedForGood(h: History, i: nat, rt: RefreshToken, k: nat, j: nat)
    requires Genuine(h) && Stores(h, i, rt) && i < k < j <= |h| && RevokesAll(h[k].change, rt.userId)
    ensures rt.tokenHash !in Kept(h, j)
  {
    var hash := rt.tokenHash;
    if hash in Kept(h, k) {
      TokensWereStored(h, k, hash);
      var kept := Kept(h, k)[hash].(used := false);
      var first :| 0 <= first < k && Stores(h, first, kept);
      assert first == i;
    }
    assert h[k].change.Replaced? ==> Stores(h, k, h[k].change.rt);
    assert hash !in Kept(h, k + 1);
    StaysDead(h, i, rt, k + 1, j);
  }

  // --- conservation ----------------------------------------------------------

  function Unused(m: TokenTable, userId: string): set<string> {
    set hash | hash in m && m[hash].userId == userId && !m[hash].used
  }

  /** A session opened for the user by an authentication, recovery included. */
  predicate Authenticates(c: SessionChange, userId: string) {
    (c.Opened? || c.Replaced?) && c.rt.userId == userId
  }

  /** An unused token of the user that goes without a successor: deleted as expired, or
      marked used when no successor could be generated. */
  predicate Loses(m: TokenTable, c: SessionChange, userId: string) {
    (c.Expired? || c.Spent?) && c.hash in Unused(m, userId)
  }

  function Authentications(h: History, from: nat, k: nat, userId: string): nat
    requires k <= |h|
  {
    if k <= from then 0
    else Authentications(h, from, k - 1, userId) + if Authenticates(h[k - 1].change, userId) then 1 else 0
  }

  function Losses(h: History, from: nat, k: nat, userId: string): nat
    requires k <= |h|
  {
    if k <= from then 0
    else Losses(h, from, k - 1, userId) + if Loses(Kept(h, k - 1), h[k - 1].change, userId) then 1 else 0
  }

  /** The last revoke-all of the user before step k, or the start of the run. */
  function LastRevocation(h: History, k: nat, userId: string): (last: nat)
    requires k <= |h|
    ensures last <= k
  {
    if k == 0 then 0 else if RevokesAll(h[k - 1].change, userId) then k - 1 else LastRevocation(h, k - 1, userId)
  }

  lemma NewIsAbsent(h: History, k: nat)
    requires Genuine(h) && k < |h|
    ensures NewOf(h[k].change).Some? ==> NewOf(h[k].change).value.tokenHash !in Kept(h, k)
  {
    if NewOf(h[k].change).Some? && NewOf(h[k].change).value.tokenHash in Kept(h, k) {
      var hash := NewOf(h[k].change).value.tokenHash;
      TokensWereStored(h, k, hash);
      var i :| 0 <= i < k && Stores(h, i, Kept(h, k)[hash].(used := false));
      assert Stores(h, k, NewOf(h[k].change).value);
    }
  }

  /** One change, on the unused tokens of a user. */
  function UnusedThen(unused: set<string>, c: SessionChange, userId: string): set<string> {
    var added := if NewOf(c).Some? && NewOf(c).value.userId == userId then {NewOf(c).value.tokenHash} else {};
    match c
    case Rotated(parent, _) => unused - {parent} + added
    case Spent(hash) => unused - {hash}
    case Expired(hash) => unused - {hash}
    case _ => if RevokesAll(c, userId) then added else unused + added
  }

  lemma UnusedStep(m: TokenTable, now: Time, c: SessionChange, userId: string)
    requires Permitted(m, now, c) && (NewOf(c).Some? ==> NewOf(c).value.tokenHash !in m)
    ensures Unused(ApplySessions(m, c), userId) == UnusedThen(Unused(m, userId), c, userId)
  {
  }

  lemma UnusedCount(m: TokenTable, now: Time, c: SessionChange, userId: string)
    requires Permitted(m, now, c) && (NewOf(c).Some? ==> NewOf(c).value.tokenHash !in m)
    ensures var unused := Unused(m, userId);
            |UnusedThen(unused, c, userId)|
            == (if RevokesAll(c, userId) then 0 else |unused|)
               + (if Authenticates(c, userId) then 1 else 0) - (if Loses(m, c, userId) then 1 else 0)
  {
    assert NewOf(c).Some? ==> NewOf(c).value.tokenHash !in Unused(m, userId);
  }

  lemma {:induction false} SessionsConserved(h: History, k: nat, userId: string)
    requires Genuine(h) && k <= |h|
    ensures var last := LastRevocation(h, k, userId);
            |Unused(Kept(h, k), userId)| == Authentications(h, last, k, userId) - Losses(h, last, k, userId)
  {
    if k == 0 {
      assert Unused(Kept(h, 0), userId) == {};
    } else {
      SessionsConserved(h, k - 1, userId);
      NewIsAbsent(h, k - 1);
      UnusedStep(Kept(h, k - 1), h[k - 1].now, h[k - 1].change, userId);
      UnusedCount(Kept(h, k - 1), h[k - 1].now, h[k - 1].change, userId);
    }
  }
}
