/** The passkey challenge store of backend/internal/server/handlers_webauthn.go. */
module Challenges {
  import opened Prelude

  datatype Challenge = Challenge(data: string, userId: string, expires: int)

  type Pending = map<string, Challenge>

  function Swept(m: Pending, now: int): Pending {
    map k | k in m && now <= m[k].expires :: m[k]
  }

  function Put(m: Pending, ttl: int, now: int, id: string, userId: string, data: string): Pending {
    Swept(m, now)[id := Challenge(data, userId, now + ttl)]
  }

  /** The entry leaves the store whether or not it is still alive. */
  function Take(m: Pending, now: int, id: string): (Pending, Option<Challenge>) {
    (m - {id}, if id in m && now <= m[id].expires then Some(m[id]) else None)
  }

  class ChallengeStore {
    const ttl: int
    var m: Pending

    constructor (ttl: int)
      ensures this.ttl == ttl && m == map[]
    {
      this.ttl, m := ttl, map[];
    }

    /** `id` is the random handle drawn for this entry. */
    method PutEntry(now: int, id: string, userId: string, data: string)
      modifies this
      ensures m == Put(old(m), ttl, now, id, userId, data)
    {
      Gc(now);
      m := m[id := Challenge(data, userId, now + ttl)];
    }

    method TakeEntry(now: int, id: string) returns (e: Option<Challenge>)
      modifies this
      ensures (m, e) == Take(old(m), now, id)
    {
      e := if id in m then Some(m[id]) else None;
      if e.Some? {
        m := m - {id};
      }
      assert m == old(m) - {id};
      if e.None? || now > e.value.expires { return None; }
    }

    method Gc(now: int)
      modifies this
      ensures m == Swept(old(m), now)
    {
      var todo := m.Keys;
      while todo != {}
        invariant todo <= old(m).Keys
        invariant m == map k | k in old(m) && (k in todo || now <= old(m)[k].expires) :: old(m)[k]
        decreases |todo|
      {
        var k :| k in todo;
        todo := todo - {k};
        if now > m[k].expires { m := m - {k}; }
      }
    }
  }
}
