/** The fixed-window rate limiter of backend/internal/server/middleware.go. Times
    and durations are integers (nanoseconds). */
module RateLimit {
  import opened Prelude
  import opened Counting

  datatype Window = Window(count: int, resetAt: int)

  type Counters = map<string, Window>

  /** What `allow` does to the counters, and what it answers. */
  function Allowed(limit: int, window: int, counters: Counters, now: int, key: string): (Counters, bool) {
    if key !in counters || now > counters[key].resetAt then (counters[key := Window(1, now + window)], true)
    else if counters[key].count >= limit then (counters, false)
    else (counters[key := counters[key].(count := counters[key].count + 1)], true)
  }

  class RateLimiter {
    const limit: int
    const window: int
    var counters: Counters

    constructor (limit: int, window: int)
      ensures this.limit == limit && this.window == window && counters == map[]
    {
      this.limit, this.window, counters := limit, window, map[];
    }

    method Allow(now: int, key: string) returns (ok: bool)
      modifies this
      ensures (counters, ok) == Allowed(limit, window, old(counters), now, key)
    {
      if key !in counters || now > counters[key].resetAt {
        counters := counters[key := Window(1, now + window)];
        return true;
      }
      var e := counters[key];
      if e.count >= limit {
        return false;
      }
      counters := counters[key := e.(count := e.count + 1)];
      return true;
    }
  }

  // --- whole call sequences --------------------------------------------------

  /** The counters after a call sequence, and the calls let through. */
  function Run(limit: int, window: int, calls: seq<Mark>): (Counters, seq<Mark>) {
    if calls == [] then (map[], [])
    else
      var (counters, passed) := Run(limit, window, calls[..|calls| - 1]);
      var last := calls[|calls| - 1];
      var (next, ok) := Allowed(limit, window, counters, last.now, last.key);
      (next, if ok then passed + [last] else passed)
  }

  ghost predicate Monotone(calls: seq<Mark>) {
    forall i, j :: 0 <= i < j < |calls| ==> calls[i].now <= calls[j].now
  }

  /** The limiter lets the first call of a window through even at limit 0. */
  function Cap(limit: int): nat {
    Max(1, limit)
  }

  /** The call finds no window of its key, or one that is over. */
  predicate OpensWindow(counters: Counters, c: Mark) {
    c.key !in counters || c.now > counters[c.key].resetAt
  }

  /** The current window holds `count` passed calls, and an instant from which one can
      still reach into the window has at most one earlier window after it. */
  ghost predicate Tracked(limit: int, window: int, counters: Counters, passed: seq<Mark>, key: string) {
    if key !in counters then forall a :: Since(passed, key, a) == 0
    else
      var w := counters[key];
      var start := w.resetAt - window;
      && 1 <= w.count <= Cap(limit)
      && Since(passed, key, start) == w.count
      && (forall a :: a >= start ==> Since(passed, key, a) <= w.count)
      && (forall a :: a > w.resetAt ==> Since(passed, key, a) == 0)
      && (forall a :: a + window >= start ==> Since(passed, key, a) <= w.count + Cap(limit))
  }

  ghost predicate Bounded(limit: int, window: int, passed: seq<Mark>, key: string) {
    forall a, b :: b <= a + window ==> Between(passed, key, a, b) <= 2 * Cap(limit)
  }

  lemma AllowTracked(limit: int, window: int, counters: Counters, passed: seq<Mark>, c: Mark)
    requires window >= 0 && NoneAfter(passed, c.now)
    requires Tracked(limit, window, counters, passed, c.key)
    requires Allowed(limit, window, counters, c.now, c.key).1
    ensures Tracked(limit, window, Allowed(limit, window, counters, c.now, c.key).0, passed + [c], c.key)
  {
    Append(passed, c, c.key);
    if c.key in counters && c.now <= counters[c.key].resetAt {
      SinceLater(passed, c.key, counters[c.key].resetAt - window, c.now);
    }
  }

  lemma AllowBounded(limit: int, window: int, counters: Counters, passed: seq<Mark>, c: Mark)
    requires window >= 0 && NoneAfter(passed, c.now)
    requires Tracked(limit, window, counters, passed + [c], c.key) && c.key in counters
    requires counters[c.key].resetAt - window <= c.now
    requires Bounded(limit, window, passed, c.key)
    ensures Bounded(limit, window, passed + [c], c.key)
  {
    Append(passed, c, c.key);
    forall a, b | b <= a + window && a <= c.now <= b
      ensures Between(passed + [c], c.key, a, b) <= 2 * Cap(limit)
    {
      BetweenIsSince(passed + [c], c.key, a, b);
    }
  }

  lemma AllowKeeps(limit: int, window: int, counters: Counters, passed: seq<Mark>, c: Mark, key: string)
    requires window >= 0 && NoneAfter(passed, c.now)
    requires Tracked(limit, window, counters, passed, key) && Bounded(limit, window, passed, key)
    ensures var (next, ok) := Allowed(limit, window, counters, c.now, c.key);
            var passed' := if ok then passed + [c] else passed;
            Tracked(limit, window, next, passed', key) && Bounded(limit, window, passed', key)
  {
    var (next, ok) := Allowed(limit, window, counters, c.now, c.key);
    if ok && c.key == key {
      AllowTracked(limit, window, counters, passed, c);
      SinceLater(passed + [c], key, next[key].resetAt - window, c.now);
      AllowBounded(limit, window, next, passed, c);
    } else {
      Append(passed, c, key);
    }
  }

  lemma {:induction false} PassedBefore(limit: int, window: int, calls: seq<Mark>, now: int)
    requires NoneAfter(calls, now)
    ensures NoneAfter(Run(limit, window, calls).1, now)
  {
    if calls != [] {
      assert calls[|calls| - 1] in calls;
      PassedBefore(limit, window, calls[..|calls| - 1], now);
    }
  }

  lemma {:induction false} RunKeeps(limit: int, window: int, calls: seq<Mark>, key: string)
    requires window >= 0 && Monotone(calls)
    ensures var (counters, passed) := Run(limit, window, calls);
            Tracked(limit, window, counters, passed, key) && Bounded(limit, window, passed, key)
  {
    if calls != [] {
      var before, last := calls[..|calls| - 1], calls[|calls| - 1];
      RunKeeps(limit, window, before, key);
      var (counters, passed) := Run(limit, window, before);
      PassedBefore(limit, window, before, last.now);
      AllowKeeps(limit, window, counters, passed, last, key);
    }
  }

  // --- each window -----------------------------------------------------------

  /** Of the window opened at `start`: while it lasts it holds `count` calls, and after
      it no call falls into it. */
  ghost predicate WindowHolds(limit: int, window: int, counters: Counters, passed: seq<Mark>, key: string, start: int) {
    && key in counters && counters[key].resetAt >= start + window
    && (counters[key].resetAt > start + window ==> counters[key].resetAt - window > start + window)
    && Between(passed, key, start, start + window) <= Cap(limit)
    && (counters[key].resetAt == start + window ==>
        Between(passed, key, start, start + window) == counters[key].count <= Cap(limit))
  }

  lemma WindowOpens(limit: int, window: int, counters: Counters, passed: seq<Mark>, c: Mark)
    requires window >= 0 && Tracked(limit, window, counters, passed, c.key) && NoneAfter(passed, c.now)
    requires OpensWindow(counters, c)
    ensures WindowHolds(limit, window, Allowed(limit, window, counters, c.now, c.key).0, passed + [c], c.key, c.now)
  {
    Append(passed, c, c.key);
    BetweenIsSince(passed, c.key, c.now, c.now + window);
  }

  lemma WindowKept(limit: int, window: int, counters: Counters, passed: seq<Mark>, c: Mark, key: string, start: int)
    requires window >= 0 && start <= c.now && WindowHolds(limit, window, counters, passed, key, start)
    requires counters[key].resetAt > start + window ==> counters[key].resetAt - window <= c.now
    ensures var (next, ok) := Allowed(limit, window, counters, c.now, c.key);
            WindowHolds(limit, window, next, if ok then passed + [c] else passed, key, start)
  {
    Append(passed, c, key);
  }

  /** No window starts after the last call. */
  lemma {:induction false} WindowsStarted(limit: int, window: int, calls: seq<Mark>, key: string)
    requires Monotone(calls)
    ensures var counters := Run(limit, window, calls).0;
            key in counters ==> calls != [] && counters[key].resetAt - window <= calls[|calls| - 1].now
  {
    if calls != [] {
      WindowsStarted(limit, window, calls[..|calls| - 1], key);
    }
  }

  lemma {:induction false} WindowCounted(limit: int, window: int, calls: seq<Mark>, k: nat)
    requires window >= 0 && Monotone(calls) && k < |calls|
    requires OpensWindow(Run(limit, window, calls[..k]).0, calls[k])
    ensures var (counters, passed) := Run(limit, window, calls);
            WindowHolds(limit, window, counters, passed, calls[k].key, calls[k].now)
  {
    var before, last := calls[..|calls| - 1], calls[|calls| - 1];
    var (counters, passed) := Run(limit, window, before);
    RunKeeps(limit, window, before, calls[k].key);
    PassedBefore(limit, window, before, last.now);
    if k == |calls| - 1 {
      WindowOpens(limit, window, counters, passed, last);
    } else {
      assert before[..k] == calls[..k];
      WindowCounted(limit, window, before, k);
      WindowsStarted(limit, window, before, calls[k].key);
      WindowKept(limit, window, counters, passed, last, calls[k].key, calls[k].now);
    }
  }

  /** For every call sequence with a non-decreasing clock: at most `limit` calls of a
      key pass in each window that a call of it opens, and at most twice that in any
      closed interval as long as a window. */
  lemma LimiterBounds(limit: int, window: int, calls: seq<Mark>)
    requires window >= 0 && Monotone(calls)
    ensures var passed := Run(limit, window, calls).1;
            && (forall k :: 0 <= k < |calls| && OpensWindow(Run(limit, window, calls[..k]).0, calls[k])
                  ==> Between(passed, calls[k].key, calls[k].now, calls[k].now + window) <= Cap(limit))
            && (forall key, a, b :: b <= a + window ==> Between(passed, key, a, b) <= 2 * Cap(limit))
  {
    var passed := Run(limit, window, calls).1;
    forall k | 0 <= k < |calls| && OpensWindow(Run(limit, window, calls[..k]).0, calls[k])
      ensures Between(passed, calls[k].key, calls[k].now, calls[k].now + window) <= Cap(limit)
    {
      WindowCounted(limit, window, calls, k);
    }
    forall key, a, b | b <= a + window ensures Between(passed, key, a, b) <= 2 * Cap(limit) {
      RunKeeps(limit, window, calls, key);
    }
  }

  // --- which calls are refused -----------------------------------------------

  /** The call that opened the current window of a key. */
  lemma {:induction false} LastOpening(limit: int, window: int, calls: seq<Mark>, key: string) returns (k: nat)
    requires key in Run(limit, window, calls).0
    ensures k < |calls| && calls[k].key == key && OpensWindow(Run(limit, window, calls[..k]).0, calls[k])
    ensures Run(limit, window, calls).0[key].resetAt == calls[k].now + window
  {
    var before, last := calls[..|calls| - 1], calls[|calls| - 1];
    if last.key == key && OpensWindow(Run(limit, window, before).0, last) {
      k := |calls| - 1;
    } else {
      k := LastOpening(limit, window, before, key);
      assert before[..k] == calls[..k];
    }
  }

  lemma {:induction false} BetweenAll(passed: seq<Mark>, key: string, lo: int, now: int, hi: int)
    requires NoneAfter(passed, now) && now <= hi
    ensures Between(passed, key, lo, hi) == Between(passed, key, lo, now)
  {
    BetweenIsSince(passed, key, lo, now);
    BetweenIsSince(passed, key, lo, hi);
  }

  /** In the window opened at step k, while it lasts: its count is the calls passed. */
  lemma LiveWindow(limit: int, window: int, calls: seq<Mark>, c: Mark, k: nat)
    requires window >= 0 && Monotone(calls) && NoneAfter(calls, c.now) && k < |calls| && calls[k].key == c.key
    requires OpensWindow(Run(limit, window, calls[..k]).0, calls[k]) && c.now <= calls[k].now + window
    ensures var (counters, passed) := Run(limit, window, calls);
            && c.key in counters && counters[c.key].resetAt == calls[k].now + window
            && counters[c.key].count == Between(passed, c.key, calls[k].now, c.now)
  {
    var passed := Run(limit, window, calls).1;
    WindowCounted(limit, window, calls, k);
    WindowsStarted(limit, window, calls, c.key);
    assert calls[|calls| - 1] in calls;
    PassedBefore(limit, window, calls, c.now);
    BetweenAll(passed, c.key, calls[k].now, c.now, calls[k].now + window);
  }

  /** A call is refused exactly when a window of its key is still open and `limit` calls
      of the key have passed since the window was opened. */
  lemma RefusedExactly(limit: int, window: int, calls: seq<Mark>, c: Mark)
    requires window >= 0 && Monotone(calls) && NoneAfter(calls, c.now)
    ensures var (counters, passed) := Run(limit, window, calls);
            !Allowed(limit, window, counters, c.now, c.key).1
            <==> exists k :: && 0 <= k < |calls| && calls[k].key == c.key
                             && OpensWindow(Run(limit, window, calls[..k]).0, calls[k])
                             && c.now <= calls[k].now + window
                             && Between(passed, c.key, calls[k].now, c.now) >= limit
  {
    var (counters, passed) := Run(limit, window, calls);
    if !Allowed(limit, window, counters, c.now, c.key).1 {
      var k := LastOpening(limit, window, calls, c.key);
      LiveWindow(limit, window, calls, c, k);
    }
    forall k | 0 <= k < |calls| && calls[k].key == c.key && OpensWindow(Run(limit, window, calls[..k]).0, calls[k])
               && c.now <= calls[k].now + window && Between(passed, c.key, calls[k].now, c.now) >= limit
      ensures !Allowed(limit, window, counters, c.now, c.key).1
    {
      LiveWindow(limit, window, calls, c, k);
    }
  }
}
