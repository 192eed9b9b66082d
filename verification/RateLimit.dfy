// The rate limiter: internal/api/rate_limit.go. Instants and durations are integers.
module RateLimit {
  import opened Wrappers

  type Key = string

  datatype Bucket = Bucket(count: nat, windowStart: int)

  type Buckets = map<Key, Bucket>

  function Find(buckets: Buckets, key: Key): Option<Bucket>
  {
    if key in buckets then Some(buckets[key]) else None
  }

  /** The bucket after one more request; an expired window starts afresh. */
  function Hit(b: Option<Bucket>, window: int, now: int): Bucket
  {
    match b
    case None => Bucket(1, now)
    case Some(b) => if now - b.windowStart >= window then Bucket(1, now) else Bucket(b.count + 1, b.windowStart)
  }

  function Swept(buckets: Buckets, window: int, now: int): Buckets
  {
    map k | k in buckets && buckets[k].windowStart >= now - window :: buckets[k]
  }

  class RateLimiter {
    const limit: int
    const window: int
    var buckets: Buckets

    constructor (limit: int, window: int)
      ensures this.limit == limit && this.window == window && buckets == map[]
    {
      this.limit, this.window, buckets := limit, window, map[];
    }

    method AllowIfPossible(key: Key, now: int) returns (used: int, remaining: int, resetAt: int)
      modifies this
      ensures buckets == old(buckets)[key := Hit(Find(old(buckets), key), window, now)]
      ensures buckets[key] == if key in old(buckets) && now - old(buckets)[key].windowStart < window
                              then Bucket(old(buckets)[key].count + 1, old(buckets)[key].windowStart)
                              else Bucket(1, now)
      ensures used == buckets[key].count && resetAt == buckets[key].windowStart + window
      ensures remaining >= 0 && (remaining == 0 <==> used >= limit) && (remaining > 0 ==> used + remaining == limit)
    {
      var b := Bucket(0, now);
      if key in buckets {
        b := buckets[key];
      }
      if now - b.windowStart >= window {
        b := Bucket(0, now);
      }
      b := Bucket(b.count + 1, b.windowStart);
      buckets := buckets[key := b];
      remaining := limit - b.count;
      if remaining < 0 {
        remaining := 0;
      }
      resetAt := b.windowStart + window;
      used := b.count;
    }

    /** The middleware's decision: let the request through, or answer 429. */
    method Middleware(key: Key, now: int) returns (passes: bool)
      modifies this
      ensures buckets == old(buckets)[key := Hit(Find(old(buckets), key), window, now)]
      ensures passes <==> (if key in old(buckets) && now - old(buckets)[key].windowStart < window
                           then old(buckets)[key].count + 1 else 1) < limit
    {
      var used, remaining, resetAt := AllowIfPossible(key, now);
      passes := remaining != 0;
    }

    method Cleanup(now: int)
      modifies this
      ensures buckets == Swept(old(buckets), window, now)
      ensures forall k :: k in buckets <==> k in old(buckets) && now - old(buckets)[k].windowStart <= window
      ensures forall k :: k in buckets ==> buckets[k] == old(buckets)[k]
    {
      var cutoff := now - window;
      var rest := buckets.Keys;
      while rest != {}
        invariant rest <= old(buckets).Keys
        invariant buckets ==
                  map k | k in old(buckets) && (k in rest || old(buckets)[k].windowStart >= cutoff) :: old(buckets)[k]
        decreases rest
      {
        var k :| k in rest;
        rest := rest - {k};
        if buckets[k].windowStart < cutoff {
          buckets := buckets - {k};
        }
      }
    }
  }

  // ----- whole runs -----

  datatype Event = Request(key: Key, at: int) | Sweep(at: int)

  predicate TimesOrdered(es: seq<Event>)
  {
    forall i, j :: 0 <= i < j < |es| ==> es[i].at <= es[j].at
  }

  /** The buckets after a run of requests and cleanups. */
  function After(window: int, es: seq<Event>): Buckets
  {
    if es == [] then map[]
    else
      var before, e := After(window, es[..|es| - 1]), es[|es| - 1];
      match e
      case Request(k, t) => before[k := Hit(Find(before, k), window, t)]
      case Sweep(t) => Swept(before, window, t)
  }

  /** The same run without the cleanups. */
  function AfterUnswept(window: int, es: seq<Event>): Buckets
  {
    if es == [] then map[]
    else
      var before, e := AfterUnswept(window, es[..|es| - 1]), es[|es| - 1];
      match e
      case Request(k, t) => before[k := Hit(Find(before, k), window, t)]
      case Sweep(t) => before
  }

  /** Swept and unswept buckets agree up to windows that are over by `now`. */
  ghost predicate SameUpToExpired(swept: Buckets, unswept: Buckets, window: int, now: int)
  {
    && (forall k :: k in swept ==> k in unswept && swept[k] == unswept[k])
    && (forall k :: k in unswept && k !in swept ==> now - unswept[k].windowStart >= window)
  }

  lemma {:induction false} SweepsOnlyExpire(window: int, es: seq<Event>, now: int)
    requires TimesOrdered(es) && (es != [] ==> es[|es| - 1].at <= now)
    ensures SameUpToExpired(After(window, es), AfterUnswept(window, es), window, now)
  {
    if es != [] {
      var n := |es| - 1;
      SweepsOnlyExpire(window, es[..n], es[n].at);
    }
  }

  /** Cleanups are invisible: at any time a request meets the same count, window start and
      verdict as if no cleanup had ever run. */
  lemma CleanupsAreInvisible(window: int, es: seq<Event>, key: Key, now: int)
    requires TimesOrdered(es) && (es != [] ==> es[|es| - 1].at <= now)
    ensures Hit(Find(After(window, es), key), window, now) == Hit(Find(AfterUnswept(window, es), key), window, now)
  {
    SweepsOnlyExpire(window, es, now);
  }

  // ----- the rate bound -----

  predicate PassesNext(window: int, limit: int, es: seq<Event>, key: Key, now: int)
  {
    Hit(Find(After(window, es), key), window, now).count < limit
  }

  /** How many requests of `key` with an instant in [lo, lo + window) the middleware lets through. */
  function Passed(window: int, limit: int, es: seq<Event>, key: Key, lo: int): nat
  {
    if es == [] then 0
    else
      var init, e := es[..|es| - 1], es[|es| - 1];
      Passed(window, limit, init, key, lo) +
      if e.Request? && e.key == key && lo <= e.at < lo + window && PassesNext(window, limit, init, key, e.at)
      then 1 else 0
  }

  function Max(a: int, b: int): int
  {
    if a >= b then a else b
  }

  function Min(a: int, b: int): int
  {
    if a <= b then a else b
  }

  /** What the current bucket says about the requests let through in [lo, lo + window): windows
      are a window apart, so at most two of them reach into the interval, and of the earlier one
      the first request is missing. */
  predicate PassedBound(window: int, limit: int, b: Option<Bucket>, lo: int, passed: nat)
  {
    match b
    case None => passed == 0
    case Some(b) =>
      && b.count >= 1
      && (b.windowStart < lo ==> passed <= Max(0, Min(b.count, limit - 1) - 1))
      && (lo <= b.windowStart < lo + window ==> passed <= Max(0, limit - 2) + Max(0, Min(b.count, limit - 1)))
      && (lo + window <= b.windowStart ==> passed <= Max(0, limit - 2) + Max(0, limit - 1))
  }

  lemma BoundKept(window: int, limit: int, b: Option<Bucket>, lo: int, passed: nat, now: int)
    requires limit >= 1 && PassedBound(window, limit, b, lo, passed)
    requires b.Some? ==> b.value.windowStart <= now
    requires now < lo ==> passed == 0
    ensures var after := Hit(b, window, now);
            var counts := lo <= now < lo + window && after.count < limit;
            PassedBound(window, limit, Some(after), lo, passed + if counts then 1 else 0) && after.windowStart <= now
  {
  }

  lemma {:induction false} PassedIsBounded(window: int, limit: int, es: seq<Event>, key: Key, lo: int)
    requires TimesOrdered(es) && limit >= 1
    ensures PassedBound(window, limit, Find(AfterUnswept(window, es), key), lo, Passed(window, limit, es, key, lo))
    ensures key in AfterUnswept(window, es) ==> es != [] && AfterUnswept(window, es)[key].windowStart <= es[|es| - 1].at
    ensures es != [] && es[|es| - 1].at < lo ==> Passed(window, limit, es, key, lo) == 0
  {
    if es != [] {
      var n := |es| - 1;
      PassedIsBounded(window, limit, es[..n], key, lo);
      if es[n].Request? && es[n].key == key {
        CleanupsAreInvisible(window, es[..n], key, es[n].at);
        BoundKept(window, limit, Find(AfterUnswept(window, es[..n]), key), lo,
                  Passed(window, limit, es[..n], key, lo), es[n].at);
      }
    }
  }

  /** The rate bound: whatever the requests and cleanups, in any half-open interval of one
      window's length at most 2 * limit - 3 requests of a key pass (none when the limit is 1). */
  lemma RateBound(window: int, limit: int, es: seq<Event>, key: Key, lo: int)
    requires TimesOrdered(es) && limit >= 1
    ensures Passed(window, limit, es, key, lo) <= if limit == 1 then 0 else 2 * limit - 3
  {
    PassedIsBounded(window, limit, es, key, lo);
  }

  // ----- the bound is reached -----

  /** Nothing has happened after `at`. */
  predicate UpTo(es: seq<Event>, at: int)
  {
    TimesOrdered(es) && forall i :: 0 <= i < |es| ==> es[i].at <= at
  }

  lemma OneMoreCounts(window: int, limit: int, es: seq<Event>, key: Key, at: int, lo: int, b: Bucket)
    requires Find(After(window, es), key) == Some(b) && at - b.windowStart < window && lo <= at < lo + window
    requires b.count + 1 < limit
    ensures Find(After(window, es + [Request(key, at)]), key) == Some(Bucket(b.count + 1, b.windowStart))
    ensures Passed(window, limit, es + [Request(key, at)], key, lo) == Passed(window, limit, es, key, lo) + 1
  {
    assert (es + [Request(key, at)])[..|es|] == es;
  }

  /** The run with `n` more requests at one instant, all let through. */
  lemma {:induction false} Burst(window: int, limit: int, es: seq<Event>, key: Key, at: int, n: nat, lo: int, b: Bucket)
    returns (all: seq<Event>)
    requires Find(After(window, es), key) == Some(b) && at - b.windowStart < window && lo <= at < lo + window
    requires b.count + n < limit && UpTo(es, at)
    ensures Find(After(window, all), key) == Some(Bucket(b.count + n, b.windowStart)) && UpTo(all, at)
    ensures Passed(window, limit, all, key, lo) == Passed(window, limit, es, key, lo) + n
  {
    all := es;
    if n > 0 {
      all := Burst(window, limit, es, key, at, n - 1, lo, b);
      OneMoreCounts(window, limit, all, key, at, lo, Bucket(b.count + n - 1, b.windowStart));
      all := all + [Request(key, at)];
    }
  }

  lemma NextWindow(window: int, limit: int, es: seq<Event>, key: Key, now: int, lo: int, b: Bucket)
    requires Find(After(window, es), key) == Some(b) && now - b.windowStart >= window
    requires limit >= 2 && lo <= now < lo + window
    ensures Find(After(window, es + [Request(key, now)]), key) == Some(Bucket(1, now))
    ensures Passed(window, limit, es + [Request(key, now)], key, lo) == Passed(window, limit, es, key, lo) + 1
  {
  }

  lemma FirstRequest(window: int, limit: int, key: Key, lo: int)
    requires lo > 0
    ensures Find(After(window, [Request(key, 0)]), key) == Some(Bucket(1, 0))
    ensures Passed(window, limit, [Request(key, 0)], key, lo) == 0
  {
  }

  /** A window that starts at 0 and whose other requests all come at its end. */
  lemma FirstWindow(window: int, limit: int, key: Key) returns (es: seq<Event>)
    requires window >= 2 && limit >= 2
    ensures Find(After(window, es), key) == Some(Bucket(limit - 1, 0)) && UpTo(es, window - 1)
    ensures Passed(window, limit, es, key, window - 1) == limit - 2
  {
    var first := [Request(key, 0)];
    FirstRequest(window, limit, key, window - 1);
    es := Burst(window, limit, first, key, window - 1, limit - 2, window - 1, Bucket(1, 0));
  }

  /** The next one, all of whose requests come at its start. */
  lemma SecondWindow(window: int, limit: int, key: Key, es: seq<Event>) returns (all: seq<Event>)
    requires window >= 2 && limit >= 2 && Find(After(window, es), key) == Some(Bucket(limit - 1, 0))
    requires UpTo(es, window - 1)
    ensures Passed(window, limit, all, key, window - 1) == Passed(window, limit, es, key, window - 1) + limit - 1
    ensures TimesOrdered(all)
  {
    NextWindow(window, limit, es, key, window, window - 1, Bucket(limit - 1, 0));
    all := Burst(window, limit, es + [Request(key, window)], key, window, limit - 2, window - 1, Bucket(1, window));
  }

  /** The rate bound is exact: some run lets 2 * limit - 3 requests through in one window's length. */
  lemma RateBoundIsReached(window: int, limit: int, key: Key) returns (es: seq<Event>, lo: int)
    requires window >= 2 && limit >= 2
    ensures TimesOrdered(es) && Passed(window, limit, es, key, lo) == 2 * limit - 3
  {
    lo := window - 1;
    var first := FirstWindow(window, limit, key);
    es := SecondWindow(window, limit, key, first);
  }
}
