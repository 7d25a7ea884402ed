/** The in-memory TTL cache of backend/src/utils/cacheManager.ts.

    The clock (`Date.now()`) is the `now` parameter of each operation, the
    periodic sweep is one explicit `SweepTick`, and the handle returned by
    `setInterval` is supplied by the caller. Values are opaque payloads of
    type `T`; `Undefined` is JavaScript's `undefined`, which may be stored. */
module Cache {
  import opened Wrappers
  import opened Glob

  /** CACHE.DEFAULT_TTL (backend/src/utils/constants.ts:62): one hour in ms. */
  const DefaultTTL: int := 60 * 60 * 1000
  /** CACHE.CLEANUP_INTERVAL (backend/src/utils/constants.ts:63): five minutes in ms. */
  const DefaultCleanupInterval: int := 5 * 60 * 1000

  datatype Value<T> = Undefined | Defined(payload: T)

  /** A stored item: its value and the absolute time (ms) at which it expires. */
  datatype Entry<T> = Entry(value: Value<T>, expiry: int)

  /** A running cleanup interval: the handle `setInterval` returned and its period. */
  datatype Timer = Timer(handle: nat, period: int)

  type Store<T> = map<string, Entry<T>>

  /** `ttl || defaultTTL`: an absent TTL and a TTL of 0 both fall back to the default. */
  function EffectiveTTL(ttl: Option<int>, defaultTTL: int): (r: int)
    ensures ttl == None || ttl == Some(0) ==> r == defaultTTL
    ensures ttl.Some? && ttl.value != 0 ==> r == ttl.value
  {
    match ttl
    case None => defaultTTL
    case Some(t) => if t == 0 then defaultTTL else t
  }

  /** An entry is expired only strictly after its expiry time; at `now == expiry` it is still live. */
  predicate Expired<T>(e: Entry<T>, now: int) {
    now > e.expiry
  }

  /** What `get` returns: the stored value of a present, unexpired entry, else `undefined`. */
  function Lookup<T>(m: Store<T>, key: string, now: int): (r: Value<T>)
    ensures key !in m ==> r == Undefined
    ensures key in m && now <= m[key].expiry ==> r == m[key].value
    ensures key in m && now > m[key].expiry ==> r == Undefined
  {
    if key in m && !Expired(m[key], now) then m[key].value else Undefined
  }

  /** The store after `delete(pattern)`: every key the pattern matches is gone
      (for a star-free pattern, just that key), the rest is untouched. */
  function Deleted<T>(m: Store<T>, pattern: string): (r: Store<T>)
    ensures forall k :: k in r <==> k in m && !GlobMatch(pattern, k)
    ensures forall k :: k in r ==> r[k] == m[k]
  {
    map k | k in m && !GlobMatch(pattern, k) :: m[k]
  }

  /** The store after `get(key)`: an expired entry is evicted through `delete`. */
  function AfterGet<T>(m: Store<T>, key: string, now: int): (r: Store<T>)
    ensures key !in m || now <= m[key].expiry ==> r == m
    ensures key in m && now > m[key].expiry ==> key !in r
    ensures r.Keys <= m.Keys
    ensures forall k :: k in r ==> r[k] == m[k]
  {
    if key in m && Expired(m[key], now) then
      SelfMatch(key);
      Deleted(m, key)
    else m
  }

  /** Key `k` is removed by a sweep at `now` over `m`: some expired key,
      used as a `delete` argument, matches it. */
  ghost predicate SweptAway<T>(m: Store<T>, now: int, k: string) {
    exists e {:trigger GlobMatch(e, k)} :: e in m && Expired(m[e], now) && GlobMatch(e, k)
  }

  /** The store after one sweep tick at `now`. */
  ghost function Swept<T>(m: Store<T>, now: int): Store<T> {
    map k | k in m && !SweptAway(m, now, k) :: m[k]
  }

  /** The keys of expired entries: the ones a sweep or a `get` would evict. */
  ghost function ExpiredKeys<T>(m: Store<T>, now: int): set<string> {
    set k | k in m && Expired(m[k], now)
  }

  ghost function LiveKeys<T>(m: Store<T>, now: int): set<string> {
    set k | k in m && !Expired(m[k], now)
  }

  /** Every expired key, should a sweep pass it to `delete`, is `DeletableByGlob`. */
  predicate ExpiredDeletable<T>(m: Store<T>, now: int) {
    forall k :: k in m && Expired(m[k], now) ==> DeletableByGlob(k)
  }

  /** A delete argument whose wildcard branch the model can follow: either it
      has no `*`, or its other characters are free of regular-expression syntax. */
  predicate DeletableByGlob(key: string) {
    '*' in key ==> RegexLiteral(key)
  }

  class CacheManager<T> {
    var cache: Store<T>
    var defaultTTL: int
    var cleanupInterval: Option<Timer>

    /** `new CacheManager(defaultTTL = CACHE.DEFAULT_TTL)`: empty, no sweep running. */
    constructor (defaultTTL: Option<int>)
      ensures cache == map[] && cleanupInterval == None
      ensures this.defaultTTL == if defaultTTL.Some? then defaultTTL.value else DefaultTTL
    {
      cache := map[];
      this.defaultTTL := if defaultTTL.Some? then defaultTTL.value else DefaultTTL;
      cleanupInterval := None;
    }

    /** `set(key, value, ttl)` at time `now`: replaces the entry for `key`
        and leaves every other key as it was. */
    method Set(key: string, value: Value<T>, ttl: Option<int>, now: int)
      modifies this`cache
      ensures cache == old(cache)[key := Entry(value, now + EffectiveTTL(ttl, defaultTTL))]
      ensures forall k :: k != key ==> (k in cache <==> k in old(cache))
      ensures forall k :: k != key && k in cache ==> cache[k] == old(cache)[k]
    {
      var expiry := now + EffectiveTTL(ttl, defaultTTL);
      cache := cache[key := Entry(value, expiry)];
    }

    /** `get(key)` at time `now`: a hit while `now <= expiry`; an expired entry
        is passed to `delete` and `undefined` is returned. */
    method Get(key: string, now: int) returns (r: Value<T>)
      requires key in cache && Expired(cache[key], now) ==> DeletableByGlob(key)
      modifies this`cache
      ensures r == Lookup(old(cache), key, now)
      ensures cache == AfterGet(old(cache), key, now)
      ensures key !in old(cache) ==> r == Undefined && cache == old(cache)
      ensures key in old(cache) && !Expired(old(cache)[key], now) ==> r == old(cache)[key].value && cache == old(cache)
    {
      if key !in cache {
        return Undefined;
      }
      var item := cache[key];
      if now > item.expiry {
        var _ := Delete(key);
        return Undefined;
      }
      return item.value;
    }

    /** `delete(key)`: with a `*`, every matching key is removed and the result
        says whether any was; without one, only `key` is removed and the result
        says whether it was present. */
    method Delete(key: string) returns (deleted: bool)
      requires DeletableByGlob(key)
      modifies this`cache
      ensures cache == Deleted(old(cache), key)
      ensures deleted <==> exists k :: k in old(cache) && GlobMatch(key, k)
      ensures '*' !in key ==> (deleted <==> key in old(cache)) && cache == old(cache) - {key}
    {
      if '*' in key {
        deleted := false;
        var pending := cache.Keys;
        while pending != {}
          invariant pending <= old(cache).Keys
          invariant cache.Keys <= old(cache).Keys
          invariant forall k :: k in cache ==> cache[k] == old(cache)[k]
          invariant forall k :: k in old(cache) ==> (k in cache <==> k in pending || !GlobMatch(key, k))
          invariant deleted <==> exists k :: k in old(cache) && k !in pending && GlobMatch(key, k)
          decreases pending
        {
          var k :| k in pending;
          if GlobMatch(key, k) {
            cache := cache - {k};
            deleted := true;
          }
          pending := pending - {k};
        }
        assert cache == Deleted(old(cache), key);
      } else {
        deleted := key in cache;
        cache := cache - {key};
        DeletedWithoutStar(old(cache), key);
      }
    }

    /** `clear()`: nothing is left. */
    method Clear()
      modifies this`cache
      ensures cache == map[]
    {
      cache := map[];
    }

    /** `size`: the number of stored entries, expired ones not yet evicted included. */
    function Size(): (n: nat)
      reads this
      ensures n == 0 <==> cache == map[]
    {
      |cache|
    }

    /** `getOrSet(key, fn, ttl)`. The lookup happens at `now` (and may evict
        an expired entry); `outcome` is what awaiting `fn()` produced, and
        `later` the time at which it did. `invoked` tells whether `fn` was
        called: never on a hit, exactly once on a miss. On success the
        computed value is stored; on failure the failure is returned and
        nothing is stored. */
    method GetOrSet<E>(key: string, outcome: Result<Value<T>, E>, ttl: Option<int>, now: int, later: int)
      returns (r: Result<Value<T>, E>, invoked: bool)
      requires key in cache && Expired(cache[key], now) ==> DeletableByGlob(key)
      modifies this`cache
      ensures Lookup(old(cache), key, now).Defined? ==>
        !invoked && r == Success(Lookup(old(cache), key, now)) && cache == old(cache)
      ensures Lookup(old(cache), key, now).Undefined? ==> invoked && r == outcome
      ensures Lookup(old(cache), key, now).Undefined? && outcome.Success? ==>
        cache == AfterGet(old(cache), key, now)[key := Entry(outcome.value, later + EffectiveTTL(ttl, defaultTTL))]
      ensures Lookup(old(cache), key, now).Undefined? && outcome.Failure? ==>
        cache == AfterGet(old(cache), key, now)
    {
      var cached := Get(key, now);
      if cached.Defined? {
        return Success(cached), false;
      }
      invoked := true;
      r := outcome;
      if outcome.Success? {
        Set(key, outcome.value, ttl, later);
      }
    }

    /** `startCleanupInterval(interval)`: any running sweep is cleared and
        replaced by the new one, whose handle `setInterval` returned. */
    method StartCleanupInterval(interval: Option<int>, handle: nat) returns (t: Timer, cleared: Option<Timer>)
      modifies this`cleanupInterval
      ensures cleared == old(cleanupInterval)
      ensures t == Timer(handle, if interval.Some? then interval.value else DefaultCleanupInterval)
      ensures cleanupInterval == Some(t)
    {
      cleared := cleanupInterval;
      t := Timer(handle, if interval.Some? then interval.value else DefaultCleanupInterval);
      cleanupInterval := Some(t);
    }

    /** `stopCleanupInterval()`: clears the running sweep, if any; a no-op otherwise. */
    method StopCleanupInterval() returns (cleared: Option<Timer>)
      modifies this`cleanupInterval
      ensures cleared == old(cleanupInterval)
      ensures cleanupInterval == None
    {
      cleared := cleanupInterval;
      if cleanupInterval.Some? {
        cleanupInterval := None;
      }
    }

    /** One tick of the cleanup interval at time `now`: each entry still
        present when its turn comes and expired is passed to `delete`. The
        result does not depend on the iteration order. */
    method SweepTick(now: int)
      requires ExpiredDeletable(cache, now)
      modifies this`cache
      ensures cache == Swept(old(cache), now)
    {
      ghost var m0 := cache;
      var pending := cache.Keys;
      SweepStarts(m0, now, GlobMatch);
      forall a, b, c | GlobMatch(a, b) && GlobMatch(b, c) ensures GlobMatch(a, c) {
        MatchTransitive(a, b, c);
      }
      while pending != {}
        invariant pending <= m0.Keys
        invariant SweepInvariant(m0, now, pending, cache, GlobMatch)
        decreases pending
      {
        var k :| k in pending;
        ghost var before, visiting := cache, pending;
        if k in cache && now > cache[k].expiry {
          assert cache[k] == m0[k];
          var _ := Delete(k);
          SweepStepEvicts(m0, now, visiting, k, before, cache, GlobMatch);
        } else {
          SweepStepKeeps(m0, now, visiting, k, before, GlobMatch);
        }
        pending := pending - {k};
      }
      SweepEnds(m0, now, cache);
    }
  }

  /** Some expired key of `m` outside `pending` matches `k`. The matching
      relation is a parameter so that the sweep's bookkeeping below does not
      depend on how `GlobMatch` is computed, only on its transitivity. */
  ghost predicate CoveredOutside<T>(m: Store<T>, now: int, pending: set<string>, k: string,
                                    matches: (string, string) -> bool) {
    exists e {:trigger matches(e, k)} :: e in m && e !in pending && Expired(m[e], now) && matches(e, k)
  }

  /** The state of a sweep over `m0` with `pending` keys still to visit: the
      store `c` holds exactly the entries of `m0` that no visited expired key matches. */
  ghost predicate SweepInvariant<T>(m0: Store<T>, now: int, pending: set<string>, c: Store<T>,
                                    matches: (string, string) -> bool) {
    && c.Keys <= m0.Keys
    && (forall k :: k in c ==> c[k] == m0[k])
    && (forall k {:trigger k in c} :: k in m0 ==> (k in c <==> !CoveredOutside(m0, now, pending, k, matches)))
  }

  lemma SweepStarts<T>(m0: Store<T>, now: int, matches: (string, string) -> bool)
    ensures SweepInvariant(m0, now, m0.Keys, m0, matches)
  {
  }

  /** Visiting a present expired key `k` and deleting what it matches keeps the invariant. */
  lemma SweepStepEvicts<T>(m0: Store<T>, now: int, visiting: set<string>, k: string,
                           before: Store<T>, after: Store<T>, matches: (string, string) -> bool)
    requires k in m0 && k in visiting && Expired(m0[k], now)
    requires SweepInvariant(m0, now, visiting, before, matches)
    requires forall j :: j in after <==> j in before && !matches(k, j)
    requires forall j :: j in after ==> after[j] == before[j]
    ensures SweepInvariant(m0, now, visiting - {k}, after, matches)
  {
    forall j | j in m0
      ensures CoveredOutside(m0, now, visiting - {k}, j, matches)
              <==> CoveredOutside(m0, now, visiting, j, matches) || matches(k, j)
    {
      if CoveredOutside(m0, now, visiting - {k}, j, matches) {
        var e :| e in m0 && e !in visiting - {k} && Expired(m0[e], now) && matches(e, j);
        if e != k {
          assert CoveredOutside(m0, now, visiting, j, matches);
        }
      }
      if matches(k, j) {
        assert CoveredOutside(m0, now, visiting - {k}, j, matches);
      } else if CoveredOutside(m0, now, visiting, j, matches) {
        var e :| e in m0 && e !in visiting && Expired(m0[e], now) && matches(e, j);
        assert CoveredOutside(m0, now, visiting - {k}, j, matches);
      }
    }
  }

  /** Visiting a key that is live, or that an earlier delete already removed,
      changes nothing: in the second case, whatever it matches is matched by
      the key that removed it. */
  lemma SweepStepKeeps<T>(m0: Store<T>, now: int, visiting: set<string>, k: string,
                          before: Store<T>, matches: (string, string) -> bool)
    requires k in m0 && k in visiting
    requires SweepInvariant(m0, now, visiting, before, matches)
    requires k in before ==> !Expired(before[k], now)
    requires forall a, b, c :: matches(a, b) && matches(b, c) ==> matches(a, c)
    ensures SweepInvariant(m0, now, visiting - {k}, before, matches)
  {
    forall j | j in m0
      ensures CoveredOutside(m0, now, visiting - {k}, j, matches) <==> CoveredOutside(m0, now, visiting, j, matches)
    {
      if CoveredOutside(m0, now, visiting - {k}, j, matches) {
        var e :| e in m0 && e !in visiting - {k} && Expired(m0[e], now) && matches(e, j);
        if e == k {
          // k is expired, so it is no longer stored: an earlier delete matched it
          assert k !in before;
          var e0 :| e0 in m0 && e0 !in visiting && Expired(m0[e0], now) && matches(e0, k);
          assert matches(e0, j);
        }
        assert CoveredOutside(m0, now, visiting, j, matches);
      }
    }
  }

  lemma SweepEnds<T>(m0: Store<T>, now: int, c: Store<T>)
    requires SweepInvariant(m0, now, {}, c, GlobMatch)
    ensures c == Swept(m0, now)
  {
    forall k | k in m0 ensures CoveredOutside(m0, now, {}, k, GlobMatch) <==> SweptAway(m0, now, k) {
    }
  }

  /** The exact branch of `delete`: a star-free pattern removes that key only. */
  lemma DeletedWithoutStar<T>(m: Store<T>, key: string)
    requires '*' !in key
    ensures Deleted(m, key) == m - {key}
    ensures (exists k :: k in m && GlobMatch(key, k)) <==> key in m
  {
    forall k ensures GlobMatch(key, k) <==> key == k {
      NoStarMatchIsEquality(key, k);
    }
  }

  /** After `set(key, v, ttl)` at `now`, `get(key)` at `later` is a hit
      exactly up to and including `now + ttl` (or the default TTL), and the
      hit returns `v`. */
  lemma SetThenLookup<T>(m: Store<T>, key: string, v: Value<T>, ttl: Option<int>, defaultTTL: int, now: int, later: int)
    ensures var m' := m[key := Entry(v, now + EffectiveTTL(ttl, defaultTTL))];
      Lookup(m', key, later) == if later <= now + EffectiveTTL(ttl, defaultTTL) then v else Undefined
  {
  }

  /** `get` on a present expired key without `*` returns `undefined`, evicts
      that key only, and so shrinks `size` by exactly one. */
  lemma ExpiredGetShrinksByOne<T>(m: Store<T>, key: string, now: int)
    requires key in m && Expired(m[key], now) && '*' !in key
    ensures Lookup(m, key, now) == Undefined
    ensures AfterGet(m, key, now) == m - {key}
    ensures |AfterGet(m, key, now)| == |m| - 1
  {
    DeletedWithoutStar(m, key);
  }

  /** `size` counts every stored entry: the live ones and the expired ones
      not yet evicted. */
  lemma SizeCountsExpired<T>(m: Store<T>, now: int)
    ensures |m| == |LiveKeys(m, now)| + |ExpiredKeys(m, now)|
  {
    assert m.Keys == LiveKeys(m, now) + ExpiredKeys(m, now);
    assert LiveKeys(m, now) !! ExpiredKeys(m, now);
  }

  /** When no stored key contains `*`, a sweep removes exactly the expired
      entries and keeps the others unchanged. */
  lemma SweptWithoutStarKeys<T>(m: Store<T>, now: int)
    requires forall k :: k in m ==> '*' !in k
    ensures forall k :: k in Swept(m, now) <==> k in m && !Expired(m[k], now)
    ensures forall k :: k in Swept(m, now) ==> Swept(m, now)[k] == m[k]
  {
    forall k | k in m
      ensures SweptAway(m, now, k) <==> Expired(m[k], now)
    {
      if SweptAway(m, now, k) {
        var e :| e in m && Expired(m[e], now) && GlobMatch(e, k);
        NoStarMatchIsEquality(e, k);
      } else {
        SelfMatch(k);
      }
    }
  }

  /** Whatever the keys, no expired entry survives a sweep. */
  lemma SweptLeavesNoExpired<T>(m: Store<T>, now: int)
    ensures forall k :: k in Swept(m, now) ==> !Expired(Swept(m, now)[k], now)
    ensures ExpiredKeys(Swept(m, now), now) == {}
  {
    forall k | k in m && Expired(m[k], now)
      ensures SweptAway(m, now, k)
    {
      SelfMatch(k);
    }
  }

  /** A second sweep at the same time removes nothing more. */
  lemma SweepIdempotent<T>(m: Store<T>, now: int)
    ensures Swept(Swept(m, now), now) == Swept(m, now)
  {
    var s := Swept(m, now);
    SweptLeavesNoExpired(m, now);
    forall k | k in s ensures !SweptAway(s, now, k) {
    }
  }

  /** A stored key that itself contains `*` is a pattern to lazy eviction:
      reading such a key once it has expired also evicts every other entry,
      live or not, whose key the pattern matches. The key's other characters
      are free of regular-expression syntax, so `get` can be called on it and
      the compiled expression means what the glob says. */
  lemma ExpiredStarKeyEvictsMatches<T>(m: Store<T>, prefix: string, suffix: string, mid: string, now: int)
    requires '*' !in prefix && '*' !in suffix && NoLineTerminator(mid)
    requires RegexLiteral(prefix) && RegexLiteral(suffix)
    requires prefix + "*" + suffix in m && Expired(m[prefix + "*" + suffix], now)
    ensures DeletableByGlob(prefix + "*" + suffix)
    ensures Lookup(m, prefix + "*" + suffix, now) == Undefined
    ensures prefix + "*" + suffix !in AfterGet(m, prefix + "*" + suffix, now)
    ensures prefix + mid + suffix !in AfterGet(m, prefix + "*" + suffix, now)
  {
    var key := prefix + "*" + suffix;
    forall i | 0 <= i < |key| ensures key[i] !in RegexSyntax {
      if i < |prefix| { assert key[i] == prefix[i]; }
      else if i > |prefix| { assert key[i] == suffix[i - |prefix| - 1]; }
    }
    LiteralStarLiteral(prefix, suffix, mid);
    SelfMatch(key);
  }
}
