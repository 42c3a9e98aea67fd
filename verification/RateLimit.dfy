/** The two rate-limit backends: the Redis script and the local limiter. */
module RateLimit {
  import opened Options
  import opened OrderedDicts

  datatype Policy = Policy(limit: int, window: int)

  /** A request for a key, and whether Redis can be reached when it comes. */
  datatype Request = Request(key: string, now: real, redisUp: bool)

  /** A counter and the time it expires. */
  datatype Entry = Entry(count: int, expiresAt: real)

  function Ttl(policy: Policy): (ttl: real)
    ensures ttl >= 1.0
  {
    (if policy.window < 1 then 1 else policy.window) as real
  }

  // ---------- the Redis script ----------

  type Counters = map<string, Entry>

  /** INCR, with EXPIRE on the first increment of a fresh key. */
  function Increment(counters: Counters, key: string, now: real, ttl: real): Entry {
    if key in counters && now < counters[key].expiresAt
    then Entry(counters[key].count + 1, counters[key].expiresAt)
    else Entry(1, now + ttl)
  }

  predicate RedisAdmits(counters: Counters, r: Request, policy: Policy) {
    Increment(counters, r.key, r.now, Ttl(policy)).count <= policy.limit
  }

  function RedisStep(counters: Counters, r: Request, policy: Policy): Counters {
    counters[r.key := Increment(counters, r.key, r.now, Ttl(policy))]
  }

  /** A Redis key: its integer value and its expiry, if it has been given one. */
  datatype Counter = Counter(count: int, expiresAt: Option<real>)

  /** The keys the script works on. Between calls every one has an expiry, so
      that no subject stays locked out for ever. */
  class RedisFixedWindow {
    var counters: map<string, Counter>

    ghost predicate Valid()
      reads this
    {
      forall k :: k in counters ==> counters[k].expiresAt.Some? && counters[k].count >= 1
    }

    ghost function View(): Counters
      requires Valid()
      reads this
    {
      map k | k in counters :: Entry(counters[k].count, counters[k].expiresAt.value)
    }

    constructor ()
      ensures Valid() && View() == map[]
    {
      counters := map[];
    }

    predicate Live(key: string, now: real)
      reads this
    {
      key in counters && (counters[key].expiresAt.Some? ==> now < counters[key].expiresAt.value)
    }

    method Incr(key: string, now: real) returns (current: int)
      modifies this
      ensures current == if old(Live(key, now)) then old(counters)[key].count + 1 else 1
      ensures counters == old(counters)[key := Counter(current,
                            if old(Live(key, now)) then old(counters)[key].expiresAt else None)]
    {
      if Live(key, now) {
        current := counters[key].count + 1;
        counters := counters[key := Counter(current, counters[key].expiresAt)];
      } else {
        current := 1;
        counters := counters[key := Counter(1, None)];
      }
    }

    method Script(key: string, now: real, ttl: real) returns (current: int)
      requires Valid()
      modifies this
      ensures Valid() && current == Increment(old(View()), key, now, ttl).count
      ensures View() == old(View())[key := Increment(old(View()), key, now, ttl)]
    {
      current := Incr(key, now);
      if current == 1 {
        counters := counters[key := Counter(current, Some(now + ttl))];
      }
    }

    /** Answers whether the request is admitted; `_enforce_redis_rate_limit` raises HTTP 429 otherwise. */
    method Enforce(r: Request, policy: Policy) returns (admitted: bool)
      requires Valid()
      modifies this
      ensures Valid() && View() == RedisStep(old(View()), r, policy)
      ensures admitted == RedisAdmits(old(View()), r, policy)
      ensures var length := if policy.window >= 1 then policy.window as real else 1.0;
        View()[r.key] == if old(Live(r.key, r.now))
                         then Entry(old(View())[r.key].count + 1, old(View())[r.key].expiresAt)
                         else Entry(1, r.now + length)
    {
      var current := Script(r.key, r.now, Ttl(policy));
      admitted := current <= policy.limit;
    }
  }

  // ---------- the local limiter ----------

  type Entries = Dict<string, Entry>

  function LiveAt(now: real): Entry -> bool {
    (e: Entry) => now < e.expiresAt
  }

  function Purge(entries: Entries, now: real): Entries {
    Keep(entries, LiveAt(now))
  }

  function Current(entries: Entries, key: string, now: real, ttl: real): Entry {
    match Find(Purge(entries, now), key)
    case Some(e) => e
    case None => Entry(0, now + ttl)
  }

  predicate LocalAdmits(entries: Entries, r: Request, policy: Policy) {
    Current(entries, r.key, r.now, Ttl(policy)).count < policy.limit
  }

  /** The entries with the request counted, before the capacity is looked at. */
  function Counted(entries: Entries, r: Request, policy: Policy): Entries {
    if !LocalAdmits(entries, r, policy) then Purge(entries, r.now)
    else
      var current := Current(entries, r.key, r.now, Ttl(policy));
      Renew(Purge(entries, r.now), r.key, Entry(current.count + 1, current.expiresAt))
  }

  function LocalStep(entries: Entries, r: Request, policy: Policy, maxEntries: nat): Entries {
    if LocalAdmits(entries, r, policy)
    then Newest(Counted(entries, r, policy), maxEntries)
    else Counted(entries, r, policy)
  }

  lemma CountedDistinct(entries: Entries, r: Request, policy: Policy)
    requires Distinct(entries)
    ensures Distinct(Purge(entries, r.now)) && Distinct(Counted(entries, r, policy))
  {
    var purged, current := Purge(entries, r.now), Current(entries, r.key, r.now, Ttl(policy));
    KeepDistinct(entries, LiveAt(r.now));
    RenewDistinct(purged, r.key, Entry(current.count + 1, current.expiresAt));
  }

  lemma StepFits(entries: Entries, r: Request, policy: Policy, maxEntries: nat)
    requires Distinct(entries) && |entries| <= maxEntries
    ensures Distinct(LocalStep(entries, r, policy, maxEntries)) && |LocalStep(entries, r, policy, maxEntries)| <= maxEntries
  {
    KeepShorter(entries, LiveAt(r.now));
    CountedDistinct(entries, r, policy);
    NewestDistinct(Counted(entries, r, policy), maxEntries);
  }

  /** The dictionary once the first `i` pairs have been looked at. */
  function Purging<K, V>(d: Dict<K, V>, p: V -> bool, i: nat): Dict<K, V>
    requires i <= |d|
  {
    Keep(d[..i], p) + d[i..]
  }

  lemma PurgingEnds<K, V>(d: Dict<K, V>, p: V -> bool)
    ensures Purging(d, p, 0) == d && Purging(d, p, |d|) == Keep(d, p)
  {
    assert d[..|d|] == d;
  }

  lemma PurgingNext<K, V>(d: Dict<K, V>, p: V -> bool, i: nat)
    requires Distinct(d) && i < |d|
    ensures Purging(d, p, i + 1) == if p(d[i].value) then Purging(d, p, i) else Remove(Purging(d, p, i), d[i].key)
  {
    var kept := Keep(d[..i], p);
    assert d[..i + 1] == d[..i] + [d[i]] && d[i..] == [d[i]] + d[i + 1..];
    KeepConcat(d[..i], [d[i]], p);
    if p(d[i].value) {
      assert kept + d[i..] == (kept + [d[i]]) + d[i + 1..];
    } else {
      forall k | 0 <= k < |kept| ensures kept[k].key != d[i].key {
        KeepFrom(d[..i], p, k);
        var j :| 0 <= j < |d[..i]| && d[..i][j] == kept[k] && p(d[..i][j].value);
        assert d[j] == kept[k];
      }
      RemoveConcat(kept, d[i..], d[i].key);
      assert d[i..][1..] == d[i + 1..];
    }
  }

  class LocalWindowLimiter {
    var entries: Entries
    const maxEntries: nat

    ghost predicate Valid()
      reads this
    {
      maxEntries >= 1 && Distinct(entries) && |entries| <= maxEntries
    }

    constructor (maxEntries: int)
      ensures Valid() && entries == [] && this.maxEntries == if maxEntries < 1 then 1 else maxEntries
    {
      entries := [];
      this.maxEntries := if maxEntries < 1 then 1 else maxEntries;
    }

    method DropStale(now: real)
      requires Distinct(entries)
      modifies this`entries
      ensures entries == Purge(old(entries), now)
    {
      var items := entries;
      PurgingEnds(items, LiveAt(now));
      for i := 0 to |items|
        invariant entries == Purging(items, LiveAt(now), i)
      {
        PurgingNext(items, LiveAt(now), i);
        if items[i].value.expiresAt <= now {
          entries := Remove(entries, items[i].key);
        }
      }
    }

    method Evict()
      modifies this`entries
      ensures entries == Newest(old(entries), maxEntries)
    {
      while |entries| > maxEntries
        invariant |entries| <= |old(entries)|
        invariant entries == old(entries)[|old(entries)| - |entries|..]
        invariant |entries| >= maxEntries || entries == old(entries)
      {
        entries := entries[1..];
      }
    }

    /** The counter of a key, starting afresh when there is none or it has expired. */
    method Lookup(key: string, now: real, ttl: real) returns (e: Entry)
      ensures e == match Find(entries, key)
                   case Some(found) => if found.expiresAt <= now then Entry(0, now + ttl) else found
                   case None => Entry(0, now + ttl)
    {
      e := Entry(0, now + ttl);
      var current := Find(entries, key);
      if current.Some? {
        e := current.value;
        if e.expiresAt <= now {
          e := Entry(0, now + ttl);
        }
      }
    }

    method Write(key: string, e: Entry)
      modifies this`entries
      ensures entries == Newest(Renew(old(entries), key, e), maxEntries)
    {
      entries := Renew(entries, key, e);
      Evict();
    }

    /** Answers whether the request is admitted; `enforce` raises HTTP 429 otherwise. */
    method Enforce(r: Request, policy: Policy) returns (admitted: bool)
      requires Valid()
      modifies this`entries
      ensures Valid()
      ensures admitted == LocalAdmits(old(entries), r, policy)
      ensures entries == LocalStep(old(entries), r, policy, maxEntries)
      ensures var length := if policy.window >= 1 then policy.window as real else 1.0;
        var found := Find(old(entries), r.key);
        var counted := if found.Some? && r.now < found.value.expiresAt
                       then Entry(found.value.count + 1, found.value.expiresAt)
                       else Entry(1, r.now + length);
        admitted ==> entries != [] && entries[|entries| - 1] == Pair(r.key, counted)
    {
      StepFits(entries, r, policy, maxEntries);
      FindKeep(entries, LiveAt(r.now), r.key);
      ghost var before := entries;
      DropStale(r.now);
      var current := Lookup(r.key, r.now, Ttl(policy));
      assert current == Current(before, r.key, r.now, Ttl(policy));
      admitted := current.count < policy.limit;
      if admitted {
        Write(r.key, Entry(current.count + 1, current.expiresAt));
      }
    }
  }
}
