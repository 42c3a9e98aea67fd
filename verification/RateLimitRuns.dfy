/** Whole runs of requests against the Redis script and the local limiter. */
module RateLimitRuns {
  import opened Options
  import opened OrderedDicts
  import opened FixedWindow
  import opened RateLimit

  /** The requests, the limit and window of every key, and whether the backend
      is asked about a request that finds Redis up or down. */
  datatype Traffic = Traffic(reqs: seq<Request>, policies: string -> Policy, mine: bool -> bool)
  {
    function PolicyAt(i: nat): Policy
      requires i < |reqs|
    {
      policies(reqs[i].key)
    }

    /** A request whose limit is not positive is let through unasked. */
    predicate Asked(i: nat)
      requires i < |reqs|
    {
      mine(reqs[i].redisUp) && PolicyAt(i).limit > 0
    }

    predicate Ordered() {
      forall i, j :: 0 <= i < j < |reqs| ==> reqs[i].now <= reqs[j].now
    }
  }

  ghost predicate RedisStepAt(run: seq<Counters>, t: Traffic, i: nat)
    requires i < |t.reqs| && |run| == |t.reqs| + 1
  {
    run[i + 1] == if t.Asked(i) then RedisStep(run[i], t.reqs[i], t.PolicyAt(i)) else run[i]
  }

  /** The counters before each request and after the last. */
  ghost predicate RedisRun(run: seq<Counters>, t: Traffic) {
    && |run| == |t.reqs| + 1 && run[0] == map[]
    && forall i :: 0 <= i < |t.reqs| ==> RedisStepAt(run, t, i)
  }

  ghost predicate LocalStepAt(run: seq<Entries>, t: Traffic, maxEntries: nat, i: nat)
    requires i < |t.reqs| && |run| == |t.reqs| + 1
  {
    run[i + 1] == if t.Asked(i) then LocalStep(run[i], t.reqs[i], t.PolicyAt(i), maxEntries) else run[i]
  }

  /** The entries before each request and after the last. */
  ghost predicate LocalRun(run: seq<Entries>, t: Traffic, maxEntries: nat) {
    && |run| == |t.reqs| + 1 && run[0] == []
    && forall i :: 0 <= i < |t.reqs| ==> LocalStepAt(run, t, maxEntries, i)
  }

  /** The entries fit at step `i`, so that nothing is evicted there. */
  ghost predicate FitsAt(run: seq<Entries>, t: Traffic, maxEntries: nat, i: nat)
    requires i < |t.reqs| <= |run|
  {
    t.Asked(i) ==> |Counted(run[i], t.reqs[i], t.PolicyAt(i))| <= maxEntries
  }

  ghost predicate Fits(run: seq<Entries>, t: Traffic, maxEntries: nat, n: nat)
    requires n <= |t.reqs| <= |run|
  {
    forall i :: 0 <= i < n ==> FitsAt(run, t, maxEntries, i)
  }

  /** The times at which the backend was asked about one key. */
  function TimesOf(t: Traffic, key: string, n: nat): seq<real>
    requires n <= |t.reqs|
  {
    if n == 0 then []
    else
      TimesOf(t, key, n - 1) +
      if t.mine(t.reqs[n - 1].redisUp) && t.reqs[n - 1].key == key then [t.reqs[n - 1].now] else []
  }

  /** The window that the fixed-window policy keeps for the key. */
  function WindowOf(t: Traffic, key: string, n: nat): Option<Window>
    requires n <= |t.reqs|
  {
    After(TimesOf(t, key, n), t.policies(key).limit, Ttl(t.policies(key)))
  }

  /** Whether that policy admits request `i`. */
  predicate PolicyAdmits(t: Traffic, i: nat)
    requires i < |t.reqs|
  {
    Admits(WindowOf(t, t.reqs[i].key, i), t.reqs[i].now, t.PolicyAt(i).limit, Ttl(t.PolicyAt(i)))
  }

  lemma WindowStep(t: Traffic, key: string, n: nat)
    requires n < |t.reqs|
    ensures WindowOf(t, key, n + 1)
         == if t.mine(t.reqs[n].redisUp) && t.reqs[n].key == key
            then Next(WindowOf(t, key, n), t.reqs[n].now, t.policies(key).limit, Ttl(t.policies(key)))
            else WindowOf(t, key, n)
  {
    var times := TimesOf(t, key, n);
    if t.mine(t.reqs[n].redisUp) && t.reqs[n].key == key {
      Extend(times, t.reqs[n].now, t.policies(key).limit, Ttl(t.policies(key)), 0.0, 0.0);
    } else {
      assert times + [] == times;
    }
  }

  // ---------- Redis follows the policy ----------

  predicate RedisHolds(counters: Counters, key: string, w: Option<Window>, policy: Policy) {
    && (key in counters <==> w.Some?)
    && (w.Some? ==>
          var e := counters[key];
          && e.expiresAt == w.value.since + Ttl(policy)
          && w.value.admitted == (if e.count < policy.limit then e.count else policy.limit))
  }

  lemma {:induction false} RedisHoldsAt(run: seq<Counters>, t: Traffic, key: string, n: nat)
    requires RedisRun(run, t) && n <= |t.reqs| && t.policies(key).limit >= 1
    ensures RedisHolds(run[n], key, WindowOf(t, key, n), t.policies(key))
  {
    if n > 0 {
      RedisHoldsAt(run, t, key, n - 1);
      WindowStep(t, key, n - 1);
      assert RedisStepAt(run, t, n - 1);
    }
  }

  /** Every decision of the Redis script is that of the fixed-window policy. */
  lemma RedisFollowsPolicy(run: seq<Counters>, t: Traffic, i: nat)
    requires RedisRun(run, t) && i < |t.reqs| && t.Asked(i)
    ensures RedisAdmits(run[i], t.reqs[i], t.PolicyAt(i)) == PolicyAdmits(t, i)
  {
    RedisHoldsAt(run, t, t.reqs[i].key, i);
  }

  // ---------- the local limiter follows the policy ----------

  predicate LocalHolds(entries: Entries, key: string, w: Option<Window>, policy: Policy, now: real) {
    match Find(entries, key)
    case Some(e) => w.Some? && e.expiresAt == w.value.since + Ttl(policy) && e.count == w.value.admitted
    case None => !IsOpen(w, now, Ttl(policy))
  }

  lemma PurgeHolds(entries: Entries, key: string, w: Option<Window>, policy: Policy, now: real)
    requires Distinct(entries) && LocalHolds(entries, key, w, policy, now)
    ensures LocalHolds(Purge(entries, now), key, w, policy, now)
    ensures Find(Purge(entries, now), key).Some? <==> IsOpen(w, now, Ttl(policy))
  {
    FindKeep(entries, LiveAt(now), key);
  }

  lemma CountedHolds(entries: Entries, r: Request, mine: Policy, key: string, w: Option<Window>, policy: Policy)
    requires Distinct(entries) && policy.limit >= 1 && (r.key == key ==> mine == policy)
    requires LocalHolds(entries, key, w, policy, r.now)
    ensures var w' := if r.key == key then Next(w, r.now, policy.limit, Ttl(policy)) else w;
            LocalHolds(Counted(entries, r, mine), key, w', policy, r.now)
  {
    PurgeHolds(entries, key, w, policy, r.now);
    KeepDistinct(entries, LiveAt(r.now));
    if LocalAdmits(entries, r, mine) {
      var current := Current(entries, r.key, r.now, Ttl(mine));
      FindRenew(Purge(entries, r.now), r.key, Entry(current.count + 1, current.expiresAt), key);
    }
  }

  lemma {:induction false} RunDistinct(run: seq<Entries>, t: Traffic, maxEntries: nat, n: nat)
    requires LocalRun(run, t, maxEntries) && n <= |t.reqs|
    ensures Distinct(run[n])
  {
    if n > 0 {
      RunDistinct(run, t, maxEntries, n - 1);
      assert LocalStepAt(run, t, maxEntries, n - 1);
      CountedDistinct(run[n - 1], t.reqs[n - 1], t.PolicyAt(n - 1));
      NewestDistinct(Counted(run[n - 1], t.reqs[n - 1], t.PolicyAt(n - 1)), maxEntries);
    }
  }

  lemma LocalAdvance(run: seq<Entries>, t: Traffic, maxEntries: nat, key: string, n: nat)
    requires n < |t.reqs| && |run| == |t.reqs| + 1 && t.policies(key).limit >= 1
    requires LocalStepAt(run, t, maxEntries, n) && FitsAt(run, t, maxEntries, n)
    requires Distinct(run[n]) && LocalHolds(run[n], key, WindowOf(t, key, n), t.policies(key), t.reqs[n].now)
    ensures LocalHolds(run[n + 1], key, WindowOf(t, key, n + 1), t.policies(key), t.reqs[n].now)
  {
    WindowStep(t, key, n);
    if t.Asked(n) {
      CountedHolds(run[n], t.reqs[n], t.PolicyAt(n), key, WindowOf(t, key, n), t.policies(key));
    }
  }

  lemma LocalHoldsLater(entries: Entries, key: string, w: Option<Window>, policy: Policy, before: real, now: real)
    requires LocalHolds(entries, key, w, policy, before) && before <= now
    ensures LocalHolds(entries, key, w, policy, now)
  {
  }

  lemma {:induction false} LocalHoldsAt(run: seq<Entries>, t: Traffic, maxEntries: nat, key: string, n: nat, now: real)
    requires LocalRun(run, t, maxEntries) && t.Ordered() && t.policies(key).limit >= 1
    requires n <= |t.reqs| && Fits(run, t, maxEntries, n)
    requires n > 0 ==> t.reqs[n - 1].now <= now
    ensures LocalHolds(run[n], key, WindowOf(t, key, n), t.policies(key), now)
    decreases n
  {
    if n > 0 {
      assert n > 1 ==> t.reqs[n - 2].now <= t.reqs[n - 1].now;
      LocalHoldsAt(run, t, maxEntries, key, n - 1, t.reqs[n - 1].now);
      RunDistinct(run, t, maxEntries, n - 1);
      LocalAdvance(run, t, maxEntries, key, n - 1);
      LocalHoldsLater(run[n], key, WindowOf(t, key, n), t.policies(key), t.reqs[n - 1].now, now);
    }
  }

  /** While nothing is evicted, so is every decision of the local limiter. */
  lemma LocalFollowsPolicy(run: seq<Entries>, t: Traffic, maxEntries: nat, i: nat)
    requires LocalRun(run, t, maxEntries) && t.Ordered()
    requires i < |t.reqs| && t.Asked(i) && Fits(run, t, maxEntries, i)
    ensures LocalAdmits(run[i], t.reqs[i], t.PolicyAt(i)) == PolicyAdmits(t, i)
  {
    var r := t.reqs[i];
    LocalHoldsAt(run, t, maxEntries, r.key, i, r.now);
    RunDistinct(run, t, maxEntries, i);
    PurgeHolds(run[i], r.key, WindowOf(t, r.key, i), t.PolicyAt(i), r.now);
  }

  /** The two backends admit and reject the same requests. */
  lemma BackendsAgree(local: seq<Entries>, redis: seq<Counters>, t: Traffic, maxEntries: nat, i: nat)
    requires LocalRun(local, t, maxEntries) && RedisRun(redis, t) && t.Ordered()
    requires i < |t.reqs| && t.Asked(i) && Fits(local, t, maxEntries, i)
    ensures LocalAdmits(local[i], t.reqs[i], t.PolicyAt(i)) == RedisAdmits(redis[i], t.reqs[i], t.PolicyAt(i))
  {
    RedisFollowsPolicy(redis, t, i);
    LocalFollowsPolicy(local, t, maxEntries, i);
  }
}
