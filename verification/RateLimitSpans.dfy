/** How many requests a span of time lets through, for each backend and for the
    fallback from Redis to the local limiter. */
module RateLimitSpans {
  import opened FixedWindow
  import opened RateLimit
  import opened RateLimitRuns

  /** Requests of the backend for one key at a time in [from, to) that were admitted. */
  function Count(t: Traffic, decided: seq<bool>, key: string, from: real, to: real, n: nat): nat
    requires n <= |t.reqs| == |decided|
  {
    if n == 0 then 0
    else
      var r := t.reqs[n - 1];
      Count(t, decided, key, from, to, n - 1) +
      if t.mine(r.redisUp) && r.key == key && decided[n - 1] && from <= r.now < to then 1 else 0
  }

  lemma {:induction false} TimesAscending(t: Traffic, key: string, n: nat)
    requires t.Ordered() && n <= |t.reqs|
    ensures Ascending(TimesOf(t, key, n))
    ensures forall i :: 0 <= i < |TimesOf(t, key, n)| ==> n > 0 && TimesOf(t, key, n)[i] <= t.reqs[n - 1].now
  {
    if n > 0 {
      TimesAscending(t, key, n - 1);
    }
  }

  /** The decisions for the key are those of the fixed-window policy. */
  predicate Follows(t: Traffic, decided: seq<bool>, key: string, n: nat)
    requires n <= |t.reqs| == |decided|
  {
    forall i :: 0 <= i < n && t.mine(t.reqs[i].redisUp) && t.reqs[i].key == key ==> decided[i] == PolicyAdmits(t, i)
  }

  lemma {:induction false} CountIsAdmissions(t: Traffic, decided: seq<bool>, key: string, from: real, to: real, n: nat)
    requires n <= |t.reqs| == |decided| && Follows(t, decided, key, n)
    ensures Count(t, decided, key, from, to, n)
         == Admissions(TimesOf(t, key, n), t.policies(key).limit, Ttl(t.policies(key)), from, to)
  {
    if n > 0 {
      CountIsAdmissions(t, decided, key, from, to, n - 1);
      var times, r := TimesOf(t, key, n - 1), t.reqs[n - 1];
      if t.mine(r.redisUp) && r.key == key {
        Extend(times, r.now, t.policies(key).limit, Ttl(t.policies(key)), from, to);
        assert decided[n - 1] == PolicyAdmits(t, n - 1);
      } else {
        assert times + [] == times;
      }
    }
  }

  lemma FollowingIsBounded(t: Traffic, decided: seq<bool>, key: string, from: real)
    requires |t.reqs| == |decided| && Follows(t, decided, key, |t.reqs|)
    requires t.Ordered() && t.policies(key).limit >= 1
    ensures Count(t, decided, key, from, from + Ttl(t.policies(key)), |t.reqs|) <= 2 * t.policies(key).limit - 1
  {
    var n, limit, ttl := |t.reqs|, t.policies(key).limit, Ttl(t.policies(key));
    assert Count(t, decided, key, from, from + ttl, n) == Admissions(TimesOf(t, key, n), limit, ttl, from, from + ttl) by {
      CountIsAdmissions(t, decided, key, from, from + ttl, n);
    }
    assert Ascending(TimesOf(t, key, n)) by {
      TimesAscending(t, key, n);
    }
    SpanBound(TimesOf(t, key, n), limit, ttl, from);
  }

  /** Redis admits at most 2 * limit - 1 requests for a key in any span of its window's length. */
  lemma RedisSpanBound(run: seq<Counters>, t: Traffic, decided: seq<bool>, key: string, from: real,
                       length: real)
    requires RedisRun(run, t) && t.Ordered() && t.policies(key).limit >= 1
    requires |decided| == |t.reqs|
    requires forall i :: 0 <= i < |t.reqs| && t.Asked(i) ==>
               decided[i] == RedisAdmits(run[i], t.reqs[i], t.PolicyAt(i))
    requires length == if t.policies(key).window >= 1 then t.policies(key).window as real else 1.0
    ensures Count(t, decided, key, from, from + length, |t.reqs|) <= 2 * t.policies(key).limit - 1
  {
    forall i | 0 <= i < |t.reqs| && t.mine(t.reqs[i].redisUp) && t.reqs[i].key == key
      ensures decided[i] == PolicyAdmits(t, i)
    {
      assert t.Asked(i);
      RedisFollowsPolicy(run, t, i);
    }
    FollowingIsBounded(t, decided, key, from);
  }

  /** So does the local limiter while nothing is evicted. */
  lemma LocalSpanBound(run: seq<Entries>, t: Traffic, maxEntries: nat, decided: seq<bool>, key: string, from: real,
                       length: real)
    requires LocalRun(run, t, maxEntries) && t.Ordered() && t.policies(key).limit >= 1
    requires Fits(run, t, maxEntries, |t.reqs|) && |decided| == |t.reqs|
    requires forall i :: 0 <= i < |t.reqs| && t.Asked(i) ==>
               decided[i] == LocalAdmits(run[i], t.reqs[i], t.PolicyAt(i))
    requires length == if t.policies(key).window >= 1 then t.policies(key).window as real else 1.0
    ensures Count(t, decided, key, from, from + length, |t.reqs|) <= 2 * t.policies(key).limit - 1
  {
    forall i | 0 <= i < |t.reqs| && t.mine(t.reqs[i].redisUp) && t.reqs[i].key == key
      ensures decided[i] == PolicyAdmits(t, i)
    {
      assert t.Asked(i);
      LocalFollowsPolicy(run, t, maxEntries, i);
    }
    FollowingIsBounded(t, decided, key, from);
  }

  // ---------- falling back ----------

  datatype FailureMode = LocalFallback | Bypass | Raise

  datatype Outcome = Admitted | TooManyRequests | BackendError

  function Answer(admitted: bool): Outcome {
    if admitted then Admitted else TooManyRequests
  }

  function Enforce(counters: Counters, entries: Entries, r: Request, policy: Policy, mode: FailureMode): Outcome {
    if policy.limit <= 0 then Admitted
    else if r.redisUp then Answer(RedisAdmits(counters, r, policy))
    else
      match mode
      case Bypass => Admitted
      case Raise => BackendError
      case LocalFallback => Answer(LocalAdmits(entries, r, policy))
  }

  function Reached(reqs: seq<Request>, policies: string -> Policy): Traffic {
    Traffic(reqs, policies, (up: bool) => up)
  }

  function Unreached(reqs: seq<Request>, policies: string -> Policy): Traffic {
    Traffic(reqs, policies, (up: bool) => !up)
  }

  /** Redis sees the requests that reach it, and the local limiter the others. */
  ghost predicate Service(counters: seq<Counters>, entries: seq<Entries>, reqs: seq<Request>,
                          policies: string -> Policy, maxEntries: nat, mode: FailureMode, outcomes: seq<Outcome>) {
    && RedisRun(counters, Reached(reqs, policies))
    && |entries| == |reqs| + 1 && (mode == LocalFallback ==> LocalRun(entries, Unreached(reqs, policies), maxEntries))
    && |outcomes| == |reqs|
    && forall i :: 0 <= i < |reqs| ==> outcomes[i] == Enforce(counters[i], entries[i], reqs[i], policies(reqs[i].key), mode)
  }

  function AdmittedIn(reqs: seq<Request>, outcomes: seq<Outcome>, key: string, from: real, to: real, n: nat): nat
    requires n <= |reqs| == |outcomes|
  {
    if n == 0 then 0
    else
      AdmittedIn(reqs, outcomes, key, from, to, n - 1) +
      if reqs[n - 1].key == key && outcomes[n - 1] == Admitted && from <= reqs[n - 1].now < to then 1 else 0
  }

  function Decisions(outcomes: seq<Outcome>): seq<bool> {
    seq(|outcomes|, i requires 0 <= i < |outcomes| => outcomes[i] == Admitted)
  }

  lemma {:induction false} SharesAddUp(reqs: seq<Request>, policies: string -> Policy, outcomes: seq<Outcome>,
                                       key: string, from: real, to: real, n: nat)
    requires n <= |reqs| == |outcomes|
    ensures AdmittedIn(reqs, outcomes, key, from, to, n)
         == Count(Reached(reqs, policies), Decisions(outcomes), key, from, to, n)
          + Count(Unreached(reqs, policies), Decisions(outcomes), key, from, to, n)
  {
    if n > 0 {
      SharesAddUp(reqs, policies, outcomes, key, from, to, n - 1);
    }
  }

  /** Falling back at most doubles what a span lets through, however often
      Redis comes and goes. */
  lemma FallbackBound(counters: seq<Counters>, entries: seq<Entries>, reqs: seq<Request>,
                      policies: string -> Policy, maxEntries: nat, outcomes: seq<Outcome>, key: string, from: real,
                      length: real)
    requires Service(counters, entries, reqs, policies, maxEntries, LocalFallback, outcomes)
    requires Fits(entries, Unreached(reqs, policies), maxEntries, |reqs|)
    requires Reached(reqs, policies).Ordered() && policies(key).limit >= 1
    requires length == if policies(key).window >= 1 then policies(key).window as real else 1.0
    ensures AdmittedIn(reqs, outcomes, key, from, from + length, |reqs|)
         <= 2 * (2 * policies(key).limit - 1)
  {
    var up, down, decided := Reached(reqs, policies), Unreached(reqs, policies), Decisions(outcomes);
    SharesAddUp(reqs, policies, outcomes, key, from, from + length, |reqs|);
    RedisSpanBound(counters, up, decided, key, from, length);
    LocalSpanBound(entries, down, maxEntries, decided, key, from, length);
  }

  lemma {:induction false} NoneDecided(t: Traffic, decided: seq<bool>, key: string, from: real, to: real, n: nat)
    requires n <= |t.reqs| == |decided|
    requires forall i :: 0 <= i < |t.reqs| && t.mine(t.reqs[i].redisUp) && t.reqs[i].key == key ==> !decided[i]
    ensures Count(t, decided, key, from, to, n) == 0
  {
    if n > 0 {
      NoneDecided(t, decided, key, from, to, n - 1);
    }
  }

  /** Raising keeps the bound of Redis alone. */
  lemma RaiseBound(counters: seq<Counters>, entries: seq<Entries>, reqs: seq<Request>,
                   policies: string -> Policy, maxEntries: nat, outcomes: seq<Outcome>, key: string, from: real,
                   length: real)
    requires Service(counters, entries, reqs, policies, maxEntries, Raise, outcomes)
    requires Reached(reqs, policies).Ordered() && policies(key).limit >= 1
    requires length == if policies(key).window >= 1 then policies(key).window as real else 1.0
    ensures AdmittedIn(reqs, outcomes, key, from, from + length, |reqs|) <= 2 * policies(key).limit - 1
  {
    var up, down, decided := Reached(reqs, policies), Unreached(reqs, policies), Decisions(outcomes);
    SharesAddUp(reqs, policies, outcomes, key, from, from + length, |reqs|);
    RedisSpanBound(counters, up, decided, key, from, length);
    NoneDecided(down, decided, key, from, from + length, |reqs|);
  }
}
