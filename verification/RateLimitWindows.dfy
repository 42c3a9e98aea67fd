/** What every run of requests meets, said on the requests alone: which one opened a key's window,
    how long that lasts and how many came since. */
module RateLimitWindows {
  import opened Options
  import opened FixedWindow
  import opened RateLimit
  import opened RateLimitRuns
  import opened RateLimitSpans

  /** The backend is asked about this key. */
  predicate AsksAbout(t: Traffic, key: string, j: int)
    requires 0 <= j < |t.reqs|
  {
    t.mine(t.reqs[j].redisUp) && t.reqs[j].key == key
  }

  /** The request that opened the key's last window before request n: the first one, and after it each
      that comes `length` seconds or more after the opener before it. */
  function Opener(t: Traffic, key: string, length: real, n: nat): (o: Option<nat>)
    requires n <= |t.reqs|
    ensures o.Some? ==> o.value < n
  {
    if n == 0 then None
    else
      var before := Opener(t, key, length, n - 1);
      if AsksAbout(t, key, n - 1)
         && (before.None? || t.reqs[before.value].now + length <= t.reqs[n - 1].now)
      then Some(n - 1) else before
  }

  /** There is a window from the key's first request on, and up to its opener's time plus `length` no
      later request opens another. */
  lemma {:induction false} OpenerIsTheLast(t: Traffic, key: string, length: real, n: nat)
    requires n <= |t.reqs|
    ensures var o := Opener(t, key, length, n);
      && (o.None? <==> forall j :: 0 <= j < n ==> !AsksAbout(t, key, j))
      && (o.Some? ==>
            && AsksAbout(t, key, o.value)
            && forall j :: o.value < j < n && AsksAbout(t, key, j) ==> t.reqs[j].now < t.reqs[o.value].now + length)
  {
    if n > 0 {
      OpenerIsTheLast(t, key, length, n - 1);
    }
  }

  /** How many requests about the key there are from request o up to request n. */
  function AskedSince(t: Traffic, key: string, o: nat, n: nat): nat
    requires n <= |t.reqs|
  {
    if n <= o then 0 else AskedSince(t, key, o, n - 1) + if AsksAbout(t, key, n - 1) then 1 else 0
  }

  /** Request i comes while its key's window lasts and after `limit` requests of that window. */
  predicate ComesTooSoon(t: Traffic, length: real, i: nat)
    requires i < |t.reqs|
  {
    var key := t.reqs[i].key;
    var o := Opener(t, key, length, i);
    && o.Some? && t.reqs[i].now < t.reqs[o.value].now + length
    && AskedSince(t, key, o.value, i) >= t.policies(key).limit
  }

  /** The window of the policy, from the requests: its opener's time, and the requests since, up to the limit. */
  function Opened(t: Traffic, key: string, length: real, n: nat): Option<Window>
    requires n <= |t.reqs|
  {
    match Opener(t, key, length, n)
    case None => None
    case Some(o) =>
      var asked, limit := AskedSince(t, key, o, n), t.policies(key).limit;
      Some(Window(t.reqs[o].now, if asked < limit || limit < 0 then asked else limit))
  }

  lemma OpenedNext(t: Traffic, key: string, length: real, n: nat)
    requires n < |t.reqs| && t.policies(key).limit >= 1
    ensures Opened(t, key, length, n + 1)
         == if AsksAbout(t, key, n)
            then Next(Opened(t, key, length, n), t.reqs[n].now, t.policies(key).limit, length)
            else Opened(t, key, length, n)
  {
    assert AskedSince(t, key, n, n) == 0;
  }

  lemma {:induction false} WindowIsOpened(t: Traffic, key: string, length: real, n: nat)
    requires n <= |t.reqs| && t.policies(key).limit >= 1
    requires length == if t.policies(key).window >= 1 then t.policies(key).window as real else 1.0
    ensures WindowOf(t, key, n) == Opened(t, key, length, n)
  {
    if n > 0 {
      WindowIsOpened(t, key, length, n - 1);
      WindowStep(t, key, n - 1);
      OpenedNext(t, key, length, n - 1);
    }
  }

  lemma PolicyRejectsExactly(t: Traffic, i: nat, length: real)
    requires i < |t.reqs| && t.Asked(i)
    requires length == if t.PolicyAt(i).window >= 1 then t.PolicyAt(i).window as real else 1.0
    ensures PolicyAdmits(t, i) <==> !ComesTooSoon(t, length, i)
  {
    WindowIsOpened(t, t.reqs[i].key, length, i);
  }

  /** In every run the Redis script rejects exactly the requests that come too soon. */
  lemma RedisRejectsExactly(run: seq<Counters>, t: Traffic, i: nat, length: real)
    requires RedisRun(run, t) && i < |t.reqs| && t.Asked(i)
    requires length == if t.PolicyAt(i).window >= 1 then t.PolicyAt(i).window as real else 1.0
    ensures RedisAdmits(run[i], t.reqs[i], t.PolicyAt(i)) <==> !ComesTooSoon(t, length, i)
  {
    RedisFollowsPolicy(run, t, i);
    PolicyRejectsExactly(t, i, length);
  }

  /** So does the local limiter while nothing is evicted. */
  lemma LocalRejectsExactly(run: seq<Entries>, t: Traffic, maxEntries: nat, i: nat, length: real)
    requires LocalRun(run, t, maxEntries) && t.Ordered()
    requires i < |t.reqs| && t.Asked(i) && Fits(run, t, maxEntries, i)
    requires length == if t.PolicyAt(i).window >= 1 then t.PolicyAt(i).window as real else 1.0
    ensures LocalAdmits(run[i], t.reqs[i], t.PolicyAt(i)) <==> !ComesTooSoon(t, length, i)
  {
    LocalFollowsPolicy(run, t, maxEntries, i);
    PolicyRejectsExactly(t, i, length);
  }

  /** A window that has let `limit` requests through lets no more through until it ends, and its key is
      admitted again from the instant it ends. */
  lemma FullUntilItEnds(redis: seq<Counters>, local: seq<Entries>, t: Traffic, maxEntries: nat, o: nat, i: nat,
                        length: real)
    requires RedisRun(redis, t) && o < i < |t.reqs| && t.Asked(i)
    requires LocalRun(local, t, maxEntries) && t.Ordered() && Fits(local, t, maxEntries, i)
    requires length == if t.PolicyAt(i).window >= 1 then t.PolicyAt(i).window as real else 1.0
    requires Opener(t, t.reqs[i].key, length, i) == Some(o)
    requires AskedSince(t, t.reqs[i].key, o, i) >= t.PolicyAt(i).limit
    ensures RedisAdmits(redis[i], t.reqs[i], t.PolicyAt(i)) <==> t.reqs[o].now + length <= t.reqs[i].now
    ensures LocalAdmits(local[i], t.reqs[i], t.PolicyAt(i)) <==> t.reqs[o].now + length <= t.reqs[i].now
  {
    RedisRejectsExactly(redis, t, i, length);
    LocalRejectsExactly(local, t, maxEntries, i, length);
  }

  /** Every outcome of the whole service, for every way of handling a failing Redis. */
  lemma ServiceDecidesExactly(counters: seq<Counters>, entries: seq<Entries>, reqs: seq<Request>,
                              policies: string -> Policy, maxEntries: nat, mode: FailureMode,
                              outcomes: seq<Outcome>, i: nat, length: real)
    requires Service(counters, entries, reqs, policies, maxEntries, mode, outcomes) && i < |reqs|
    requires mode == LocalFallback ==>
      Reached(reqs, policies).Ordered() && Fits(entries, Unreached(reqs, policies), maxEntries, i)
    requires var policy := policies(reqs[i].key);
      length == if policy.window >= 1 then policy.window as real else 1.0
    ensures policies(reqs[i].key).limit <= 0 ==> outcomes[i] == Admitted
    ensures policies(reqs[i].key).limit > 0 ==>
      outcomes[i] ==
        if reqs[i].redisUp then
          if ComesTooSoon(Reached(reqs, policies), length, i) then TooManyRequests else Admitted
        else if mode == Bypass then Admitted
        else if mode == Raise then BackendError
        else if ComesTooSoon(Unreached(reqs, policies), length, i) then TooManyRequests else Admitted
  {
    var up, down := Reached(reqs, policies), Unreached(reqs, policies);
    if policies(reqs[i].key).limit > 0 {
      if reqs[i].redisUp {
        RedisRejectsExactly(counters, up, i, length);
      } else if mode == LocalFallback {
        assert down.Ordered();
        LocalRejectsExactly(entries, down, maxEntries, i, length);
      }
    }
  }
}
