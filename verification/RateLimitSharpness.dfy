/** The bound for the fallback is reached. */
module RateLimitSharpness {
  import opened OrderedDicts
  import opened FixedWindow
  import opened RateLimit
  import opened RateLimitRuns
  import opened RateLimitSpans

  // ---------- every traffic has its runs ----------

  lemma {:induction false} RedisRunExists(t: Traffic) returns (run: seq<Counters>)
    ensures RedisRun(run, t)
    decreases |t.reqs|
  {
    if t.reqs == [] {
      run := [map[]];
    } else {
      var n := |t.reqs| - 1;
      var before := t.(reqs := t.reqs[..n]);
      var shorter := RedisRunExists(before);
      run := shorter + [if t.Asked(n) then RedisStep(shorter[n], t.reqs[n], t.PolicyAt(n)) else shorter[n]];
      forall i | 0 <= i < n ensures RedisStepAt(run, t, i) {
        assert RedisStepAt(shorter, before, i);
      }
    }
  }

  lemma {:induction false} LocalRunExists(t: Traffic, maxEntries: nat) returns (run: seq<Entries>)
    ensures LocalRun(run, t, maxEntries)
    decreases |t.reqs|
  {
    if t.reqs == [] {
      run := [[]];
    } else {
      var n := |t.reqs| - 1;
      var before := t.(reqs := t.reqs[..n]);
      var shorter := LocalRunExists(before, maxEntries);
      run := shorter + [if t.Asked(n) then LocalStep(shorter[n], t.reqs[n], t.PolicyAt(n), maxEntries) else shorter[n]];
      forall i | 0 <= i < n ensures LocalStepAt(run, t, maxEntries, i) {
        assert LocalStepAt(shorter, before, maxEntries, i);
      }
    }
  }

  // ---------- one key always fits ----------

  predicate OnlyKey(entries: Entries, key: string) {
    forall i :: 0 <= i < |entries| ==> entries[i].key == key
  }

  lemma PurgeOnlyKey(entries: Entries, key: string, now: real)
    requires OnlyKey(entries, key)
    ensures OnlyKey(Purge(entries, now), key)
  {
    var kept := Purge(entries, now);
    forall i | 0 <= i < |kept| ensures kept[i].key == key {
      KeepFrom(entries, LiveAt(now), i);
      var j :| 0 <= j < |entries| && entries[j] == kept[i] && LiveAt(now)(entries[j].value);
    }
  }

  lemma RenewOnlyKey(entries: Entries, key: string, e: Entry)
    requires OnlyKey(entries, key)
    ensures OnlyKey(Renew(entries, key, e), key)
  {
    RemoveShape(entries, key);
    if Has(entries, key) {
      var i :| 0 <= i < |entries| && entries[i].key == key && Remove(entries, key) == entries[..i] + entries[i + 1..];
    }
  }

  lemma TwoAreNotDistinct(entries: Entries, key: string)
    requires OnlyKey(entries, key) && |entries| > 1
    ensures !Distinct(entries)
  {
    assert entries[0].key == entries[1].key;
  }

  lemma AtMostOne(entries: Entries, key: string)
    requires Distinct(entries) && OnlyKey(entries, key)
    ensures |entries| <= 1
  {
    if |entries| > 1 {
      TwoAreNotDistinct(entries, key);
    }
  }

  lemma CountedOnlyKey(entries: Entries, r: Request, policy: Policy)
    requires Distinct(entries) && OnlyKey(entries, r.key)
    ensures OnlyKey(Counted(entries, r, policy), r.key) && |Counted(entries, r, policy)| <= 1
  {
    PurgeOnlyKey(entries, r.key, r.now);
    var current := Current(entries, r.key, r.now, Ttl(policy));
    RenewOnlyKey(Purge(entries, r.now), r.key, Entry(current.count + 1, current.expiresAt));
    CountedDistinct(entries, r, policy);
    AtMostOne(Counted(entries, r, policy), r.key);
  }

  lemma StepOnlyKey(entries: Entries, r: Request, policy: Policy)
    requires Distinct(entries) && OnlyKey(entries, r.key)
    ensures OnlyKey(LocalStep(entries, r, policy, 1), r.key)
  {
    CountedOnlyKey(entries, r, policy);
  }

  lemma {:induction false} OneKeyRun(run: seq<Entries>, t: Traffic, key: string, n: nat)
    requires LocalRun(run, t, 1) && n <= |t.reqs| && forall i :: 0 <= i < |t.reqs| ==> t.reqs[i].key == key
    ensures OnlyKey(run[n], key)
  {
    if n > 0 {
      OneKeyRun(run, t, key, n - 1);
      RunDistinct(run, t, 1, n - 1);
      assert LocalStepAt(run, t, 1, n - 1);
      assert t.reqs[n - 1].key == key;
      StepOnlyKey(run[n - 1], t.reqs[n - 1], t.PolicyAt(n - 1));
    }
  }

  lemma OneKeyFits(run: seq<Entries>, t: Traffic, key: string)
    requires LocalRun(run, t, 1) && forall i :: 0 <= i < |t.reqs| ==> t.reqs[i].key == key
    ensures Fits(run, t, 1, |t.reqs|)
  {
    forall i | 0 <= i < |t.reqs| ensures FitsAt(run, t, 1, i) {
      OneKeyRun(run, t, key, i);
      RunDistinct(run, t, 1, i);
      CountedOnlyKey(run[i], t.reqs[i], t.PolicyAt(i));
    }
  }

  // ---------- the same times for both backends ----------

  /** At every time one request that reaches Redis and one that does not. */
  function Twice(key: string, times: seq<real>): seq<Request> {
    if times == [] then []
    else
      var n := |times| - 1;
      Twice(key, times[..n]) + [Request(key, times[n], true), Request(key, times[n], false)]
  }

  lemma {:induction false} TwiceCorrect(key: string, times: seq<real>)
    ensures var reqs := Twice(key, times);
      && |reqs| == 2 * |times|
      && (forall i :: 0 <= i < |reqs| ==> reqs[i].key == key && reqs[i].now == times[i / 2])
  {
    if times != [] {
      TwiceCorrect(key, times[..|times| - 1]);
    }
  }

  lemma {:induction false} TimesPrefix(t: Traffic, t': Traffic, key: string, n: nat)
    requires n <= |t.reqs| && t.reqs <= t'.reqs && t.mine == t'.mine
    ensures TimesOf(t, key, n) == TimesOf(t', key, n)
  {
    if n > 0 {
      TimesPrefix(t, t', key, n - 1);
    }
  }

  /** Of two requests at one time exactly one is for the backend. */
  lemma TimesOfTwo(t: Traffic, key: string, m: nat, time: real)
    requires m + 2 <= |t.reqs| && t.mine(true) != t.mine(false)
    requires t.reqs[m] == Request(key, time, true) && t.reqs[m + 1] == Request(key, time, false)
    ensures TimesOf(t, key, m + 2) == TimesOf(t, key, m) + [time]
  {
    assert TimesOf(t, key, m) + [] == TimesOf(t, key, m);
    assert TimesOf(t, key, m + 1) == TimesOf(t, key, m) + if t.mine(true) then [time] else [];
    assert TimesOf(t, key, m + 1) + [] == TimesOf(t, key, m + 1);
  }

  lemma {:induction false} TwiceTimes(key: string, times: seq<real>, t: Traffic)
    requires t.reqs == Twice(key, times) && t.mine(true) != t.mine(false)
    ensures TimesOf(t, key, |t.reqs|) == times
    decreases |times|
  {
    if times != [] {
      var n := |times| - 1;
      var before := t.(reqs := Twice(key, times[..n]));
      var m := |before.reqs|;
      TwiceTimes(key, times[..n], before);
      TimesPrefix(before, t, key, m);
      TimesOfTwo(t, key, m, times[n]);
      assert times == times[..n] + [times[n]];
    }
  }

  lemma TwiceOrdered(key: string, times: seq<real>, t: Traffic)
    requires Ascending(times) && t.reqs == Twice(key, times)
    ensures t.Ordered()
  {
    TwiceCorrect(key, times);
    forall i, j | 0 <= i < j < |t.reqs| ensures t.reqs[i].now <= t.reqs[j].now {
      assert i / 2 <= j / 2 < |times|;
    }
  }

  /** What the fallback admits is what the policy admits of each share. */
  lemma ServiceCounts(counters: seq<Counters>, entries: seq<Entries>, reqs: seq<Request>, policies: string -> Policy,
                      maxEntries: nat, outcomes: seq<Outcome>, key: string, from: real, to: real)
    requires Service(counters, entries, reqs, policies, maxEntries, LocalFallback, outcomes)
    requires Fits(entries, Unreached(reqs, policies), maxEntries, |reqs|)
    requires Unreached(reqs, policies).Ordered() && policies(key).limit >= 1
    ensures var limit, ttl := policies(key).limit, Ttl(policies(key));
      AdmittedIn(reqs, outcomes, key, from, to, |reqs|)
      == Admissions(TimesOf(Reached(reqs, policies), key, |reqs|), limit, ttl, from, to)
       + Admissions(TimesOf(Unreached(reqs, policies), key, |reqs|), limit, ttl, from, to)
  {
    var up, down, decided := Reached(reqs, policies), Unreached(reqs, policies), Decisions(outcomes);
    SharesAddUp(reqs, policies, outcomes, key, from, to, |reqs|);
    forall i | 0 <= i < |reqs| && up.mine(reqs[i].redisUp) && reqs[i].key == key ensures decided[i] == PolicyAdmits(up, i) {
      assert up.Asked(i);
      RedisFollowsPolicy(counters, up, i);
    }
    forall i | 0 <= i < |reqs| && down.mine(reqs[i].redisUp) && reqs[i].key == key
      ensures decided[i] == PolicyAdmits(down, i)
    {
      assert down.Asked(i);
      LocalFollowsPolicy(entries, down, maxEntries, i);
    }
    CountIsAdmissions(up, decided, key, from, to, |reqs|);
    CountIsAdmissions(down, decided, key, from, to, |reqs|);
  }

  function Always(policy: Policy): string -> Policy {
    (key: string) => policy
  }

  /** The service on one request of each kind at every time. */
  lemma ServeTwice(policy: Policy, key: string, times: seq<real>)
    returns (counters: seq<Counters>, entries: seq<Entries>, reqs: seq<Request>, outcomes: seq<Outcome>)
    requires Ascending(times)
    ensures reqs == Twice(key, times)
    ensures Service(counters, entries, reqs, Always(policy), 1, LocalFallback, outcomes)
    ensures Fits(entries, Unreached(reqs, Always(policy)), 1, |reqs|)
  {
    reqs := Twice(key, times);
    TwiceCorrect(key, times);
    var policies := Always(policy);
    counters := RedisRunExists(Reached(reqs, policies));
    entries := LocalRunExists(Unreached(reqs, policies), 1);
    outcomes := seq(|reqs|, i requires 0 <= i < |reqs| =>
      Enforce(counters[i], entries[i], reqs[i], policies(reqs[i].key), LocalFallback));
    OneKeyFits(entries, Unreached(reqs, policies), key);
  }

  /** For every limit and window some traffic of one key makes the fallback let 2 * (2 * limit - 1)
      requests through within one span of the window's length. */
  lemma FallbackBoundIsSharp(policy: Policy, key: string)
    returns (counters: seq<Counters>, entries: seq<Entries>, reqs: seq<Request>, outcomes: seq<Outcome>, from: real)
    requires policy.limit >= 1
    ensures Service(counters, entries, reqs, Always(policy), 1, LocalFallback, outcomes)
    ensures Fits(entries, Unreached(reqs, Always(policy)), 1, |reqs|) && Reached(reqs, Always(policy)).Ordered()
    ensures var length := if policy.window >= 1 then policy.window as real else 1.0;
      AdmittedIn(reqs, outcomes, key, from, from + length, |reqs|) == 2 * (2 * policy.limit - 1)
  {
    var times;
    times, from := SpanBoundIsSharp(policy.limit, Ttl(policy));
    counters, entries, reqs, outcomes := ServeTwice(policy, key, times);
    var up, down := Reached(reqs, Always(policy)), Unreached(reqs, Always(policy));
    TwiceOrdered(key, times, up);
    TwiceOrdered(key, times, down);
    TwiceTimes(key, times, up);
    TwiceTimes(key, times, down);
    ServiceCounts(counters, entries, reqs, Always(policy), 1, outcomes, key, from, from + Ttl(policy));
  }
}
