/** Evictions from the local limiter: without one it follows the policy, and the first one can be told
    from the outside. */
module RateLimitEvictions {
  import opened Options
  import opened OrderedDicts
  import opened FixedWindow
  import opened RateLimit
  import opened RateLimitRuns

  lemma {:induction false} WindowBounds(times: seq<real>, limit: int, ttl: real)
    requires limit >= 1
    ensures After(times, limit, ttl).Some? ==> 1 <= After(times, limit, ttl).value.admitted <= limit
  {
    if times != [] {
      WindowBounds(times[..|times| - 1], limit, ttl);
    }
  }

  predicate Limited(entries: Entries, policies: string -> Policy) {
    forall i :: 0 <= i < |entries| ==> policies(entries[i].key).limit >= 1
  }

  lemma KeepLimited(entries: Entries, p: Entry -> bool, policies: string -> Policy)
    requires Limited(entries, policies)
    ensures Limited(Keep(entries, p), policies)
  {
    var kept := Keep(entries, p);
    forall i | 0 <= i < |kept| ensures policies(kept[i].key).limit >= 1 {
      KeepFrom(entries, p, i);
      var j :| 0 <= j < |entries| && entries[j] == kept[i] && p(entries[j].value);
    }
  }

  lemma RenewLimited(entries: Entries, key: string, e: Entry, policies: string -> Policy)
    requires Limited(entries, policies) && policies(key).limit >= 1
    ensures Limited(Renew(entries, key, e), policies)
  {
    RemoveShape(entries, key);
    if Has(entries, key) {
      var i :| 0 <= i < |entries| && entries[i].key == key && Remove(entries, key) == entries[..i] + entries[i + 1..];
    }
  }

  lemma CountedLimited(entries: Entries, r: Request, policies: string -> Policy)
    requires Limited(entries, policies) && policies(r.key).limit >= 1
    ensures Limited(Counted(entries, r, policies(r.key)), policies)
  {
    KeepLimited(entries, LiveAt(r.now), policies);
    var current := Current(entries, r.key, r.now, Ttl(policies(r.key)));
    RenewLimited(Purge(entries, r.now), r.key, Entry(current.count + 1, current.expiresAt), policies);
  }

  lemma {:induction false} RunLimited(run: seq<Entries>, t: Traffic, maxEntries: nat, n: nat)
    requires LocalRun(run, t, maxEntries) && n <= |t.reqs|
    ensures Limited(run[n], t.policies)
  {
    if n > 0 {
      RunLimited(run, t, maxEntries, n - 1);
      assert LocalStepAt(run, t, maxEntries, n - 1);
      if t.Asked(n - 1) {
        CountedLimited(run[n - 1], t.reqs[n - 1], t.policies);
      }
    }
  }

  predicate CountsTo(entries: Entries, r: Request, policy: Policy, n: nat) {
    && Distinct(entries)
    && Find(entries, r.key) == if n == 0 then None else Some(Entry(n, r.now + Ttl(policy)))
  }

  lemma CountsOneMore(entries: Entries, r: Request, policy: Policy, maxEntries: nat, n: nat)
    requires CountsTo(entries, r, policy, n) && n < policy.limit && maxEntries >= 1
    ensures LocalAdmits(entries, r, policy)
    ensures CountsTo(LocalStep(entries, r, policy, maxEntries), r, policy, n + 1)
  {
    FindKeep(entries, LiveAt(r.now), r.key);
    CountedDistinct(entries, r, policy);
    var counted := Counted(entries, r, policy);
    NewestDistinct(counted, maxEntries);
    var kept := Newest(counted, maxEntries);
    assert kept[|kept| - 1] == Pair(r.key, Entry(n + 1, r.now + Ttl(policy)));
    FindAt(kept, |kept| - 1);
  }

  lemma {:induction false} SizeOfRun(run: seq<Entries>, t: Traffic, maxEntries: nat, n: nat)
    requires LocalRun(run, t, maxEntries) && n <= |t.reqs|
    ensures |run[n]| <= maxEntries
  {
    if n > 0 {
      SizeOfRun(run, t, maxEntries, n - 1);
      assert LocalStepAt(run, t, maxEntries, n - 1);
      KeepShorter(run[n - 1], LiveAt(t.reqs[n - 1].now));
    }
  }

  lemma DroppedIsAbsent<K, V>(d: Dict<K, V>, n: nat)
    requires Distinct(d) && n < |d|
    ensures Find(Newest(d, n), d[0].key).None?
  {
    FindAbsent(Newest(d, n), d[0].key);
  }

  /** Nothing that is counted has expired. */
  lemma FirstIsLive(entries: Entries, r: Request, policy: Policy)
    requires Distinct(entries) && Counted(entries, r, policy) != []
    ensures r.now < Counted(entries, r, policy)[0].value.expiresAt
  {
    var counted := Counted(entries, r, policy);
    CountedDistinct(entries, r, policy);
    FindAt(counted, 0);
    var key := counted[0].key;
    FindKeep(entries, LiveAt(r.now), key);
    if LocalAdmits(entries, r, policy) {
      var current := Current(entries, r.key, r.now, Ttl(policy));
      FindKeep(entries, LiveAt(r.now), r.key);
      FindRenew(Purge(entries, r.now), r.key, Entry(current.count + 1, current.expiresAt), key);
    }
  }

  /** The pair an eviction drops first had an open window and is gone. */
  lemma EvictedWasOpen(run: seq<Entries>, t: Traffic, maxEntries: nat, i: nat) returns (key: string)
    requires LocalRun(run, t, maxEntries) && t.Ordered() && maxEntries >= 1
    requires i < |t.reqs| && Fits(run, t, maxEntries, i) && !FitsAt(run, t, maxEntries, i)
    ensures t.policies(key).limit >= 1 && Find(run[i + 1], key).None?
    ensures IsOpen(WindowOf(t, key, i + 1), t.reqs[i].now, Ttl(t.policies(key)))
  {
    var r, entries, policy := t.reqs[i], run[i], t.PolicyAt(i);
    var purged, counted := Purge(entries, r.now), Counted(entries, r, policy);
    assert LocalStepAt(run, t, maxEntries, i);
    RunDistinct(run, t, maxEntries, i);
    RunLimited(run, t, maxEntries, i);
    CountedDistinct(entries, r, policy);
    CountedLimited(entries, r, t.policies);
    SizeOfRun(run, t, maxEntries, i);
    KeepShorter(entries, LiveAt(r.now));
    key := counted[0].key;
    WindowStep(t, key, i);
    LocalHoldsAt(run, t, maxEntries, key, i, r.now);
    CountedHolds(entries, r, policy, key, WindowOf(t, key, i), t.policies(key));
    FindAt(counted, 0);
    DroppedIsAbsent(counted, maxEntries);
    FirstIsLive(entries, r, policy);
  }

  // ---------- going on with a run ----------

  /** The traffic with one more request. */
  function Then(t: Traffic, r: Request): Traffic {
    t.(reqs := t.reqs + [r])
  }

  /** A request like `r` can come next. */
  predicate CanFollow(t: Traffic, r: Request) {
    t.Ordered() && t.mine(r.redisUp) && forall i :: 0 <= i < |t.reqs| ==> t.reqs[i].now <= r.now
  }

  lemma {:induction false} TimesThen(t: Traffic, r: Request, key: string, n: nat)
    requires n <= |t.reqs|
    ensures TimesOf(Then(t, r), key, n) == TimesOf(t, key, n)
  {
    if n > 0 {
      TimesThen(t, r, key, n - 1);
    }
  }

  /** One more request moves the window on as the policy says. */
  lemma WindowThen(t: Traffic, r: Request)
    requires t.mine(r.redisUp)
    ensures var n, policy := |t.reqs|, t.policies(r.key);
      && WindowOf(Then(t, r), r.key, n) == WindowOf(t, r.key, n)
      && WindowOf(Then(t, r), r.key, n + 1) == Next(WindowOf(t, r.key, n), r.now, policy.limit, Ttl(policy))
  {
    TimesThen(t, r, r.key, |t.reqs|);
    WindowStep(Then(t, r), r.key, |t.reqs|);
  }

  function RunThen(run: seq<Entries>, t: Traffic, maxEntries: nat, r: Request): seq<Entries>
    requires run != []
  {
    run + [LocalStep(run[|run| - 1], r, t.policies(r.key), maxEntries)]
  }

  lemma RunGoesOn(run: seq<Entries>, t: Traffic, maxEntries: nat, r: Request)
    requires LocalRun(run, t, maxEntries) && t.mine(r.redisUp) && t.policies(r.key).limit >= 1
    ensures LocalRun(RunThen(run, t, maxEntries, r), Then(t, r), maxEntries)
    ensures RunThen(run, t, maxEntries, r)[|t.reqs| + 1]
         == LocalStep(run[|t.reqs|], r, t.policies(r.key), maxEntries)
  {
    var longer, t' := RunThen(run, t, maxEntries, r), Then(t, r);
    forall i | 0 <= i < |t'.reqs| ensures LocalStepAt(longer, t', maxEntries, i) {
      if i < |t.reqs| {
        assert LocalStepAt(run, t, maxEntries, i);
        assert t'.reqs[i] == t.reqs[i] && longer[i] == run[i] && longer[i + 1] == run[i + 1];
      }
    }
  }

  lemma FollowsAgain(t: Traffic, r: Request)
    requires CanFollow(t, r)
    ensures CanFollow(Then(t, r), r)
  {
  }

  /** `longer` and `t'` go on from `run` and `t`. */
  ghost predicate GoesOn(run: seq<Entries>, t: Traffic, longer: seq<Entries>, t': Traffic) {
    run <= longer && t.reqs <= t'.reqs && t'.policies == t.policies && t'.mine == t.mine
  }

  lemma GoesOnFurther(run: seq<Entries>, t: Traffic, longer: seq<Entries>, t': Traffic, maxEntries: nat, r: Request)
    requires longer != [] && GoesOn(run, t, longer, t')
    ensures GoesOn(run, t, RunThen(longer, t', maxEntries, r), Then(t', r))
  {
  }

  // ---------- asking for open windows only ----------

  /** Request j is asked about and its key has an open window then. */
  predicate OpenAt(t: Traffic, j: nat)
    requires j < |t.reqs|
  {
    t.Asked(j) && IsOpen(WindowOf(t, t.reqs[j].key, j), t.reqs[j].now, Ttl(t.PolicyAt(j)))
  }

  /** From request n on only keys with an open window are asked for: no request adds a key. */
  predicate AsksOpen(t: Traffic, n: nat) {
    forall j :: n <= j < |t.reqs| ==> OpenAt(t, j)
  }

  lemma OpenThen(t: Traffic, n: nat, r: Request)
    requires n <= |t.reqs| && AsksOpen(t, n) && t.mine(r.redisUp) && t.policies(r.key).limit >= 1
    requires IsOpen(WindowOf(t, r.key, |t.reqs|), r.now, Ttl(t.policies(r.key)))
    ensures AsksOpen(Then(t, r), n)
  {
    forall j | n <= j < |t.reqs| + 1 ensures OpenAt(Then(t, r), j) {
      if j < |t.reqs| {
        assert OpenAt(t, j);
        TimesThen(t, r, t.reqs[j].key, j);
      } else {
        TimesThen(t, r, r.key, j);
      }
    }
  }

  /** Writing an entry that is there adds none. */
  lemma RenewKeepsSize(entries: Entries, key: string, e: Entry)
    requires Find(entries, key).Some?
    ensures |Renew(entries, key, e)| == |entries|
  {
    var i := RemoveAt(entries, key);
  }

  /** A request for an open window fits wherever everything before it did. */
  lemma OpenFits(run: seq<Entries>, t: Traffic, maxEntries: nat, j: nat)
    requires LocalRun(run, t, maxEntries) && t.Ordered()
    requires j < |t.reqs| && OpenAt(t, j) && Fits(run, t, maxEntries, j)
    ensures FitsAt(run, t, maxEntries, j)
  {
    var r, entries, policy := t.reqs[j], run[j], t.PolicyAt(j);
    LocalHoldsAt(run, t, maxEntries, r.key, j, r.now);
    RunDistinct(run, t, maxEntries, j);
    PurgeHolds(entries, r.key, WindowOf(t, r.key, j), policy, r.now);
    SizeOfRun(run, t, maxEntries, j);
    KeepShorter(entries, LiveAt(r.now));
    var current := Current(entries, r.key, r.now, Ttl(policy));
    RenewKeepsSize(Purge(entries, r.now), r.key, Entry(current.count + 1, current.expiresAt));
  }

  lemma {:induction false} OpenKeepsFitting(run: seq<Entries>, t: Traffic, maxEntries: nat, n: nat, m: nat)
    requires LocalRun(run, t, maxEntries) && t.Ordered()
    requires n <= m <= |t.reqs| && AsksOpen(t, n) && Fits(run, t, maxEntries, n)
    ensures Fits(run, t, maxEntries, m)
    decreases m
  {
    if n < m {
      OpenKeepsFitting(run, t, maxEntries, n, m - 1);
      assert OpenAt(t, m - 1);
      OpenFits(run, t, maxEntries, m - 1);
    }
  }

  /** At the end of the run the limiter has counted `k` requests like `r` and the window is `w`. */
  ghost predicate Asking(run: seq<Entries>, t: Traffic, maxEntries: nat, r: Request, k: nat, w: Window) {
    && LocalRun(run, t, maxEntries) && CanFollow(t, r) && maxEntries >= 1 && t.policies(r.key).limit >= 1
    && CountsTo(run[|t.reqs|], r, t.policies(r.key), k)
    && WindowOf(t, r.key, |t.reqs|) == Some(w)
  }

  lemma AskOnce(run: seq<Entries>, t: Traffic, maxEntries: nat, r: Request, k: nat, w: Window)
    requires Asking(run, t, maxEntries, r, k, w) && IsOpen(Some(w), r.now, Ttl(t.policies(r.key)))
    requires k < t.policies(r.key).limit && w.admitted < t.policies(r.key).limit
    ensures Asking(RunThen(run, t, maxEntries, r), Then(t, r), maxEntries, r, k + 1, Window(w.since, w.admitted + 1))
  {
    var longer, t' := RunThen(run, t, maxEntries, r), Then(t, r);
    RunGoesOn(run, t, maxEntries, r);
    assert CountsTo(longer[|t'.reqs|], r, t.policies(r.key), k + 1) by {
      CountsOneMore(run[|t.reqs|], r, t.policies(r.key), maxEntries, k);
    }
    assert WindowOf(t', r.key, |t'.reqs|) == Some(Window(w.since, w.admitted + 1)) by {
      WindowThen(t, r);
    }
    assert CanFollow(t', r) by {
      FollowsAgain(t, r);
    }
  }

  /** From request n on only requests like `r` come. */
  predicate AsksFor(t: Traffic, n: nat, r: Request) {
    forall j :: n <= j < |t.reqs| ==> t.reqs[j] == r
  }

  /** The run goes on with requests like `r` alone, each while the key's window is open. */
  ghost predicate GoesOnWith(run: seq<Entries>, t: Traffic, longer: seq<Entries>, t': Traffic, r: Request) {
    GoesOn(run, t, longer, t') && AsksOpen(t', |t.reqs|) && AsksFor(t', |t.reqs|, r)
  }

  lemma GoesOnWithMore(run: seq<Entries>, t: Traffic, longer: seq<Entries>, t': Traffic, maxEntries: nat, r: Request)
    requires longer != [] && GoesOnWith(run, t, longer, t', r)
    requires t'.mine(r.redisUp) && t'.policies(r.key).limit >= 1
    requires IsOpen(WindowOf(t', r.key, |t'.reqs|), r.now, Ttl(t'.policies(r.key)))
    ensures GoesOnWith(run, t, RunThen(longer, t', maxEntries, r), Then(t', r), r)
  {
    GoesOnFurther(run, t, longer, t', maxEntries, r);
    OpenThen(t', |t.reqs|, r);
  }

  lemma AskOnceMore(run: seq<Entries>, t: Traffic, longer: seq<Entries>, t': Traffic, maxEntries: nat, r: Request,
                    k: nat, w: Window)
    requires Asking(longer, t', maxEntries, r, k, w) && GoesOnWith(run, t, longer, t', r)
    requires IsOpen(Some(w), r.now, Ttl(t'.policies(r.key)))
    requires k < t'.policies(r.key).limit && w.admitted < t'.policies(r.key).limit
    ensures Asking(RunThen(longer, t', maxEntries, r), Then(t', r), maxEntries, r, k + 1, Window(w.since, w.admitted + 1))
    ensures GoesOnWith(run, t, RunThen(longer, t', maxEntries, r), Then(t', r), r)
  {
    AskOnce(longer, t', maxEntries, r, k, w);
    GoesOnWithMore(run, t, longer, t', maxEntries, r);
  }

  /** After `n` more requests both have counted all of them. */
  lemma {:induction false} AskRepeatedly(run: seq<Entries>, t: Traffic, maxEntries: nat, r: Request, w: Window,
                                         n: nat) returns (longer: seq<Entries>, t': Traffic)
    requires Asking(run, t, maxEntries, r, 0, w) && IsOpen(Some(w), r.now, Ttl(t.policies(r.key)))
    requires w.admitted + n <= t.policies(r.key).limit
    ensures Asking(longer, t', maxEntries, r, n, Window(w.since, w.admitted + n)) && GoesOnWith(run, t, longer, t', r)
  {
    if n == 0 {
      longer, t' := run, t;
    } else {
      var shorter, before := AskRepeatedly(run, t, maxEntries, r, w, n - 1);
      assert before.policies == t.policies;
      var w' := Window(w.since, w.admitted + n - 1);
      AskOnceMore(run, t, shorter, before, maxEntries, r, n - 1, w');
      assert Window(w'.since, w'.admitted + 1) == Window(w.since, w.admitted + n);
      longer, t' := RunThen(shorter, before, maxEntries, r), Then(before, r);
    }
  }

  // ---------- an eviction always shows ----------

  /** The limiter admits request i and the policy does not. */
  ghost predicate Differs(run: seq<Entries>, t: Traffic, i: nat)
    requires i < |t.reqs| <= |run|
  {
    t.Asked(i) && LocalAdmits(run[i], t.reqs[i], t.PolicyAt(i)) && !PolicyAdmits(t, i)
  }

  /** A full window and a limiter that has not counted all of it decide the next request differently. */
  lemma FullWindowDiffers(run: seq<Entries>, t: Traffic, maxEntries: nat, r: Request, k: nat, w: Window)
    requires Asking(run, t, maxEntries, r, k, w) && IsOpen(Some(w), r.now, Ttl(t.policies(r.key)))
    requires k < t.policies(r.key).limit <= w.admitted
    ensures LocalRun(RunThen(run, t, maxEntries, r), Then(t, r), maxEntries) && Then(t, r).Ordered()
    ensures Differs(RunThen(run, t, maxEntries, r), Then(t, r), |t.reqs|)
  {
    CountsOneMore(run[|t.reqs|], r, t.policies(r.key), maxEntries, k);
    RunGoesOn(run, t, maxEntries, r);
    WindowThen(t, r);
    FollowsAgain(t, r);
  }

  lemma StartsAsking(run: seq<Entries>, t: Traffic, maxEntries: nat, r: Request)
    requires LocalRun(run, t, maxEntries) && CanFollow(t, r) && maxEntries >= 1
    requires t.policies(r.key).limit >= 1 && Find(run[|t.reqs|], r.key).None?
    requires WindowOf(t, r.key, |t.reqs|).Some?
    ensures var w := WindowOf(t, r.key, |t.reqs|).value;
      Asking(run, t, maxEntries, r, 0, w) && 1 <= w.admitted <= t.policies(r.key).limit
  {
    WindowBounds(TimesOf(t, r.key, |t.reqs|), t.policies(r.key).limit, Ttl(t.policies(r.key)));
    RunDistinct(run, t, maxEntries, |t.reqs|);
  }

  lemma FullWindowShows(run: seq<Entries>, t: Traffic, full: seq<Entries>, before: Traffic, maxEntries: nat, r: Request,
                        k: nat, w: Window)
    requires Asking(full, before, maxEntries, r, k, w) && IsOpen(Some(w), r.now, Ttl(before.policies(r.key)))
    requires k < before.policies(r.key).limit <= w.admitted
    requires GoesOnWith(run, t, full, before, r)
    ensures var longer, t' := RunThen(full, before, maxEntries, r), Then(before, r);
      && LocalRun(longer, t', maxEntries) && t'.Ordered() && GoesOnWith(run, t, longer, t', r)
      && Differs(longer, t', |t'.reqs| - 1)
  {
    FullWindowDiffers(full, before, maxEntries, r, k, w);
    GoesOnWithMore(run, t, full, before, maxEntries, r);
  }

  /** A limiter that has dropped a key with an open window admits a request that the policy rejects,
      once that key alone is asked for often enough. */
  lemma ForgottenKeyShows(run: seq<Entries>, t: Traffic, maxEntries: nat, r: Request)
    returns (longer: seq<Entries>, t': Traffic)
    requires LocalRun(run, t, maxEntries) && CanFollow(t, r) && maxEntries >= 1
    requires t.policies(r.key).limit >= 1 && Find(run[|t.reqs|], r.key).None?
    requires IsOpen(WindowOf(t, r.key, |t.reqs|), r.now, Ttl(t.policies(r.key)))
    ensures LocalRun(longer, t', maxEntries) && t'.Ordered() && GoesOnWith(run, t, longer, t', r)
    ensures |t'.reqs| > |t.reqs|
    ensures Differs(longer, t', |t'.reqs| - 1)
  {
    var policy, w := t.policies(r.key), WindowOf(t, r.key, |t.reqs|).value;
    StartsAsking(run, t, maxEntries, r);
    var n := policy.limit - w.admitted;
    var full, before := AskRepeatedly(run, t, maxEntries, r, w, n);
    FullWindowShows(run, t, full, before, maxEntries, r, n, Window(w.since, w.admitted + n));
    longer, t' := RunThen(full, before, maxEntries, r), Then(before, r);
  }

  /** The traffic before request n. */
  function UpTo(t: Traffic, n: nat): Traffic
    requires n <= |t.reqs|
  {
    t.(reqs := t.reqs[..n])
  }

  lemma RunUpTo(run: seq<Entries>, t: Traffic, maxEntries: nat, n: nat)
    requires LocalRun(run, t, maxEntries) && n <= |t.reqs|
    ensures LocalRun(run[..n + 1], UpTo(t, n), maxEntries)
  {
    var shorter, t' := run[..n + 1], UpTo(t, n);
    forall j | 0 <= j < |t'.reqs| ensures LocalStepAt(shorter, t', maxEntries, j) {
      assert LocalStepAt(run, t, maxEntries, j);
    }
  }

  lemma {:induction false} TimesUpTo(t: Traffic, m: nat, key: string, n: nat)
    requires n <= m <= |t.reqs|
    ensures TimesOf(UpTo(t, m), key, n) == TimesOf(t, key, n)
  {
    if n > 0 {
      TimesUpTo(t, m, key, n - 1);
    }
  }

  /** `longer` goes on from the first n requests of the run and asks for open windows only. */
  ghost predicate Continuation(run: seq<Entries>, t: Traffic, maxEntries: nat, n: nat, longer: seq<Entries>, t': Traffic)
    requires n <= |t.reqs| < |run|
  {
    && LocalRun(longer, t', maxEntries) && t'.Ordered()
    && GoesOn(run[..n + 1], UpTo(t, n), longer, t') && AsksOpen(t', n)
  }

  /** After the first eviction some continuation for the dropped key alone tells the limiter from the
      policy: it admits a request that the policy rejects. */
  lemma EvictionIsObservable(run: seq<Entries>, t: Traffic, maxEntries: nat, i: nat)
    returns (longer: seq<Entries>, t': Traffic)
    requires LocalRun(run, t, maxEntries) && t.Ordered() && maxEntries >= 1
    requires i < |t.reqs| && Fits(run, t, maxEntries, i) && !FitsAt(run, t, maxEntries, i)
    ensures Continuation(run, t, maxEntries, i + 1, longer, t') && |t'.reqs| > i + 1
    ensures AsksFor(t', i + 1, t'.reqs[i + 1])
    ensures Differs(longer, t', |t'.reqs| - 1)
  {
    var key := EvictedWasOpen(run, t, maxEntries, i);
    var r := Request(key, t.reqs[i].now, t.reqs[i].redisUp);
    RunUpTo(run, t, maxEntries, i + 1);
    TimesUpTo(t, i + 1, key, i + 1);
    longer, t' := ForgottenKeyShows(run[..i + 2], UpTo(t, i + 1), maxEntries, r);
  }

  // ---------- fitting is exactly what it takes ----------

  /** From request n on every decision is the policy's. */
  ghost predicate DecidedAsPolicy(run: seq<Entries>, t: Traffic, n: nat)
    requires |t.reqs| <= |run|
  {
    forall j :: n <= j < |t.reqs| && t.Asked(j) ==>
      LocalAdmits(run[j], t.reqs[j], t.PolicyAt(j)) == PolicyAdmits(t, j)
  }

  /** No continuation of any part of the run is decided otherwise. */
  ghost predicate AlwaysDecidedAsPolicy(run: seq<Entries>, t: Traffic, maxEntries: nat)
    requires |t.reqs| < |run|
  {
    forall n: nat, longer, t' :: n <= |t.reqs| && Continuation(run, t, maxEntries, n, longer, t') ==>
      DecidedAsPolicy(longer, t', n)
  }

  lemma FitsCarriesOver(run: seq<Entries>, t: Traffic, maxEntries: nat, n: nat, longer: seq<Entries>, t': Traffic)
    requires n <= |t.reqs| < |run| && Continuation(run, t, maxEntries, n, longer, t')
    requires Fits(run, t, maxEntries, n)
    ensures n <= |t'.reqs| && Fits(longer, t', maxEntries, n)
  {
    forall i | 0 <= i < n ensures FitsAt(longer, t', maxEntries, i) {
      assert FitsAt(run, t, maxEntries, i);
      assert longer[i] == run[..n + 1][i] && t'.reqs[i] == UpTo(t, n).reqs[i];
    }
  }

  /** From a run that fits, every continuation that asks for open windows is decided as the policy says. */
  lemma FittingFollows(run: seq<Entries>, t: Traffic, maxEntries: nat, n: nat, longer: seq<Entries>, t': Traffic)
    requires n <= |t.reqs| < |run| && Continuation(run, t, maxEntries, n, longer, t')
    requires Fits(run, t, maxEntries, n)
    ensures DecidedAsPolicy(longer, t', n)
  {
    FitsCarriesOver(run, t, maxEntries, n, longer, t');
    forall j | n <= j < |t'.reqs| && t'.Asked(j)
      ensures LocalAdmits(longer[j], t'.reqs[j], t'.PolicyAt(j)) == PolicyAdmits(t', j)
    {
      OpenKeepsFitting(longer, t', maxEntries, n, j);
      LocalFollowsPolicy(longer, t', maxEntries, j);
    }
  }

  lemma {:induction false} FirstEviction(run: seq<Entries>, t: Traffic, maxEntries: nat, n: nat) returns (i: nat)
    requires n <= |t.reqs| <= |run| && !Fits(run, t, maxEntries, n)
    ensures i < n && Fits(run, t, maxEntries, i) && !FitsAt(run, t, maxEntries, i)
  {
    if Fits(run, t, maxEntries, n - 1) {
      i := n - 1;
    } else {
      i := FirstEviction(run, t, maxEntries, n - 1);
    }
  }

  /** Nothing is evicted exactly when no continuation that asks for open windows only, from any point
      of the run, is decided differently from the policy. */
  lemma FittingIsFollowing(run: seq<Entries>, t: Traffic, maxEntries: nat)
    requires LocalRun(run, t, maxEntries) && t.Ordered() && maxEntries >= 1
    ensures Fits(run, t, maxEntries, |t.reqs|) <==> AlwaysDecidedAsPolicy(run, t, maxEntries)
  {
    if Fits(run, t, maxEntries, |t.reqs|) {
      forall n: nat, longer, t' | n <= |t.reqs| && Continuation(run, t, maxEntries, n, longer, t')
        ensures DecidedAsPolicy(longer, t', n)
      {
        FittingFollows(run, t, maxEntries, n, longer, t');
      }
    } else {
      var i := FirstEviction(run, t, maxEntries, |t.reqs|);
      var longer, t' := EvictionIsObservable(run, t, maxEntries, i);
      assert !DecidedAsPolicy(longer, t', i + 1);
    }
  }
}
