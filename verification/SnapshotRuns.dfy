/** Whole runs of the store under a clock that never goes back. */
module SnapshotRuns {
  import opened Options
  import opened OrderedDicts
  import opened SnapshotStore

  datatype Event<K, V> =
    | Set(values: Dict<K, V>, now: real)
    | Read(key: K, now: real)
    | Prune(now: real)
    | Stop(now: real)

  datatype Config = Config(ttl: real, max: Option<nat>)

  function Next<K(==), V>(d: Local<K, V>, e: Event<K, V>, c: Config): Local<K, V> {
    match e
    case Set(values, now) => SetMany(d, values, now, c.ttl, c.max)
    case Read(key, now) => AfterGet(d, key, now)
    case Prune(now) => PruneFront(d, now)
    case Stop(_) => []
  }

  /** Everything written since the last stop, in the order of the last write of
      each key, with nothing ever forgotten. */
  function Record<K(==), V>(h: Local<K, V>, e: Event<K, V>, c: Config): Local<K, V> {
    match e
    case Set(values, now) => WriteAll(h, values, now + c.ttl, |values|)
    case Read(_, _) => h
    case Prune(_) => h
    case Stop(_) => []
  }

  ghost predicate StepAt<K, V>(run: seq<Local<K, V>>, history: seq<Local<K, V>>, events: seq<Event<K, V>>, c: Config, i: nat)
    requires i < |events| && |run| == |history| == |events| + 1
  {
    run[i + 1] == Next(run[i], events[i], c) && history[i + 1] == Record(history[i], events[i], c)
  }

  ghost predicate IsRun<K, V>(run: seq<Local<K, V>>, history: seq<Local<K, V>>, events: seq<Event<K, V>>, c: Config) {
    && |run| == |history| == |events| + 1
    && run[0] == [] && history[0] == []
    && (forall i, j :: 0 <= i < j < |events| ==> events[i].now <= events[j].now)
    && forall i :: 0 <= i < |events| ==> StepAt(run, history, events, c, i)
  }

  // ---------- expiry never decreases along the order ----------

  ghost predicate Sorted<K, V>(d: Local<K, V>, last: real) {
    && Distinct(d) && ByExpiry(d)
    && forall i :: 0 <= i < |d| ==> d[i].value.expiresAt <= last
  }

  lemma CutSorted<K, V>(d: Local<K, V>, i: nat, last: real)
    requires Sorted(d, last) && i < |d|
    ensures Sorted(d[..i] + d[i + 1..], last)
  {
  }

  lemma RemoveSorted<K, V>(d: Local<K, V>, key: K, last: real)
    requires Sorted(d, last)
    ensures Sorted(Remove(d, key), last)
  {
    RemoveShape(d, key);
    if Has(d, key) {
      var i :| 0 <= i < |d| && d[i].key == key && Remove(d, key) == d[..i] + d[i + 1..];
      CutSorted(d, i, last);
    }
  }

  lemma RenewSorted<K, V>(d: Local<K, V>, key: K, s: Stored<V>, last: real)
    requires Sorted(d, last) && s.expiresAt == last
    ensures Sorted(Renew(d, key, s), last)
  {
    RemoveSorted(d, key, last);
    RenewDistinct(d, key, s);
  }

  lemma {:induction false} WriteSorted<K, V>(d: Local<K, V>, values: Dict<K, V>, last: real, n: nat)
    requires Sorted(d, last) && n <= |values|
    ensures Sorted(WriteAll(d, values, last, n), last)
  {
    if n > 0 {
      WriteSorted(d, values, last, n - 1);
      RenewSorted(WriteAll(d, values, last, n - 1), values[n - 1].key, Stored(values[n - 1].value, last), last);
    }
  }

  lemma {:induction false} PruneIsSuffix<K, V>(d: Local<K, V>, now: real)
    ensures exists k :: 0 <= k <= |d| && PruneFront(d, now) == d[k..]
  {
    if d != [] && d[0].value.expiresAt <= now {
      PruneIsSuffix(d[1..], now);
      var k :| 0 <= k <= |d[1..]| && PruneFront(d[1..], now) == d[1..][k..];
      assert d[1..][k..] == d[k + 1..];
    } else {
      assert d[0..] == d;
    }
  }

  lemma PruneSorted<K, V>(d: Local<K, V>, now: real, last: real)
    requires Sorted(d, last)
    ensures Sorted(PruneFront(d, now), last)
  {
    PruneIsSuffix(d, now);
    var k :| 0 <= k <= |d| && PruneFront(d, now) == d[k..];
  }

  lemma SortedLater<K, V>(d: Local<K, V>, last: real, later: real)
    requires Sorted(d, last) && last <= later
    ensures Sorted(d, later)
  {
  }

  lemma NewestSorted<K, V>(d: Local<K, V>, max: Option<nat>, last: real)
    requires Sorted(d, last)
    ensures Sorted(Limit(d, max), last)
  {
  }

  lemma NextSorted<K, V>(d: Local<K, V>, e: Event<K, V>, c: Config)
    requires Sorted(d, e.now + c.ttl)
    ensures Sorted(Next(d, e, c), e.now + c.ttl)
  {
    var last := e.now + c.ttl;
    match e
    case Set(values, now) =>
      PruneSorted(d, now, last);
      WriteSorted(PruneFront(d, now), values, last, |values|);
      NewestSorted(WriteAll(PruneFront(d, now), values, last, |values|), c.max, last);
    case Read(key, now) => RemoveSorted(d, key, last);
    case Prune(now) => PruneSorted(d, now, last);
    case Stop(_) =>
  }

  lemma {:induction false} RunSorted<K, V>(run: seq<Local<K, V>>, history: seq<Local<K, V>>, events: seq<Event<K, V>>,
                                           c: Config, n: nat, now: real)
    requires IsRun(run, history, events, c) && n <= |events|
    requires n > 0 ==> events[n - 1].now <= now
    ensures Sorted(run[n], now + c.ttl) && Sorted(history[n], now + c.ttl)
    decreases n
  {
    if n > 0 {
      var e := events[n - 1];
      assert n > 1 ==> events[n - 2].now <= e.now;
      RunSorted(run, history, events, c, n - 1, e.now);
      assert StepAt(run, history, events, c, n - 1);
      NextSorted(run[n - 1], e, c);
      if e.Set? {
        WriteSorted(history[n - 1], e.values, e.now + c.ttl, |e.values|);
      }
      SortedLater(run[n], e.now + c.ttl, now + c.ttl);
      SortedLater(history[n], e.now + c.ttl, now + c.ttl);
    }
  }

  /** So the prune that stops early always equals the full scan. */
  lemma PruneAlwaysExact<K, V>(run: seq<Local<K, V>>, history: seq<Local<K, V>>, events: seq<Event<K, V>>, c: Config,
                               n: nat, now: real)
    requires IsRun(run, history, events, c) && n <= |events|
    ensures ByExpiry(run[n])
    ensures PruneFront(run[n], now) == Keep(run[n], UnexpiredAt(now))
  {
    RunSorted(run, history, events, c, n, if n == 0 then 0.0 else events[n - 1].now);
    PruneIsExact(run[n], now);
  }

  // ---------- the store is the newest part of its history ----------

  lemma {:induction false} KeepNone<K, V>(d: Dict<K, V>, p: V -> bool)
    requires forall i :: 0 <= i < |d| ==> !p(d[i].value)
    ensures Keep(d, p) == []
  {
    if d != [] {
      KeepNone(d[1..], p);
    }
  }

  lemma KeepNewestOfKept<K, V>(d: Dict<K, V>, p: V -> bool, m: nat)
    requires forall i :: 0 <= i < |d| ==> p(d[i].value)
    ensures Keep(Newest(d, m), p) == Newest(Keep(d, p), m)
  {
    KeepAll(d, p);
    KeepAll(Newest(d, m), p);
  }

  lemma {:induction false} KeepNewest<K, V>(d: Dict<K, V>, p: V -> bool, m: nat)
    requires forall i, j :: 0 <= i < j < |d| && p(d[i].value) ==> p(d[j].value)
    ensures Keep(Newest(d, m), p) == Newest(Keep(d, p), m)
  {
    if |d| <= m {
      KeepShorter(d, p);
    } else if p(d[0].value) {
      KeepNewestOfKept(d, p, m);
    } else {
      var rest := d[1..];
      KeepNewest(rest, p, m);
      assert Newest(rest, m) == Newest(d, m);
      assert Keep(rest, p) == Keep(d, p);
    }
  }

  /** Among pairs in order of expiry, the newest live ones are the live newest ones. */
  lemma KeepLimit<K, V>(d: Local<K, V>, max: Option<nat>, now: real)
    requires ByExpiry(d)
    ensures Keep(Limit(d, max), UnexpiredAt(now)) == Limit(Keep(d, UnexpiredAt(now)), max)
  {
    if max.Some? {
      KeepNewest(d, UnexpiredAt(now), max.value);
    }
  }

  lemma RemoveAbsent<K, V>(d: Dict<K, V>, p: V -> bool, key: K)
    requires Distinct(d) && !Has(d, key)
    ensures Remove(Keep(d, p), key) == Keep(d, p)
  {
    FindAbsent(d, key);
    FindKeep(d, p, key);
    FindAbsent(Keep(d, p), key);
    RemoveShape(Keep(d, p), key);
  }

  lemma {:induction false} KeepRemove<K, V>(d: Dict<K, V>, p: V -> bool, key: K)
    requires Distinct(d)
    ensures Keep(Remove(d, key), p) == Remove(Keep(d, p), key)
  {
    if d != [] {
      var rest, first := d[1..], if p(d[0].value) then [d[0]] else [];
      KeepRemove(rest, p, key);
      if d[0].key == key {
        assert (first + Keep(rest, p))[|first|..] == Keep(rest, p);
        assert !Has(rest, key);
        RemoveAbsent(rest, p, key);
      } else {
        KeepConcat([d[0]], Remove(rest, key), p);
        RemoveConcat(first, Keep(rest, p), key);
        assert Keep([d[0]], p) == first;
      }
    }
  }

  lemma {:induction false} KeepTwice<K, V>(d: Local<K, V>, now: real, later: real)
    requires now <= later
    ensures Keep(Keep(d, UnexpiredAt(now)), UnexpiredAt(later)) == Keep(d, UnexpiredAt(later))
  {
    if d != [] {
      var first := if now < d[0].value.expiresAt then [d[0]] else [];
      KeepTwice(d[1..], now, later);
      KeepConcat(first, Keep(d[1..], UnexpiredAt(now)), UnexpiredAt(later));
    }
  }

  lemma {:induction false} KeepWrite<K, V>(d: Local<K, V>, values: Dict<K, V>, now: real, expiresAt: real, n: nat)
    requires Sorted(d, expiresAt) && now < expiresAt && n <= |values|
    ensures Keep(WriteAll(d, values, expiresAt, n), UnexpiredAt(now)) == WriteAll(Keep(d, UnexpiredAt(now)), values, expiresAt, n)
  {
    if n > 0 {
      KeepWrite(d, values, now, expiresAt, n - 1);
      WriteSorted(d, values, expiresAt, n - 1);
      var before, x := WriteAll(d, values, expiresAt, n - 1), values[n - 1];
      KeepRemove(before, UnexpiredAt(now), x.key);
      KeepConcat(Remove(before, x.key), [Pair(x.key, Stored(x.value, expiresAt))], UnexpiredAt(now));
      assert Keep([Pair(x.key, Stored(x.value, expiresAt))], UnexpiredAt(now)) == [Pair(x.key, Stored(x.value, expiresAt))];
    }
  }

  /** `a` is the end of `b`, and missing part of it only if it holds `max` pairs. */
  ghost predicate Trails<K, V>(a: Local<K, V>, b: Local<K, V>, max: Option<nat>) {
    && |a| <= |b| && a == b[|b| - |a|..]
    && (|a| < |b| ==> max.Some? && max.value <= |a|)
  }

  lemma {:induction false} RemoveShorter<K, V>(d: Dict<K, V>, key: K)
    ensures |d| - 1 <= |Remove(d, key)| <= |d|
  {
    if d != [] && d[0].key != key {
      RemoveShorter(d[1..], key);
    }
  }

  lemma {:induction false} RemovePrefix<K, V>(a: Dict<K, V>, b: Dict<K, V>, key: K)
    requires Find(a, key).Some?
    ensures Remove(a + b, key) == Remove(a, key) + b
  {
    assert (a + b)[1..] == a[1..] + b;
    if a[0].key != key {
      RemovePrefix(a[1..], b, key);
      assert [a[0]] + (Remove(a[1..], key) + b) == ([a[0]] + Remove(a[1..], key)) + b;
    }
  }

  lemma RemoveFromFront<K, V>(a: Dict<K, V>, b: Dict<K, V>, key: K)
    requires Distinct(a + b) && Find(a, key).Some?
    ensures Remove(a + b, key) == Remove(a, key) + b && Remove(b, key) == b
  {
    RemovePrefix(a, b, key);
    FindAbsent(a, key);
    var i :| 0 <= i < |a| && a[i].key == key;
    assert (a + b)[i].key == key;
    forall j | 0 <= j < |b| ensures b[j].key != key {
      assert (a + b)[|a| + j] == b[j];
    }
    RemoveShape(b, key);
  }

  lemma RenewTrails<K, V>(a: Local<K, V>, b: Local<K, V>, max: Option<nat>, key: K, s: Stored<V>)
    requires Distinct(b) && Trails(a, b, max)
    ensures Trails(Renew(a, key, s), Renew(b, key, s), max)
  {
    var front := b[..|b| - |a|];
    assert b == front + a;
    FindAbsent(front, key);
    if Find(front, key).Some? {
      RemoveFromFront(front, a, key);
      assert Renew(b, key, s) == Remove(front, key) + Renew(a, key, s);
    } else {
      RemoveConcat(front, a, key);
      assert Renew(b, key, s) == front + Renew(a, key, s);
      RemoveShorter(a, key);
    }
  }

  lemma {:induction false} WriteTrails<K, V>(a: Local<K, V>, b: Local<K, V>, max: Option<nat>, values: Dict<K, V>,
                                             expiresAt: real, n: nat)
    requires Sorted(b, expiresAt) && Trails(a, b, max) && n <= |values|
    ensures Trails(WriteAll(a, values, expiresAt, n), WriteAll(b, values, expiresAt, n), max)
  {
    if n > 0 {
      WriteTrails(a, b, max, values, expiresAt, n - 1);
      WriteSorted(b, values, expiresAt, n - 1);
      RenewTrails(WriteAll(a, values, expiresAt, n - 1), WriteAll(b, values, expiresAt, n - 1), max,
        values[n - 1].key, Stored(values[n - 1].value, expiresAt));
    }
  }

  /** The live part of the store is the live part of the newest entries of its history. */
  ghost predicate Faithful<K, V>(d: Local<K, V>, h: Local<K, V>, c: Config, now: real) {
    Keep(d, UnexpiredAt(now)) == Keep(Limit(h, c.max), UnexpiredAt(now))
  }

  lemma FaithfulLater<K, V>(d: Local<K, V>, h: Local<K, V>, c: Config, now: real, later: real)
    requires Faithful(d, h, c, now) && now <= later
    ensures Faithful(d, h, c, later)
  {
    KeepTwice(d, now, later);
    KeepTwice(Limit(h, c.max), now, later);
  }

  lemma LimitTrails<K, V>(d: Local<K, V>, max: Option<nat>)
    ensures Trails(Limit(d, max), d, max)
  {
  }

  lemma SameLimit<K, V>(a: Local<K, V>, b: Local<K, V>, max: Option<nat>)
    requires Trails(a, b, max)
    ensures Limit(a, max) == Limit(b, max)
  {
  }

  /** Writing to the newest entries and cutting back is writing to all and cutting back. */
  lemma LimitWrite<K, V>(d: Local<K, V>, values: Dict<K, V>, last: real, max: Option<nat>)
    requires Sorted(d, last)
    ensures Limit(WriteAll(Limit(d, max), values, last, |values|), max) == Limit(WriteAll(d, values, last, |values|), max)
  {
    LimitTrails(d, max);
    WriteTrails(Limit(d, max), d, max, values, last, |values|);
    SameLimit(WriteAll(Limit(d, max), values, last, |values|), WriteAll(d, values, last, |values|), max);
  }

  lemma PrunedIsNewest<K, V>(d: Local<K, V>, h: Local<K, V>, c: Config, now: real)
    requires Faithful(d, h, c, now) && ByExpiry(d) && ByExpiry(h)
    ensures PruneFront(d, now) == Limit(Keep(h, UnexpiredAt(now)), c.max)
  {
    PruneIsExact(d, now);
    KeepLimit(h, c.max, now);
  }

  /** Entries cut from a live history are themselves live. */
  lemma LiveIsFaithful<K, V>(d: Local<K, V>, h: Local<K, V>, c: Config, now: real)
    requires ByExpiry(h) && d == Limit(Keep(h, UnexpiredAt(now)), c.max)
    ensures Faithful(d, h, c, now)
  {
    KeepLimit(h, c.max, now);
    KeepTwice(Limit(h, c.max), now, now);
  }

  lemma KeepSorted<K, V>(d: Local<K, V>, now: real, last: real)
    requires Sorted(d, last)
    ensures Sorted(Keep(d, UnexpiredAt(now)), last)
  {
    PruneIsExact(d, now);
    PruneSorted(d, now, last);
  }

  lemma SetFaithful<K, V>(d: Local<K, V>, h: Local<K, V>, values: Dict<K, V>, now: real, c: Config)
    requires Faithful(d, h, c, now) && Sorted(d, now + c.ttl) && Sorted(h, now + c.ttl) && c.ttl > 0.0 && values != []
    ensures Faithful(SetMany(d, values, now, c.ttl, c.max), WriteAll(h, values, now + c.ttl, |values|), c, now)
  {
    var last, n := now + c.ttl, |values|;
    PrunedIsNewest(d, h, c, now);
    KeepSorted(h, now, last);
    LimitWrite(Keep(h, UnexpiredAt(now)), values, last, c.max);
    KeepWrite(h, values, now, last, n);
    WriteSorted(h, values, last, n);
    LiveIsFaithful(SetMany(d, values, now, c.ttl, c.max), WriteAll(h, values, last, n), c, now);
  }

  lemma ExpiredIsNone<K, V>(d: Local<K, V>, now: real)
    requires Sorted(d, now)
    ensures Keep(d, UnexpiredAt(now)) == []
  {
    KeepNone(d, UnexpiredAt(now));
  }

  /** Without a lifetime nothing is ever live. */
  lemma NoLifetimeFaithful<K, V>(d: Local<K, V>, h: Local<K, V>, values: Dict<K, V>, now: real, c: Config)
    requires c.ttl == 0.0 && Sorted(d, now + c.ttl) && Sorted(h, now + c.ttl)
    ensures Faithful(SetMany(d, values, now, c.ttl, c.max), WriteAll(h, values, now + c.ttl, |values|), c, now)
  {
    var h' := WriteAll(h, values, now + c.ttl, |values|);
    assert Sorted(Limit(h', c.max), now) by {
      WriteSorted(h, values, now + c.ttl, |values|);
      NewestSorted(h', c.max, now);
    }
    ExpiredIsNone(d, now);
    ExpiredIsNone(Limit(h', c.max), now);
  }

  lemma EmptySetFaithful<K, V>(d: Local<K, V>, h: Local<K, V>, now: real, c: Config)
    requires Faithful(d, h, c, now)
    ensures Faithful(SetMany(d, [], now, c.ttl, c.max), WriteAll(h, [], now + c.ttl, 0), c, now)
  {
  }

  lemma AnySetFaithful<K, V>(d: Local<K, V>, h: Local<K, V>, values: Dict<K, V>, now: real, c: Config)
    requires Faithful(d, h, c, now) && Sorted(d, now + c.ttl) && Sorted(h, now + c.ttl) && c.ttl >= 0.0
    ensures Faithful(SetMany(d, values, now, c.ttl, c.max), WriteAll(h, values, now + c.ttl, |values|), c, now)
  {
    if c.ttl == 0.0 {
      NoLifetimeFaithful(d, h, values, now, c);
    } else if values == [] {
      EmptySetFaithful(d, h, now, c);
    } else {
      SetFaithful(d, h, values, now, c);
    }
  }

  /** A read takes away at most one pair, which has expired. */
  lemma ReadFaithful<K, V>(d: Local<K, V>, h: Local<K, V>, key: K, now: real, c: Config)
    requires Faithful(d, h, c, now) && Distinct(d)
    ensures Faithful(AfterGet(d, key, now), h, c, now)
  {
    if Find(d, key).Some? && Find(d, key).value.expiresAt <= now {
      KeepRemove(d, UnexpiredAt(now), key);
      FindKeep(d, UnexpiredAt(now), key);
      RemoveNothing(Keep(d, UnexpiredAt(now)), key);
    }
  }

  lemma PruneFaithful<K, V>(d: Local<K, V>, h: Local<K, V>, now: real, c: Config)
    requires Faithful(d, h, c, now) && ByExpiry(d)
    ensures Faithful(PruneFront(d, now), h, c, now)
  {
    PruneIsExact(d, now);
    KeepTwice(d, now, now);
  }

  lemma StopFaithful<K, V>(c: Config, now: real)
    ensures Faithful<K, V>([], [], c, now)
  {
  }

  lemma NextFaithful<K, V>(d: Local<K, V>, h: Local<K, V>, e: Event<K, V>, c: Config)
    requires Faithful(d, h, c, e.now) && Sorted(d, e.now + c.ttl) && Sorted(h, e.now + c.ttl) && c.ttl >= 0.0
    ensures Faithful(Next(d, e, c), Record(h, e, c), c, e.now)
  {
    match e
    case Set(values, now) => AnySetFaithful(d, h, values, now, c);
    case Read(key, now) => ReadFaithful(d, h, key, now, c);
    case Prune(now) => PruneFaithful(d, h, now, c);
    case Stop(now) => StopFaithful<K, V>(c, now);
  }

  /** The size limit drops only the least recently written keys, and the rest is never lost before it expires. */
  lemma {:induction false} StoreIsNewest<K, V>(run: seq<Local<K, V>>, history: seq<Local<K, V>>, events: seq<Event<K, V>>,
                                               c: Config, n: nat, now: real)
    requires IsRun(run, history, events, c) && n <= |events| && c.ttl >= 0.0
    requires n > 0 ==> events[n - 1].now <= now
    ensures Faithful(run[n], history[n], c, now)
    decreases n
  {
    if n > 0 {
      var e := events[n - 1];
      assert n > 1 ==> events[n - 2].now <= e.now;
      StoreIsNewest(run, history, events, c, n - 1, e.now);
      RunSorted(run, history, events, c, n - 1, e.now);
      assert StepAt(run, history, events, c, n - 1);
      NextFaithful(run[n - 1], history[n - 1], e, c);
      FaithfulLater(run[n], history[n], c, e.now, now);
    }
  }

  // ---------- what a read answers ----------

  /** The last value written for the key since the last stop, and its expiry. */
  function LastWrite<K(==), V>(events: seq<Event<K, V>>, c: Config, key: K, n: nat): Option<Stored<V>>
    requires n <= |events|
  {
    if n == 0 then None
    else
      match events[n - 1]
      case Set(values, now) =>
        if Find(values, key).Some? then Some(Stored(Find(values, key).value, now + c.ttl))
        else LastWrite(events, c, key, n - 1)
      case Stop(_) => None
      case _ => LastWrite(events, c, key, n - 1)
  }

  lemma {:induction false} WriteFind<K, V>(d: Local<K, V>, values: Dict<K, V>, expiresAt: real, key: K, n: nat)
    requires Distinct(values) && Sorted(d, expiresAt) && n <= |values|
    ensures Find(WriteAll(d, values, expiresAt, n), key)
         == var v := Find(values[..n], key); if v.Some? then Some(Stored(v.value, expiresAt)) else Find(d, key)
  {
    if n > 0 {
      var before, x := WriteAll(d, values, expiresAt, n - 1), values[n - 1];
      WriteFind(d, values, expiresAt, key, n - 1);
      WriteSorted(d, values, expiresAt, n - 1);
      FindRenew(before, x.key, Stored(x.value, expiresAt), key);
      assert values[..n] == values[..n - 1] + [x];
      FindConcat(values[..n - 1], [x], key);
      if x.key == key {
        assert !Has(values[..n - 1], key);
        FindAbsent(values[..n - 1], key);
      }
    }
  }

  ghost predicate DistinctWrites<K, V>(events: seq<Event<K, V>>) {
    forall i :: 0 <= i < |events| && events[i].Set? ==> Distinct(events[i].values)
  }

  lemma {:induction false} HistoryIsLastWrites<K, V>(run: seq<Local<K, V>>, history: seq<Local<K, V>>,
                                                     events: seq<Event<K, V>>, c: Config, key: K, n: nat)
    requires IsRun(run, history, events, c) && n <= |events| && DistinctWrites(events)
    ensures Find(history[n], key) == LastWrite(events, c, key, n)
  {
    if n > 0 {
      var e := events[n - 1];
      assert n > 1 ==> events[n - 2].now <= e.now;
      HistoryIsLastWrites(run, history, events, c, key, n - 1);
      RunSorted(run, history, events, c, n - 1, e.now);
      assert StepAt(run, history, events, c, n - 1);
      if e.Set? {
        WriteFind(history[n - 1], e.values, e.now + c.ttl, key, |e.values|);
        assert e.values[..|e.values|] == e.values;
      }
    }
  }

  // ---------- which keys are the most recently written ----------

  function KeysOf<K, V>(d: Dict<K, V>): set<K> {
    set i | 0 <= i < |d| :: d[i].key
  }

  /** The keys written after this one, by the first m values of a write and before it: writing the key starts
      afresh, any other key is added. */
  function LaterOf<K(==), V>(values: Dict<K, V>, key: K, before: set<K>, m: nat): set<K>
    requires m <= |values|
  {
    if m == 0 then before
    else if values[m - 1].key == key then {}
    else LaterOf(values, key, before, m - 1) + {values[m - 1].key}
  }

  /** The keys written after the last write of this one, since the last stop. */
  function WrittenAfter<K(==), V>(events: seq<Event<K, V>>, key: K, n: nat): set<K>
    requires n <= |events|
  {
    if n == 0 then {}
    else
      match events[n - 1]
      case Set(values, _) => LaterOf(values, key, WrittenAfter(events, key, n - 1), |values|)
      case Stop(_) => {}
      case _ => WrittenAfter(events, key, n - 1)
  }

  /** The keys behind this one in the order. */
  function Behind<K(==), V>(d: Dict<K, V>, key: K): set<K> {
    if d == [] then {} else if d[0].key == key then KeysOf(d[1..]) else Behind(d[1..], key)
  }

  lemma KeysOfConcat<K, V>(a: Dict<K, V>, b: Dict<K, V>)
    ensures KeysOf(a + b) == KeysOf(a) + KeysOf(b)
  {
    forall k ensures k in KeysOf(a + b) <==> k in KeysOf(a) || k in KeysOf(b) {
      if k in KeysOf(a) {
        var i :| 0 <= i < |a| && a[i].key == k;
        assert (a + b)[i].key == k;
      } else if k in KeysOf(b) {
        var i :| 0 <= i < |b| && b[i].key == k;
        assert (a + b)[|a| + i].key == k;
      }
    }
  }

  lemma KeysOfOne<K, V>(p: Pair<K, V>)
    ensures KeysOf([p]) == {p.key}
  {
    assert [p][0] == p;
  }

  lemma {:induction false} KeysOfRemove<K, V>(d: Dict<K, V>, key: K)
    requires Distinct(d)
    ensures KeysOf(Remove(d, key)) == KeysOf(d) - {key}
  {
    if d != [] {
      var rest := d[1..];
      assert d == [d[0]] + rest;
      KeysOfConcat([d[0]], rest);
      KeysOfOne(d[0]);
      if d[0].key == key {
        assert key !in KeysOf(rest);
      } else {
        KeysOfRemove(rest, key);
        KeysOfConcat([d[0]], Remove(rest, key));
      }
    }
  }

  lemma {:induction false} BehindAbsent<K, V>(d: Dict<K, V>, key: K, other: K)
    requires !Has(d, other)
    ensures other !in Behind(d, key)
  {
    if d != [] {
      assert forall i :: 0 <= i < |d[1..]| ==> d[1..][i] == d[i + 1];
      BehindAbsent(d[1..], key, other);
    }
  }

  lemma {:induction false} BehindRemove<K, V>(d: Dict<K, V>, key: K, other: K)
    requires Distinct(d) && key != other
    ensures Behind(Remove(d, other), key) == Behind(d, key) - {other}
  {
    if d != [] {
      var rest := d[1..];
      if d[0].key == other {
        BehindAbsent(rest, key, other);
      } else if d[0].key == key {
        KeysOfRemove(rest, other);
        assert ([d[0]] + Remove(rest, other))[1..] == Remove(rest, other);
      } else {
        BehindRemove(rest, key, other);
        assert ([d[0]] + Remove(rest, other))[1..] == Remove(rest, other);
      }
    }
  }

  lemma {:induction false} BehindSnoc<K, V>(d: Dict<K, V>, key: K, p: Pair<K, V>)
    requires !Has(d, p.key)
    ensures Behind(d + [p], key)
         == if Has(d, key) then Behind(d, key) + {p.key} else {}
  {
    var longer := d + [p];
    if d == [] {
      assert longer[1..] == [];
    } else {
      var rest := d[1..];
      assert longer[1..] == rest + [p];
      assert forall i :: 0 <= i < |rest| ==> rest[i] == d[i + 1];
      if d[0].key == key {
        KeysOfConcat(rest, [p]);
        KeysOfOne(p);
      } else {
        BehindSnoc(rest, key, p);
        assert Has(d, key) <==> Has(rest, key);
      }
    }
  }

  lemma RenewBehind<K, V>(d: Dict<K, V>, other: K, value: V, key: K)
    requires Distinct(d)
    ensures Behind(Renew(d, other, value), key)
         == if other != key && Has(d, key) then Behind(d, key) + {other} else {}
  {
    var rest := Remove(d, other);
    RemoveDistinct(d, other);
    FindAbsent(rest, other);
    BehindSnoc(rest, key, Pair(other, value));
    if other != key {
      FindRemoveOther(d, other, key);
      FindAbsent(rest, key);
      FindAbsent(d, key);
      BehindRemove(d, key, other);
    }
  }

  lemma {:induction false} WriteBehind<K, V>(d: Local<K, V>, values: Dict<K, V>, expiresAt: real, key: K,
                                             before: set<K>, m: nat)
    requires Sorted(d, expiresAt) && m <= |values|
    requires Has(d, key) ==> before == Behind(d, key)
    ensures Has(WriteAll(d, values, expiresAt, m), key) ==>
      Behind(WriteAll(d, values, expiresAt, m), key) == LaterOf(values, key, before, m)
  {
    if m > 0 {
      var shorter, x := WriteAll(d, values, expiresAt, m - 1), values[m - 1];
      WriteBehind(d, values, expiresAt, key, before, m - 1);
      WriteSorted(d, values, expiresAt, m - 1);
      RenewBehind(shorter, x.key, Stored(x.value, expiresAt), key);
      FindRenew(shorter, x.key, Stored(x.value, expiresAt), key);
      FindAbsent(shorter, key);
      FindAbsent(WriteAll(d, values, expiresAt, m), key);
    }
  }

  /** The history is in the order of the last writes. */
  lemma {:induction false} HistoryIsInOrder<K, V>(run: seq<Local<K, V>>, history: seq<Local<K, V>>,
                                                  events: seq<Event<K, V>>, c: Config, key: K, n: nat)
    requires IsRun(run, history, events, c) && n <= |events|
    ensures Has(history[n], key) ==> Behind(history[n], key) == WrittenAfter(events, key, n)
  {
    if n > 0 {
      var e := events[n - 1];
      assert n > 1 ==> events[n - 2].now <= e.now;
      HistoryIsInOrder(run, history, events, c, key, n - 1);
      RunSorted(run, history, events, c, n - 1, e.now);
      assert StepAt(run, history, events, c, n - 1);
      if e.Set? {
        WriteBehind(history[n - 1], e.values, e.now + c.ttl, key, WrittenAfter(events, key, n - 1), |e.values|);
      }
    }
  }

  lemma {:induction false} KeysOfDistinct<K, V>(d: Dict<K, V>)
    requires Distinct(d)
    ensures |KeysOf(d)| == |d|
  {
    if d != [] {
      var rest := d[1..];
      KeysOfDistinct(rest);
      assert d == [d[0]] + rest;
      KeysOfConcat([d[0]], rest);
      KeysOfOne(d[0]);
      assert d[0].key !in KeysOf(rest);
    }
  }

  lemma {:induction false} BehindAt<K, V>(d: Dict<K, V>, key: K) returns (i: nat)
    requires Distinct(d) && Has(d, key)
    ensures i < |d| && d[i].key == key && Behind(d, key) == KeysOf(d[i + 1..])
  {
    var rest := d[1..];
    if d[0].key == key {
      i := 0;
    } else {
      assert forall j :: 0 <= j < |rest| ==> rest[j] == d[j + 1];
      assert Has(rest, key);
      var j := BehindAt(rest, key);
      i := j + 1;
      assert rest[j + 1..] == d[i + 1..];
    }
  }

  /** The limit keeps a key exactly when fewer keys than the limit come behind it. */
  lemma NewestKeeps<K, V>(d: Dict<K, V>, m: nat, key: K)
    requires Distinct(d) && Has(d, key)
    ensures Find(Newest(d, m), key).Some? <==> |Behind(d, key)| < m
  {
    var i := BehindAt(d, key);
    KeysOfDistinct(d[i + 1..]);
    var newest := Newest(d, m);
    FindAbsent(newest, key);
    var first := |d| - |newest|;
    assert forall j :: 0 <= j < |newest| ==> newest[j] == d[first + j];
    if first <= i {
      assert newest[i - first].key == key;
    }
  }

  lemma FindNewest<K, V>(d: Local<K, V>, max: Option<nat>, key: K)
    requires Distinct(d)
    ensures Find(Limit(d, max), key).Some? ==> Find(Limit(d, max), key) == Find(d, key)
  {
    var newest := Limit(d, max);
    var front := d[..|d| - |newest|];
    assert d == front + newest;
    FindConcat(front, newest, key);
    FindAbsent(newest, key);
    FindAbsent(front, key);
    forall i, j | 0 <= i < |front| && 0 <= j < |newest| ensures front[i].key != newest[j].key {
      assert front[i] == d[i] && newest[j] == d[|front| + j];
    }
  }

  lemma GetFromLive<K, V>(d: Local<K, V>, key: K, now: real)
    requires Distinct(d)
    ensures Get(d, key, now) == match Find(Keep(d, UnexpiredAt(now)), key) case Some(s) => Some(s.value) case None => None
  {
    FindKeep(d, UnexpiredAt(now), key);
  }

  /** A read answers the last write of its key, unless that has expired or as many other keys as the store may
      hold have been written since. */
  lemma ReadsAnswerLastWrite<K, V>(run: seq<Local<K, V>>, history: seq<Local<K, V>>, events: seq<Event<K, V>>,
                                   c: Config, key: K, n: nat, now: real)
    requires IsRun(run, history, events, c) && n <= |events| && c.ttl >= 0.0 && DistinctWrites(events)
    requires n > 0 ==> events[n - 1].now <= now
    ensures var last := LastWrite(events, c, key, n);
            Get(run[n], key, now)
            == if last.Some? && now < last.value.expiresAt
                  && (c.max.Some? ==> |WrittenAfter(events, key, n)| < c.max.value)
               then Some(last.value.value) else None
  {
    StoreIsNewest(run, history, events, c, n, now);
    RunSorted(run, history, events, c, n, now);
    HistoryIsLastWrites(run, history, events, c, key, n);
    NewestSorted(history[n], c.max, now + c.ttl);
    FindNewest(history[n], c.max, key);
    FindAbsent(history[n], key);
    if c.max.Some? && Has(history[n], key) {
      NewestKeeps(history[n], c.max.value, key);
      HistoryIsInOrder(run, history, events, c, key, n);
    }
    GetFromLive(run[n], key, now);
    GetFromLive(Limit(history[n], c.max), key, now);
  }
}
