/** The in-process level of the snapshot store. */
module SnapshotStore {
  import opened Options
  import opened OrderedDicts

  datatype Stored<V> = Stored(value: V, expiresAt: real)

  type Local<K, V> = Dict<K, Stored<V>>

  function UnexpiredAt<V>(now: real): Stored<V> -> bool {
    (s: Stored<V>) => now < s.expiresAt
  }

  /** Drops from the front for as long as the front has expired. */
  function PruneFront<K, V>(d: Local<K, V>, now: real): Local<K, V> {
    if d != [] && d[0].value.expiresAt <= now then PruneFront(d[1..], now) else d
  }

  function Limit<K, V>(d: Local<K, V>, max: Option<nat>): Local<K, V> {
    if max.Some? then Newest(d, max.value) else d
  }

  /** The first `n` values written in order, each going to the end. */
  function WriteAll<K(==), V>(d: Local<K, V>, values: Dict<K, V>, expiresAt: real, n: nat): Local<K, V>
    requires n <= |values|
  {
    if n == 0 then d
    else
      var x := values[n - 1];
      Renew(WriteAll(d, values, expiresAt, n - 1), x.key, Stored(x.value, expiresAt))
  }

  function SetMany<K(==), V>(d: Local<K, V>, values: Dict<K, V>, now: real, ttl: real, max: Option<nat>): Local<K, V> {
    if values == [] || ttl <= 0.0 then d
    else Limit(WriteAll(PruneFront(d, now), values, now + ttl, |values|), max)
  }

  function Get<K(==), V>(d: Local<K, V>, key: K, now: real): Option<V> {
    match Find(d, key)
    case Some(s) => if s.expiresAt <= now then None else Some(s.value)
    case None => None
  }

  function AfterGet<K(==), V>(d: Local<K, V>, key: K, now: real): Local<K, V> {
    match Find(d, key)
    case Some(s) => if s.expiresAt <= now then Remove(d, key) else d
    case None => d
  }

  class RedisReplicaStore<K(==), V> {
    var local: Local<K, V>
    const localTtl: real
    const localMax: Option<nat>

    ghost predicate Valid()
      reads this
    {
      localTtl >= 0.0 && (localMax.Some? ==> localMax.value >= 1 && |local| <= localMax.value)
    }

    constructor (ttlSeconds: int, localTtlSeconds: Option<real>, localMaxEntries: Option<int>)
      ensures Valid() && local == []
      ensures var wanted := if localTtlSeconds.Some? then localTtlSeconds.value else ttlSeconds as real;
              localTtl == if wanted < 0.0 then 0.0 else wanted
      ensures localMax == match localMaxEntries
                          case None => None
                          case Some(n) => Some(if n < 1 then 1 else n)
    {
      local := [];
      var wanted := if localTtlSeconds.Some? then localTtlSeconds.value else ttlSeconds as real;
      localTtl := if wanted < 0.0 then 0.0 else wanted;
      localMax := match localMaxEntries
                  case None => None
                  case Some(n) => Some(if n < 1 then 1 else n);
    }

    method Stop()
      requires Valid()
      modifies this`local
      ensures Valid() && local == []
    {
      local := [];
    }

    method GetLocal(key: K, now: real) returns (value: Option<V>)
      requires Valid()
      modifies this`local
      ensures Valid()
      ensures value == Get(old(local), key, now)
      ensures local == AfterGet(old(local), key, now)
      ensures if value.Some? then local == old(local) else Distinct(old(local)) ==> !Has(local, key)
    {
      var cached := Find(local, key);
      FindAbsent(local, key);
      if cached.None? {
        return None;
      }
      if cached.value.expiresAt <= now {
        RemoveShape(local, key);
        if Distinct(local) {
          RemoveDistinct(local, key);
        }
        local := Remove(local, key);
        return None;
      }
      return Some(cached.value.value);
    }

    method SetLocalMany(values: Dict<K, V>, now: real)
      requires Valid()
      modifies this`local
      ensures Valid()
      ensures local == SetMany(old(local), values, now, localTtl, localMax)
    {
      if values == [] || localTtl <= 0.0 {
        return;
      }
      PruneLocal(now);
      ghost var pruned := local;
      var expiresAt := now + localTtl;
      for i := 0 to |values|
        invariant local == WriteAll(pruned, values, expiresAt, i)
      {
        local := Renew(local, values[i].key, Stored(values[i].value, expiresAt));
      }
      PruneLocalLimit();
    }

    method PruneLocal(now: real)
      requires Valid()
      modifies this`local
      ensures Valid() && local == PruneFront(old(local), now)
    {
      while local != []
        invariant Valid()
        invariant PruneFront(local, now) == PruneFront(old(local), now)
        decreases |local|
      {
        if local[0].value.expiresAt > now {
          break;
        }
        local := local[1..];
      }
    }

    method PruneLocalLimit()
      modifies this`local
      ensures local == Limit(old(local), localMax)
    {
      if localMax.None? {
        return;
      }
      while |local| > localMax.value
        invariant |local| <= |old(local)|
        invariant local == old(local)[|old(local)| - |local|..]
        invariant |local| >= localMax.value || local == old(local)
      {
        local := local[1..];
      }
    }
  }

  // ---------- the early-stopping prune ----------

  predicate ByExpiry<K, V>(d: Local<K, V>) {
    forall i, j :: 0 <= i < j < |d| ==> d[i].value.expiresAt <= d[j].value.expiresAt
  }

  lemma {:induction false} KeepAll<K, V>(d: Dict<K, V>, p: V -> bool)
    requires forall i :: 0 <= i < |d| ==> p(d[i].value)
    ensures Keep(d, p) == d
  {
    if d != [] {
      KeepAll(d[1..], p);
    }
  }

  /** Stopping at the first live entry removes exactly the expired ones. */
  lemma {:induction false} PruneIsExact<K, V>(d: Local<K, V>, now: real)
    requires ByExpiry(d)
    ensures PruneFront(d, now) == Keep(d, UnexpiredAt(now))
  {
    if d != [] {
      if d[0].value.expiresAt <= now {
        PruneIsExact(d[1..], now);
      } else {
        KeepAll(d, UnexpiredAt(now));
      }
    }
  }
}
