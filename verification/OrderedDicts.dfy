/** Insertion-ordered dictionaries: the pairs in order, each key at most once. */
module OrderedDicts {
  import opened Options

  datatype Pair<K, V> = Pair(key: K, value: V)

  type Dict<K, V> = seq<Pair<K, V>>

  predicate Distinct<K(==), V>(d: Dict<K, V>) {
    forall i, j :: 0 <= i < j < |d| ==> d[i].key != d[j].key
  }

  predicate Has<K(==), V>(d: Dict<K, V>, key: K) {
    exists i :: 0 <= i < |d| && d[i].key == key
  }

  function Find<K(==), V>(d: Dict<K, V>, key: K): Option<V> {
    if d == [] then None
    else if d[0].key == key then Some(d[0].value)
    else Find(d[1..], key)
  }

  function Remove<K(==), V>(d: Dict<K, V>, key: K): Dict<K, V> {
    if d == [] then []
    else if d[0].key == key then d[1..]
    else [d[0]] + Remove(d[1..], key)
  }

  /** Assignment followed by move_to_end. */
  function Renew<K(==), V>(d: Dict<K, V>, key: K, value: V): Dict<K, V> {
    Remove(d, key) + [Pair(key, value)]
  }

  /** The pairs that satisfy `p`, in order. */
  function Keep<K, V>(d: Dict<K, V>, p: V -> bool): Dict<K, V> {
    if d == [] then []
    else (if p(d[0].value) then [d[0]] else []) + Keep(d[1..], p)
  }

  /** The `n` last pairs. */
  function Newest<K, V>(d: Dict<K, V>, n: nat): Dict<K, V> {
    if |d| <= n then d else d[|d| - n..]
  }

  lemma {:induction false} FindAbsent<K, V>(d: Dict<K, V>, key: K)
    ensures Find(d, key).None? <==> !Has(d, key)
  {
    if d != [] {
      FindAbsent(d[1..], key);
      if Has(d[1..], key) {
        var i :| 0 <= i < |d[1..]| && d[1..][i].key == key;
        assert d[i + 1].key == key;
      }
      if d[0].key != key && Has(d, key) {
        var i :| 0 <= i < |d| && d[i].key == key;
        assert d[1..][i - 1].key == key;
      }
    }
  }

  lemma {:induction false} FindConcat<K, V>(a: Dict<K, V>, b: Dict<K, V>, key: K)
    ensures Find(a + b, key) == if Find(a, key).Some? then Find(a, key) else Find(b, key)
  {
    if a == [] {
      assert a + b == b;
    } else {
      assert (a + b)[1..] == a[1..] + b;
      FindConcat(a[1..], b, key);
    }
  }

  /** Where the removed pair was. */
  lemma {:induction false} RemoveAt<K, V>(d: Dict<K, V>, key: K) returns (i: nat)
    requires Find(d, key).Some?
    ensures i < |d| && d[i].key == key && Remove(d, key) == d[..i] + d[i + 1..]
  {
    if d[0].key == key {
      i := 0;
    } else {
      var rest := d[1..];
      var j := RemoveAt(rest, key);
      i := j + 1;
      assert d[..i] == [d[0]] + rest[..j] && d[i + 1..] == rest[j + 1..];
    }
  }

  lemma {:induction false} RemoveNothing<K, V>(d: Dict<K, V>, key: K)
    requires Find(d, key).None?
    ensures Remove(d, key) == d
  {
    if d != [] {
      RemoveNothing(d[1..], key);
      assert d == [d[0]] + d[1..];
    }
  }

  /** Where the pairs of a removal come from. */
  lemma RemoveShape<K, V>(d: Dict<K, V>, key: K)
    ensures Has(d, key) ==>
      exists i :: 0 <= i < |d| && d[i].key == key && Remove(d, key) == d[..i] + d[i + 1..]
    ensures !Has(d, key) ==> Remove(d, key) == d
  {
    FindAbsent(d, key);
    if Has(d, key) {
      var i := RemoveAt(d, key);
    } else {
      RemoveNothing(d, key);
    }
  }

  lemma CutDistinct<K, V>(d: Dict<K, V>, i: nat)
    requires Distinct(d) && i < |d|
    ensures var cut := d[..i] + d[i + 1..];
      Distinct(cut) && !Has(cut, d[i].key)
  {
  }

  lemma RemoveDistinct<K, V>(d: Dict<K, V>, key: K)
    requires Distinct(d)
    ensures Distinct(Remove(d, key)) && !Has(Remove(d, key), key)
    ensures |Remove(d, key)| == if Has(d, key) then |d| - 1 else |d|
  {
    FindAbsent(d, key);
    if Find(d, key).Some? {
      var i := RemoveAt(d, key);
      CutDistinct(d, i);
    } else {
      RemoveNothing(d, key);
    }
  }

  lemma {:induction false} FindRemoveOther<K, V>(d: Dict<K, V>, key: K, other: K)
    requires key != other
    ensures Find(Remove(d, key), other) == Find(d, other)
  {
    if d != [] && d[0].key != key {
      FindRemoveOther(d[1..], key, other);
      assert ([d[0]] + Remove(d[1..], key))[1..] == Remove(d[1..], key);
    }
  }

  /** Looking up after a renewal: the new value for its key, the old one for every other. */
  lemma FindRenew<K, V>(d: Dict<K, V>, key: K, value: V, other: K)
    requires Distinct(d)
    ensures Find(Renew(d, key, value), other) == if other == key then Some(value) else Find(d, other)
  {
    FindConcat(Remove(d, key), [Pair(key, value)], other);
    if other == key {
      RemoveDistinct(d, key);
      FindAbsent(Remove(d, key), key);
    } else {
      FindRemoveOther(d, key, other);
    }
  }

  lemma RenewDistinct<K, V>(d: Dict<K, V>, key: K, value: V)
    requires Distinct(d)
    ensures Distinct(Renew(d, key, value))
    ensures |Renew(d, key, value)| == if Has(d, key) then |d| else |d| + 1
  {
    RemoveDistinct(d, key);
    var kept := Remove(d, key);
    forall i | 0 <= i < |kept| ensures kept[i].key != key {
      assert !Has(kept, key);
    }
  }

  lemma {:induction false} KeepShorter<K, V>(d: Dict<K, V>, p: V -> bool)
    ensures |Keep(d, p)| <= |d|
  {
    if d != [] {
      KeepShorter(d[1..], p);
    }
  }

  lemma {:induction false} KeepFrom<K, V>(d: Dict<K, V>, p: V -> bool, i: nat)
    requires i < |Keep(d, p)|
    ensures |Keep(d, p)| <= |d|
    ensures exists j :: 0 <= j < |d| && d[j] == Keep(d, p)[i] && p(d[j].value)
  {
    KeepShorter(d, p);
    var first := if p(d[0].value) then [d[0]] else [];
    if i < |first| {
      assert d[0] == Keep(d, p)[i];
    } else {
      KeepFrom(d[1..], p, i - |first|);
      var j :| 0 <= j < |d[1..]| && d[1..][j] == Keep(d[1..], p)[i - |first|] && p(d[1..][j].value);
      assert d[j + 1] == Keep(d, p)[i];
    }
  }

  lemma {:induction false} KeepDistinct<K, V>(d: Dict<K, V>, p: V -> bool)
    requires Distinct(d)
    ensures Distinct(Keep(d, p))
  {
    if d != [] {
      KeepDistinct(d[1..], p);
      var rest := Keep(d[1..], p);
      forall i | 0 <= i < |rest| ensures rest[i].key != d[0].key {
        KeepFrom(d[1..], p, i);
        var j :| 0 <= j < |d[1..]| && d[1..][j] == rest[i] && p(d[1..][j].value);
        assert d[j + 1] == rest[i];
      }
    }
  }

  lemma {:induction false} FindKeep<K, V>(d: Dict<K, V>, p: V -> bool, key: K)
    requires Distinct(d)
    ensures Find(Keep(d, p), key) == if Find(d, key).Some? && p(Find(d, key).value) then Find(d, key) else None
  {
    if d != [] {
      FindKeep(d[1..], p, key);
      var first := if p(d[0].value) then [d[0]] else [];
      FindConcat(first, Keep(d[1..], p), key);
      if d[0].key == key {
        assert !Has(d[1..], key);
        FindAbsent(d[1..], key);
      }
    }
  }

  lemma {:induction false} KeepConcat<K, V>(a: Dict<K, V>, b: Dict<K, V>, p: V -> bool)
    ensures Keep(a + b, p) == Keep(a, p) + Keep(b, p)
  {
    if a == [] {
      assert a + b == b;
    } else {
      var whole, rest := a + b, a[1..];
      var first := if p(a[0].value) then [a[0]] else [];
      KeepConcat(rest, b, p);
      assert whole[0] == a[0] && whole[1..] == rest + b;
      assert first + (Keep(rest, p) + Keep(b, p)) == (first + Keep(rest, p)) + Keep(b, p);
    }
  }

  lemma NewestDistinct<K, V>(d: Dict<K, V>, n: nat)
    requires Distinct(d)
    ensures Distinct(Newest(d, n))
  {
  }

  lemma {:induction false} RemoveConcat<K, V>(a: Dict<K, V>, b: Dict<K, V>, key: K)
    requires !Has(a, key)
    ensures Remove(a + b, key) == a + Remove(b, key)
  {
    if a == [] {
      assert a + b == b && a + Remove(b, key) == Remove(b, key);
    } else {
      assert (a + b)[1..] == a[1..] + b;
      FindAbsent(a, key);
      FindAbsent(a[1..], key);
      RemoveConcat(a[1..], b, key);
      assert [a[0]] + (a[1..] + Remove(b, key)) == a + Remove(b, key);
    }
  }

  lemma {:induction false} FindAt<K, V>(d: Dict<K, V>, i: nat)
    requires Distinct(d) && i < |d|
    ensures Find(d, d[i].key) == Some(d[i].value)
  {
    if i > 0 {
      assert d[1..][i - 1] == d[i];
      FindAt(d[1..], i - 1);
    }
  }
}
