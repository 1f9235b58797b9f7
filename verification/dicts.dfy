/** Python dictionaries as association lists in insertion order: assigning
    to an existing key overwrites its value in place, assigning to a new
    key appends it. */
module Dicts {
  import opened Options

  type Dict<K, V> = seq<(K, V)>

  /** The keys in insertion order. */
  function Keys<K, V>(d: Dict<K, V>): (r: seq<K>)
    ensures |r| == |d|
    ensures forall i :: 0 <= i < |d| ==> r[i] == d[i].0
  {
    if |d| == 0 then [] else [d[0].0] + Keys(d[1..])
  }

  /** No key appears twice (every Python dict has this property). */
  predicate Valid<K(==), V>(d: Dict<K, V>) {
    forall i, j :: 0 <= i < j < |d| ==> d[i].0 != d[j].0
  }

  /** `d.get(k)`: the value stored under `k`, if any. */
  function Get<K(==), V>(d: Dict<K, V>, k: K): (r: Option<V>)
    ensures r.Some? <==> k in Keys(d)
  {
    if |d| == 0 then None
    else if d[0].0 == k then Some(d[0].1)
    else Get(d[1..], k)
  }

  /** In a valid dictionary, the entry at index `i` is what `Get` finds. */
  lemma {:induction false} GetAt<K, V>(d: Dict<K, V>, i: nat)
    requires Valid(d) && i < |d|
    ensures Get(d, d[i].0) == Some(d[i].1)
    decreases i
  {
    if i > 0 {
      GetAt(d[1..], i - 1);
    }
  }

  /** `d[k] = v`: overwrite the entry with key `k` in place, or append one.
      What it does to lookups and keys is stated by `PutGet` and `PutKeys`. */
  function Put<K(==), V>(d: Dict<K, V>, k: K, v: V): Dict<K, V>
    decreases |d|
  {
    if |d| == 0 then [(k, v)]
    else if d[0].0 == k then [(k, v)] + d[1..]
    else [d[0]] + Put(d[1..], k, v)
  }

  /** Looking up a key after assigning. */
  lemma {:induction false} PutGet<K, V>(d: Dict<K, V>, k: K, v: V, q: K)
    ensures Get(Put(d, k, v), q) == if q == k then Some(v) else Get(d, q)
    decreases |d|
  {
    if |d| > 0 {
      var r := Put(d, k, v);
      if d[0].0 == k {
        assert r[1..] == d[1..];
      } else {
        assert r[1..] == Put(d[1..], k, v);
        PutGet(d[1..], k, v, q);
      }
    }
  }

  /** The keys after assigning. */
  lemma {:induction false} PutKeys<K, V>(d: Dict<K, V>, k: K, v: V)
    ensures Keys(Put(d, k, v)) == if k in Keys(d) then Keys(d) else Keys(d) + [k]
    decreases |d|
  {
    if |d| > 0 {
      var r := Put(d, k, v);
      assert Keys(d) == [d[0].0] + Keys(d[1..]);
      if d[0].0 == k {
        assert r[1..] == d[1..];
        assert Keys(r) == [k] + Keys(d[1..]);
      } else {
        assert r[1..] == Put(d[1..], k, v);
        PutKeys(d[1..], k, v);
        assert Keys(r) == [d[0].0] + Keys(Put(d[1..], k, v));
        assert k in Keys(d) <==> k in Keys(d[1..]);
      }
    }
  }

  /** Lookups after assigning, for every key. */
  lemma PutGets<K(!new), V>(d: Dict<K, V>, k: K, v: V)
    ensures forall q :: Get(Put(d, k, v), q) == if q == k then Some(v) else Get(d, q)
  {
    forall q {
      PutGet(d, k, v, q);
    }
  }

  /** Assignment keeps a dictionary valid. */
  lemma {:induction false} PutValid<K, V>(d: Dict<K, V>, k: K, v: V)
    requires Valid(d)
    ensures Valid(Put(d, k, v))
    decreases |d|
  {
    if |d| > 0 {
      Cons(d[0], d[1..]);
      assert d == [d[0]] + d[1..];
      if d[0].0 == k {
        Cons((k, v), d[1..]);
      } else {
        PutValid(d[1..], k, v);
        PutKeys(d[1..], k, v);
        Cons(d[0], Put(d[1..], k, v));
      }
    }
  }

  /** Validity of a dictionary with a first entry `e`. */
  lemma Cons<K, V>(e: (K, V), d: Dict<K, V>)
    ensures Valid([e] + d) <==> Valid(d) && e.0 !in Keys(d)
  {
    if Valid(d) && e.0 !in Keys(d) {
      forall i, j | 0 <= i < j < |[e] + d| ensures ([e] + d)[i].0 != ([e] + d)[j].0 {
        if i > 0 {
          assert ([e] + d)[i] == d[i - 1] && ([e] + d)[j] == d[j - 1];
        } else {
          assert ([e] + d)[j] == d[j - 1];
          assert Keys(d)[j - 1] == d[j - 1].0;
        }
      }
    }
    if Valid([e] + d) {
      forall i, j | 0 <= i < j < |d| ensures d[i].0 != d[j].0 {
        assert ([e] + d)[i + 1] == d[i] && ([e] + d)[j + 1] == d[j];
      }
      forall i | 0 <= i < |d| ensures Keys(d)[i] != e.0 {
        assert ([e] + d)[0] == e && ([e] + d)[i + 1] == d[i];
        assert ([e] + d)[0].0 != ([e] + d)[i + 1].0;
      }
    }
  }

  /** Two valid dictionaries with the same keys in the same order and the
      same value under every key are equal. */
  lemma {:induction false} Extensionality<K(!new), V>(a: Dict<K, V>, b: Dict<K, V>)
    requires Valid(a) && Valid(b)
    requires Keys(a) == Keys(b)
    requires forall k :: Get(a, k) == Get(b, k)
    ensures a == b
  {
    forall i | 0 <= i < |a| ensures a[i] == b[i] {
      assert Keys(a)[i] == Keys(b)[i];
      GetAt(a, i);
      GetAt(b, i);
    }
  }

  /** Assigning to a new key appends the entry. */
  lemma {:induction false} PutNew<K, V>(d: Dict<K, V>, k: K, v: V)
    requires k !in Keys(d)
    ensures Put(d, k, v) == d + [(k, v)]
    decreases |d|
  {
    if |d| > 0 {
      assert Keys(d) == [d[0].0] + Keys(d[1..]);
      PutNew(d[1..], k, v);
      assert d == [d[0]] + d[1..];
    }
  }

  /** Assigning the value a key already holds changes nothing. */
  lemma {:induction false} PutSame<K(!new), V>(d: Dict<K, V>, k: K, v: V)
    requires Valid(d) && Get(d, k) == Some(v)
    ensures Put(d, k, v) == d
  {
    PutValid(d, k, v);
    PutKeys(d, k, v);
    PutGets(d, k, v);
    Extensionality(Put(d, k, v), d);
  }

  /** Keys of a dictionary with a last entry `e`. */
  lemma KeysSnoc<K, V>(d: Dict<K, V>, e: (K, V))
    ensures Keys(d + [e]) == Keys(d) + [e.0]
  {
  }

  /** Lookup in a dictionary with a last entry `e`: an earlier entry with the
      key wins. */
  lemma {:induction false} GetSnoc<K, V>(d: Dict<K, V>, e: (K, V), k: K)
    ensures Get(d + [e], k) == if k in Keys(d) then Get(d, k) else if e.0 == k then Some(e.1) else None
    decreases |d|
  {
    if |d| > 0 {
      assert (d + [e])[1..] == d[1..] + [e];
      assert Keys(d) == [d[0].0] + Keys(d[1..]);
      GetSnoc(d[1..], e, k);
    } else {
      assert (d + [e])[1..] == [];
    }
  }
}
