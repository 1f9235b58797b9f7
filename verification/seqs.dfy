/** Sequence operations shared by the lead search and the record cleaning:
    first-occurrence de-duplication by a key, subsequences, and the first
    index with a given key. */
module Seqs {

  /** The smaller of two integers. */
  function Min(a: int, b: int): int {
    if a <= b then a else b
  }

  /** Python's `xs[:n]`. */
  function Take<T>(xs: seq<T>, n: nat): (r: seq<T>)
    ensures |r| == Min(n, |xs|)
    ensures r == xs[..|r|]
  {
    if n < |xs| then xs[..n] else xs
  }

  /** The keys of the elements of `xs`. */
  function KeySet<T, K>(xs: seq<T>, key: T -> K): set<K>
    decreases |xs|
  {
    if |xs| == 0 then {} else KeySet(xs[..|xs| - 1], key) + {key(xs[|xs| - 1])}
  }

  /** A key belongs to `KeySet` exactly when some element has it. */
  lemma {:induction false} KeySetMember<T, K>(xs: seq<T>, key: T -> K, k: K)
    ensures k in KeySet(xs, key) <==> exists i :: 0 <= i < |xs| && key(xs[i]) == k
    decreases |xs|
  {
    if |xs| > 0 {
      var init := xs[..|xs| - 1];
      KeySetMember(init, key, k);
      if k in KeySet(init, key) {
        var i :| 0 <= i < |init| && key(init[i]) == k;
        assert key(xs[i]) == k;
      }
      if exists i :: 0 <= i < |xs| && key(xs[i]) == k {
        var i :| 0 <= i < |xs| && key(xs[i]) == k;
        if i < |xs| - 1 {
          assert key(init[i]) == k;
        }
      }
    }
  }

  /** An element with key `k`, when `k` is a key of `xs`. */
  lemma KeySetWitness<T, K>(xs: seq<T>, key: T -> K, k: K) returns (i: nat)
    requires k in KeySet(xs, key)
    ensures i < |xs| && key(xs[i]) == k
  {
    KeySetMember(xs, key, k);
    i :| 0 <= i < |xs| && key(xs[i]) == k;
  }

  /** The key of every element is a key of `xs`. */
  lemma KeySetHas<T, K>(xs: seq<T>, key: T -> K, i: nat)
    requires i < |xs|
    ensures key(xs[i]) in KeySet(xs, key)
  {
    KeySetMember(xs, key, key(xs[i]));
  }

  /** No two elements of `xs` share a key. */
  predicate UniqueBy<T, K(==)>(xs: seq<T>, key: T -> K) {
    forall i, j :: 0 <= i < j < |xs| ==> key(xs[i]) != key(xs[j])
  }

  /** `a` is obtained from `b` by deleting elements: the elements of `a`
      appear in `b` in the same order. */
  predicate IsSubseq<T(==)>(a: seq<T>, b: seq<T>)
    decreases |b|
  {
    || |a| == 0
    || (&& |b| > 0
        && (|| (a[|a| - 1] == b[|b| - 1] && IsSubseq(a[..|a| - 1], b[..|b| - 1]))
            || IsSubseq(a, b[..|b| - 1])))
  }

  /** Every element of a subsequence is an element of the sequence. */
  lemma {:induction false} SubseqMembers<T>(a: seq<T>, b: seq<T>)
    requires IsSubseq(a, b)
    ensures forall x :: x in a ==> x in b
    decreases |b|
  {
    if |a| > 0 {
      var b' := b[..|b| - 1];
      if a[|a| - 1] == b[|b| - 1] && IsSubseq(a[..|a| - 1], b') {
        SubseqMembers(a[..|a| - 1], b');
        assert a == a[..|a| - 1] + [b[|b| - 1]];
      } else {
        SubseqMembers(a, b');
      }
    }
  }

  /** Every sequence is a subsequence of itself. */
  lemma {:induction false} SubseqReflexive<T>(a: seq<T>)
    ensures IsSubseq(a, a)
    decreases |a|
  {
    if |a| > 0 {
      SubseqReflexive(a[..|a| - 1]);
    }
  }

  /** The empty sequence is a subsequence of every sequence. */
  lemma SubseqOfEmpty<T>(b: seq<T>)
    ensures IsSubseq([], b)
  {
  }

  /** A prefix is a subsequence. */
  lemma {:induction false} PrefixIsSubseq<T>(b: seq<T>, n: nat)
    requires n <= |b|
    ensures IsSubseq(b[..n], b)
    decreases |b|
  {
    if n == |b| {
      assert b[..n] == b;
      SubseqReflexive(b);
    } else {
      PrefixIsSubseq(b[..|b| - 1], n);
      assert b[..|b| - 1][..n] == b[..n];
    }
  }

  /** Subsequences compose. */
  lemma {:induction false} SubseqTransitive<T>(a: seq<T>, b: seq<T>, c: seq<T>)
    requires IsSubseq(a, b) && IsSubseq(b, c)
    ensures IsSubseq(a, c)
    decreases |c|
  {
    if |a| > 0 {
      var c' := c[..|c| - 1];
      if b[|b| - 1] == c[|c| - 1] && IsSubseq(b[..|b| - 1], c') {
        if a[|a| - 1] == b[|b| - 1] && IsSubseq(a[..|a| - 1], b[..|b| - 1]) {
          SubseqTransitive(a[..|a| - 1], b[..|b| - 1], c');
        } else {
          SubseqTransitive(a, b[..|b| - 1], c');
        }
      } else {
        SubseqTransitive(a, b, c');
      }
    }
  }

  /** Index of the first element of `xs` whose key is `k`, or `|xs|`. */
  function FirstIndex<T, K(==)>(xs: seq<T>, key: T -> K, k: K): (r: nat)
    ensures r <= |xs|
    ensures r < |xs| ==> key(xs[r]) == k
    ensures forall j :: 0 <= j < r ==> key(xs[j]) != k
    decreases |xs|
  {
    if |xs| == 0 then 0
    else if key(xs[0]) == k then 0
    else 1 + FirstIndex(xs[1..], key, k)
  }

  /** `FirstIndex` is the only index with the first-occurrence property. */
  lemma FirstIndexUnique<T, K>(xs: seq<T>, key: T -> K, k: K, n: nat)
    requires n < |xs| && key(xs[n]) == k
    requires forall j :: 0 <= j < n ==> key(xs[j]) != k
    ensures FirstIndex(xs, key, k) == n
  {
  }

  /** Every element of `r` is the first element of `xs` with its key. */
  predicate AreFirstOccurrences<T(==), K(==)>(r: seq<T>, xs: seq<T>, key: T -> K) {
    forall i :: 0 <= i < |r| ==>
      FirstIndex(xs, key, key(r[i])) < |xs| && xs[FirstIndex(xs, key, key(r[i]))] == r[i]
  }

  /** First-occurrence de-duplication: keep an element only when no earlier
      element had its key. Defined on the last element, so that it follows
      a left-to-right scan with a set of seen keys. */
  function Dedup<T(==), K(==)>(xs: seq<T>, key: T -> K): seq<T>
    decreases |xs|
  {
    if |xs| == 0 then []
    else
      var prev := Dedup(xs[..|xs| - 1], key);
      if key(xs[|xs| - 1]) in KeySet(prev, key) then prev else prev + [xs[|xs| - 1]]
  }

  /** The de-duplicated sequence has no repeated key, keeps every key, is a
      subsequence of the input, and holds the first element of each key. */
  lemma {:induction false} DedupSpec<T, K>(xs: seq<T>, key: T -> K)
    ensures UniqueBy(Dedup(xs, key), key)
    ensures KeySet(Dedup(xs, key), key) == KeySet(xs, key)
    ensures IsSubseq(Dedup(xs, key), xs)
    ensures AreFirstOccurrences(Dedup(xs, key), xs, key)
    decreases |xs|
  {
    if |xs| > 0 {
      DedupSpec(xs[..|xs| - 1], key);
      DedupStep(xs, key, Dedup(xs[..|xs| - 1], key));
    } else {
      SubseqOfEmpty(xs);
    }
  }

  /** One step of `Dedup`: if `prev` de-duplicates all but the last element,
      then adding the last element when its key is new de-duplicates all. */
  lemma DedupStep<T, K>(xs: seq<T>, key: T -> K, prev: seq<T>)
    requires |xs| > 0
    requires UniqueBy(prev, key)
    requires KeySet(prev, key) == KeySet(xs[..|xs| - 1], key)
    requires IsSubseq(prev, xs[..|xs| - 1])
    requires AreFirstOccurrences(prev, xs[..|xs| - 1], key)
    ensures var r := if key(xs[|xs| - 1]) in KeySet(prev, key) then prev else prev + [xs[|xs| - 1]];
      && UniqueBy(r, key)
      && KeySet(r, key) == KeySet(xs, key)
      && IsSubseq(r, xs)
      && AreFirstOccurrences(r, xs, key)
  {
    var init := xs[..|xs| - 1];
    var x := xs[|xs| - 1];
    assert init + [x] == xs;
    if key(x) in KeySet(prev, key) {
      DedupStepSeen(init, prev, x, key);
    } else {
      DedupStepNew(init, prev, x, key);
    }
  }

  /** `DedupStep` when the last key was seen: nothing is added. */
  lemma DedupStepSeen<T, K>(init: seq<T>, prev: seq<T>, x: T, key: T -> K)
    requires KeySet(prev, key) == KeySet(init, key)
    requires IsSubseq(prev, init)
    requires AreFirstOccurrences(prev, init, key)
    requires key(x) in KeySet(prev, key)
    ensures KeySet(prev, key) == KeySet(init + [x], key)
    ensures IsSubseq(prev, init + [x])
    ensures AreFirstOccurrences(prev, init + [x], key)
  {
    var xs := init + [x];
    assert xs[..|xs| - 1] == init;
    DedupFirstStable(init, prev, x, key);
  }

  /** `DedupStep` when the last key is new: the last element is added. */
  lemma DedupStepNew<T, K>(init: seq<T>, prev: seq<T>, x: T, key: T -> K)
    requires UniqueBy(prev, key)
    requires KeySet(prev, key) == KeySet(init, key)
    requires IsSubseq(prev, init)
    requires AreFirstOccurrences(prev, init, key)
    requires key(x) !in KeySet(prev, key)
    ensures UniqueBy(prev + [x], key)
    ensures KeySet(prev + [x], key) == KeySet(init + [x], key)
    ensures IsSubseq(prev + [x], init + [x])
    ensures AreFirstOccurrences(prev + [x], init + [x], key)
  {
    var xs, r := init + [x], prev + [x];
    assert xs[..|xs| - 1] == init;
    assert r[..|r| - 1] == prev;
    DedupStepNewUnique(prev, x, key);
    DedupStepNewFirst(init, prev, x, key);
  }

  /** A new key keeps the keys unique. */
  lemma DedupStepNewUnique<T, K>(prev: seq<T>, x: T, key: T -> K)
    requires UniqueBy(prev, key)
    requires key(x) !in KeySet(prev, key)
    ensures UniqueBy(prev + [x], key)
  {
    var r := prev + [x];
    forall i, j | 0 <= i < j < |r| ensures key(r[i]) != key(r[j]) {
      if j == |r| - 1 {
        KeySetMember(prev, key, key(x));
        assert key(prev[i]) == key(r[i]);
      }
    }
  }

  /** An element with a new key is the first with it. */
  lemma DedupStepNewFirst<T, K>(init: seq<T>, prev: seq<T>, x: T, key: T -> K)
    requires AreFirstOccurrences(prev, init, key)
    requires key(x) !in KeySet(init, key)
    ensures AreFirstOccurrences(prev + [x], init + [x], key)
  {
    var xs, r := init + [x], prev + [x];
    DedupFirstStable(init, prev, x, key);
    KeySetMember(init, key, key(x));
    FirstIndexUnique(xs, key, key(x), |xs| - 1);
    forall i | 0 <= i < |r|
      ensures FirstIndex(xs, key, key(r[i])) < |xs| && xs[FirstIndex(xs, key, key(r[i]))] == r[i]
    {
      if i < |prev| {
        assert r[i] == prev[i];
      }
    }
  }

  /** Appending an element keeps the first occurrences of the keys already
      present. */
  lemma DedupFirstStable<T, K>(init: seq<T>, prev: seq<T>, x: T, key: T -> K)
    requires AreFirstOccurrences(prev, init, key)
    ensures AreFirstOccurrences(prev, init + [x], key)
  {
    forall i | 0 <= i < |prev|
      ensures FirstIndex(init + [x], key, key(prev[i])) == FirstIndex(init, key, key(prev[i]))
    {
      var n := FirstIndex(init, key, key(prev[i]));
      FirstIndexUnique(init + [x], key, key(prev[i]), n);
    }
  }

  /** Dropping the last element keeps keys unique, and the last key is not
      among the others. */
  lemma UniqueInit<T, K>(xs: seq<T>, key: T -> K)
    requires |xs| > 0 && UniqueBy(xs, key)
    ensures UniqueBy(xs[..|xs| - 1], key)
    ensures key(xs[|xs| - 1]) !in KeySet(xs[..|xs| - 1], key)
  {
    var init := xs[..|xs| - 1];
    forall i | 0 <= i < |init| ensures key(init[i]) != key(xs[|xs| - 1]) {
      assert init[i] == xs[i];
    }
    KeySetMember(init, key, key(xs[|xs| - 1]));
  }

  /** `Dedup` on a non-empty sequence, in terms of all but the last
      element. */
  lemma DedupLast<T, K>(xs: seq<T>, key: T -> K)
    requires |xs| > 0
    ensures var prev := Dedup(xs[..|xs| - 1], key);
      Dedup(xs, key) == if key(xs[|xs| - 1]) in KeySet(prev, key) then prev else prev + [xs[|xs| - 1]]
  {
  }

  /** A sequence whose keys are already unique is left as it is. */
  lemma {:induction false} DedupOfUnique<T, K>(xs: seq<T>, key: T -> K)
    requires UniqueBy(xs, key)
    ensures Dedup(xs, key) == xs
    decreases |xs|
  {
    if |xs| > 0 {
      var init := xs[..|xs| - 1];
      UniqueInit(xs, key);
      DedupOfUnique(init, key);
      DedupLast(xs, key);
      assert init + [xs[|xs| - 1]] == xs;
    }
  }

  /** A sequence with unique keys has as many keys as elements. */
  lemma {:induction false} UniqueKeyCount<T, K>(xs: seq<T>, key: T -> K)
    requires UniqueBy(xs, key)
    ensures |KeySet(xs, key)| == |xs|
    decreases |xs|
  {
    if |xs| > 0 {
      UniqueInit(xs, key);
      UniqueKeyCount(xs[..|xs| - 1], key);
    }
  }

  /** De-duplication keeps exactly one element per distinct key. */
  lemma DedupLength<T, K>(xs: seq<T>, key: T -> K)
    ensures |Dedup(xs, key)| == |KeySet(xs, key)|
  {
    DedupSpec(xs, key);
    UniqueKeyCount(Dedup(xs, key), key);
  }

  /** De-duplication is idempotent. */
  lemma DedupIdempotent<T, K>(xs: seq<T>, key: T -> K)
    ensures Dedup(Dedup(xs, key), key) == Dedup(xs, key)
  {
    DedupSpec(xs, key);
    DedupOfUnique(Dedup(xs, key), key);
  }

  /** `r` is the first `n` elements of `xs` with distinct keys, in order:
      no key repeats, each element is the first of its key in `xs`, there
      are as many as `n` allows, the elements appear in the order of their
      keys' first occurrences, and no key that first occurs earlier than one
      of them is missing before it. */
  ghost predicate FirstDistinct<T, K>(r: seq<T>, xs: seq<T>, key: T -> K, n: nat) {
    && UniqueBy(r, key)
    && AreFirstOccurrences(r, xs, key)
    && |r| == Min(n, |KeySet(xs, key)|)
    && (forall a, b :: 0 <= a < b < |r| ==> FirstIndex(xs, key, key(r[a])) < FirstIndex(xs, key, key(r[b])))
    && (forall p, i :: 0 <= p < |xs| && 0 <= i < |r| && p < FirstIndex(xs, key, key(r[i])) ==>
          exists j :: 0 <= j < i && key(r[j]) == key(xs[p]))
  }

  /** Appending an element does not move the first occurrence of a key that
      already occurs. */
  lemma FirstIndexSnoc<T, K>(init: seq<T>, x: T, key: T -> K, k: K)
    requires FirstIndex(init, key, k) < |init|
    ensures FirstIndex(init + [x], key, k) == FirstIndex(init, key, k)
  {
    FirstIndexUnique(init + [x], key, k, FirstIndex(init, key, k));
  }

  /** `Dedup` lists the keys in the order of their first occurrences. */
  lemma {:induction false} DedupOrdered<T, K>(xs: seq<T>, key: T -> K, a: nat, b: nat)
    requires a < b < |Dedup(xs, key)|
    ensures FirstIndex(xs, key, key(Dedup(xs, key)[a])) < FirstIndex(xs, key, key(Dedup(xs, key)[b]))
    decreases |xs|
  {
    var init := xs[..|xs| - 1];
    var x := xs[|xs| - 1];
    assert xs == init + [x];
    var prev := Dedup(init, key);
    DedupSpec(init, key);
    var d := Dedup(xs, key);
    assert forall i :: 0 <= i < |prev| ==> d[i] == prev[i];
    FirstIndexSnoc(init, x, key, key(prev[a]));
    if b < |prev| {
      DedupOrdered(init, key, a, b);
      FirstIndexSnoc(init, x, key, key(prev[b]));
    } else {
      KeySetMember(init, key, key(x));
      FirstIndexUnique(xs, key, key(x), |xs| - 1);
    }
  }

  /** `DedupOrdered` for every pair of positions. */
  lemma DedupOrderedAll<T, K>(xs: seq<T>, key: T -> K)
    ensures forall a, b :: 0 <= a < b < |Dedup(xs, key)| ==>
      FirstIndex(xs, key, key(Dedup(xs, key)[a])) < FirstIndex(xs, key, key(Dedup(xs, key)[b]))
  {
    forall a, b | 0 <= a < b < |Dedup(xs, key)|
      ensures FirstIndex(xs, key, key(Dedup(xs, key)[a])) < FirstIndex(xs, key, key(Dedup(xs, key)[b]))
    {
      DedupOrdered(xs, key, a, b);
    }
  }
  /** A key that first occurs before the key of `Dedup`'s `i`-th element is
      the key of an earlier element of `Dedup`. */
  lemma DedupClosed<T, K>(xs: seq<T>, key: T -> K, p: nat, i: nat)
    requires p < |xs| && i < |Dedup(xs, key)|
    requires p < FirstIndex(xs, key, key(Dedup(xs, key)[i]))
    ensures exists j :: 0 <= j < i && key(Dedup(xs, key)[j]) == key(xs[p])
  {
    var d := Dedup(xs, key);
    DedupSpec(xs, key);
    KeySetHas(xs, key, p);
    var j := KeySetWitness(d, key, key(xs[p]));
    if j >= i {
      if j > i {
        DedupOrdered(xs, key, i, j);
      }
      assert false;
    }
  }

  /** The first `n` elements of `Dedup` are the first `n` distinct ones. */
  lemma TakeDedupFirstDistinct<T, K>(xs: seq<T>, key: T -> K, n: nat)
    ensures FirstDistinct(Take(Dedup(xs, key), n), xs, key, n)
  {
    TakeDedupBasics(xs, key, n);
    TakeDedupOrdered(xs, key, n);
    TakeDedupClosed(xs, key, n);
  }

  /** Proof helper: the first three parts of `TakeDedupFirstDistinct`. */
  lemma TakeDedupBasics<T, K>(xs: seq<T>, key: T -> K, n: nat)
    ensures var r := Take(Dedup(xs, key), n);
      UniqueBy(r, key) && AreFirstOccurrences(r, xs, key) && |r| == Min(n, |KeySet(xs, key)|)
  {
    var d := Dedup(xs, key);
    var r := Take(d, n);
    DedupSpec(xs, key);
    DedupLength(xs, key);
    assert forall i :: 0 <= i < |r| ==> r[i] == d[i];
  }

  /** Proof helper: the ordering part of `TakeDedupFirstDistinct`. */
  lemma TakeDedupOrdered<T, K>(xs: seq<T>, key: T -> K, n: nat)
    ensures var r := Take(Dedup(xs, key), n);
      forall a, b :: 0 <= a < b < |r| ==> FirstIndex(xs, key, key(r[a])) < FirstIndex(xs, key, key(r[b]))
  {
    var d := Dedup(xs, key);
    var r := Take(d, n);
    forall a, b | 0 <= a < b < |r|
      ensures FirstIndex(xs, key, key(r[a])) < FirstIndex(xs, key, key(r[b]))
    {
      assert r[a] == d[a] && r[b] == d[b];
      DedupOrdered(xs, key, a, b);
    }
  }

  /** Proof helper: the closure part of `TakeDedupFirstDistinct`. */
  lemma TakeDedupClosed<T, K>(xs: seq<T>, key: T -> K, n: nat)
    ensures var r := Take(Dedup(xs, key), n);
      forall p, i :: 0 <= p < |xs| && 0 <= i < |r| && p < FirstIndex(xs, key, key(r[i])) ==>
        exists j :: 0 <= j < i && key(r[j]) == key(xs[p])
  {
    var d := Dedup(xs, key);
    var r := Take(d, n);
    forall p, i | 0 <= p < |xs| && 0 <= i < |r| && p < FirstIndex(xs, key, key(r[i]))
      ensures exists j :: 0 <= j < i && key(r[j]) == key(xs[p])
    {
      assert r[i] == d[i];
      DedupClosed(xs, key, p, i);
      var j :| 0 <= j < i && key(d[j]) == key(xs[p]);
      assert key(r[j]) == key(xs[p]);
    }
  }

  /** `FirstDistinct` determines its sequence: two sequences meeting it for
      the same input and bound are equal. */
  lemma FirstDistinctUnique<T, K>(r1: seq<T>, r2: seq<T>, xs: seq<T>, key: T -> K, n: nat)
    requires FirstDistinct(r1, xs, key, n) && FirstDistinct(r2, xs, key, n)
    ensures r1 == r2
  {
    forall i | 0 <= i < |r1| ensures r1[i] == r2[i] {
      FirstDistinctAgree(r1, r2, xs, key, n, i);
    }
  }

  /** Two `FirstDistinct` sequences agree at every index, by induction on
      the index. */
  lemma {:induction false} FirstDistinctAgree<T, K>(r1: seq<T>, r2: seq<T>, xs: seq<T>, key: T -> K, n: nat, i: nat)
    requires FirstDistinct(r1, xs, key, n) && FirstDistinct(r2, xs, key, n)
    requires i < |r1|
    ensures r1[i] == r2[i]
    decreases i
  {
    forall j | 0 <= j < i ensures r1[j] == r2[j] {
      FirstDistinctAgree(r1, r2, xs, key, n, j);
    }
    // The keys of the two `i`-th elements first occur at the same index:
    // an earlier one would be missing before index `i` of the other.
  }

  /** The de-duplication loop of the source: scan left to right, remember
      the keys seen so far, and append an element whose key is new. */
  method DedupScan<T(==), K(==)>(xs: seq<T>, key: T -> K) returns (unique: seq<T>)
    ensures unique == Dedup(xs, key)
    ensures UniqueBy(unique, key)
  {
    var seen: set<K> := {};
    unique := [];
    var i := 0;
    while i < |xs|
      invariant 0 <= i <= |xs|
      invariant unique == Dedup(xs[..i], key)
      invariant seen == KeySet(unique, key)
    {
      var x := xs[i];
      assert xs[..i + 1][..i] == xs[..i];
      if key(x) !in seen {
        seen := seen + {key(x)};
        unique := unique + [x];
      }
      i := i + 1;
    }
    assert xs[..|xs|] == xs;
    DedupSpec(xs, key);
  }
}
