/**
 Sums over finite maps and sequences, taken through a weight function. The leak ledger
 compares an incrementally maintained total with a fold over a hash map, and hash maps
 have no order, so the sum over a map must not depend on which key is visited first.
 */
module Sums {

  /** The sum of `w` over the values of `m`. */
  ghost function SumMap<K, V>(m: map<K, V>, w: V -> nat): nat
    decreases |m|
  {
    if m == map[] then 0
    else
      var k :| k in m;
      w(m[k]) + SumMap(m - {k}, w)
  }

  /** The sum of `w` over the elements of `s`. */
  ghost function SumSeq<V>(s: seq<V>, w: V -> nat): nat {
    if s == [] then 0 else SumSeq(s[..|s| - 1], w) + w(s[|s| - 1])
  }

  /** Any key may be taken out first. */
  lemma {:induction false} SumMapRemove<K, V>(m: map<K, V>, k: K, w: V -> nat)
    requires k in m
    ensures SumMap(m, w) == w(m[k]) + SumMap(m - {k}, w)
    decreases |m|
  {
    var first :| first in m && SumMap(m, w) == w(m[first]) + SumMap(m - {first}, w);
    if first != k {
      SumMapRemove(m - {first}, k, w);
      SumMapRemove(m - {k}, first, w);
      assert m - {first} - {k} == m - {k} - {first};
    }
  }

  /** Storing a value under a new key adds its weight. */
  lemma SumMapInsert<K, V>(m: map<K, V>, k: K, v: V, w: V -> nat)
    requires k !in m
    ensures SumMap(m[k := v], w) == SumMap(m, w) + w(v)
  {
    SumMapRemove(m[k := v], k, w);
    assert m[k := v] - {k} == m;
  }

  /** Storing a value under a present key exchanges the two weights. */
  lemma SumMapReplace<K, V>(m: map<K, V>, k: K, v: V, w: V -> nat)
    requires k in m
    ensures SumMap(m[k := v], w) + w(m[k]) == SumMap(m, w) + w(v)
  {
    SumMapRemove(m, k, w);
    SumMapRemove(m[k := v], k, w);
    assert m[k := v] - {k} == m - {k};
  }

  /** A map all of whose values weigh nothing has sum zero. */
  lemma {:induction false} SumMapZero<K, V>(m: map<K, V>, w: V -> nat)
    requires forall k :: k in m ==> w(m[k]) == 0
    ensures SumMap(m, w) == 0
    decreases |m|
  {
    if m != map[] {
      var k :| k in m;
      SumMapRemove(m, k, w);
      SumMapZero(m - {k}, w);
    }
  }

  /** A value in the map bounds the sum from below. */
  lemma SumMapAtLeast<K, V>(m: map<K, V>, k: K, w: V -> nat)
    requires k in m
    ensures w(m[k]) <= SumMap(m, w)
  {
    SumMapRemove(m, k, w);
  }

  /** Appending adds the weights. */
  lemma {:induction false} SumSeqAppend<V>(a: seq<V>, b: seq<V>, w: V -> nat)
    ensures SumSeq(a + b, w) == SumSeq(a, w) + SumSeq(b, w)
    decreases |b|
  {
    if b == [] {
      assert a + b == a;
    } else {
      var n := |b| - 1;
      SumSeqAppend(a, b[..n], w);
      assert (a + b)[..|a| + n] == a + b[..n];
    }
  }

  lemma SumSeqOne<V>(v: V, w: V -> nat)
    ensures SumSeq([v], w) == w(v)
  {
    assert [v][..0] == [];
    assert SumSeq([v], w) == SumSeq([v][..0], w) + w(v);
  }

  /** Taking one element out of a sequence takes its weight out of the sum. */
  lemma SumSeqRemove<V>(left: seq<V>, v: V, right: seq<V>, w: V -> nat)
    ensures SumSeq(left + [v] + right, w) == w(v) + SumSeq(left + right, w)
  {
    SumSeqAppend(left + [v], right, w);
    SumSeqAppend(left, [v], w);
    SumSeqAppend(left, right, w);
    SumSeqOne(v, w);
  }

  /** The sum over a sequence does not depend on its order. */
  lemma {:induction false} SumSeqPermutation<V>(a: seq<V>, b: seq<V>, w: V -> nat)
    requires multiset(a) == multiset(b)
    ensures SumSeq(a, w) == SumSeq(b, w)
    decreases |a|
  {
    if a == [] {
      assert |multiset(b)| == 0;
    } else {
      var a', x := a[..|a| - 1], a[|a| - 1];
      assert a == a' + [x];
      assert x in multiset(b);
      var j :| 0 <= j < |b| && b[j] == x;
      var left, right := b[..j], b[j + 1..];
      assert b == left + [x] + right;
      assert multiset(a') == multiset(left + right) by {
        assert multiset(a) - multiset{x} == multiset(a');
        assert multiset(left + right) == multiset(left) + multiset(right);
        assert multiset(b) - multiset{x} == multiset(left) + multiset(right);
      }
      SumSeqPermutation(a', left + right, w);
      SumSeqRemove(left, x, right, w);
    }
  }

  /** `entries` lists every key of `m` exactly once, with its value. */
  ghost predicate Enumerates<K, V>(entries: seq<(K, V)>, m: map<K, V>) {
    && |entries| == |m|
    && (forall i :: 0 <= i < |entries| ==> entries[i].0 in m && m[entries[i].0] == entries[i].1)
    && (forall i, j :: 0 <= i < j < |entries| ==> entries[i].0 != entries[j].0)
  }

  /** Summing along any enumeration of a map gives the sum over the map. */
  lemma {:induction false} SumEnumeration<K, V>(entries: seq<(K, V)>, m: map<K, V>, w: V -> nat, we: ((K, V)) -> nat)
    requires Enumerates(entries, m)
    requires forall e :: we(e) == w(e.1)
    ensures SumSeq(entries, we) == SumMap(m, w)
    decreases |entries|
  {
    if entries == [] {
      assert m == map[];
    } else {
      var n := |entries| - 1;
      var k := entries[n].0;
      SumMapRemove(m, k, w);
      assert |m - {k}| == n by {
        assert (m - {k}).Keys == m.Keys - {k};
        assert |m.Keys - {k}| == |m.Keys| - 1;
        assert |m - {k}| == |(m - {k}).Keys|;
      }
      SumEnumeration(entries[..n], m - {k}, w, we);
    }
  }
}
