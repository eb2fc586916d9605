/** Sums of integer-valued finite maps over a set of keys. */
module Sums {
  ghost function SumOn<K>(m: map<K, int>, keys: set<K>): int
    decreases keys
  {
    if keys == {} then 0 else
    var k :| k in keys;
    (if k in m then m[k] else 0) + SumOn(m, keys - {k})
  }

  ghost function At<K>(m: map<K, int>, k: K): int {
    if k in m then m[k] else 0
  }

  ghost function Total<K>(m: map<K, int>): int {
    SumOn(m, m.Keys)
  }

  /** Any key may be split off first. */
  lemma {:induction false} SumSplit<K>(m: map<K, int>, keys: set<K>, k: K)
    requires k in keys
    ensures SumOn(m, keys) == At(m, k) + SumOn(m, keys - {k})
    decreases keys
  {
    var j :| j in keys && SumOn(m, keys) == At(m, j) + SumOn(m, keys - {j});
    if j != k {
      SumSplit(m, keys - {j}, k);
      SumSplit(m, keys - {k}, j);
      assert keys - {j} - {k} == keys - {k} - {j};
    }
  }

  lemma SumOfOne<K>(m: map<K, int>, k: K)
    ensures SumOn(m, {k}) == At(m, k)
  {
    SumSplit(m, {k}, k);
    assert {k} - {k} == {};
  }

  lemma {:induction false} SumFrame<K>(m: map<K, int>, n: map<K, int>, keys: set<K>)
    requires forall k :: k in keys ==> At(m, k) == At(n, k)
    ensures SumOn(m, keys) == SumOn(n, keys)
    decreases keys
  {
    if keys != {} {
      var k :| k in keys;
      SumSplit(m, keys, k);
      SumSplit(n, keys, k);
      SumFrame(m, n, keys - {k});
    }
  }

  /** Writing one key changes the sum by the change at that key. */
  lemma SumUpdate<K>(m: map<K, int>, keys: set<K>, k: K, v: int)
    ensures SumOn(m[k := v], keys) == SumOn(m, keys) + if k in keys then v - At(m, k) else 0
  {
    if k in keys {
      SumSplit(m, keys, k);
      SumSplit(m[k := v], keys, k);
      SumFrame(m, m[k := v], keys - {k});
    } else {
      SumFrame(m, m[k := v], keys);
    }
  }

  /** Keys outside the map do not count. */
  lemma {:induction false} SumSupport<K>(m: map<K, int>, keys: set<K>)
    requires m.Keys <= keys
    ensures SumOn(m, keys) == Total(m)
    decreases keys
  {
    if k :| k in keys && k !in m {
      SumSplit(m, keys, k);
      SumSupport(m, keys - {k});
    } else {
      assert keys == m.Keys;
    }
  }

  lemma {:induction false} SumAtLeast<K>(m: map<K, int>, keys: set<K>, a: K, b: K)
    requires forall k :: k in keys ==> At(m, k) >= 0
    requires a in keys && b in keys && a != b
    ensures SumOn(m, keys) >= At(m, a) + At(m, b)
  {
    SumSplit(m, keys, a);
    SumSplit(m, keys - {a}, b);
    SumNonNegative(m, keys - {a} - {b});
  }

  lemma {:induction false} SumNonNegative<K>(m: map<K, int>, keys: set<K>)
    requires forall k :: k in keys ==> At(m, k) >= 0
    ensures SumOn(m, keys) >= 0
    decreases keys
  {
    if keys != {} {
      var k :| k in keys;
      SumSplit(m, keys, k);
      SumNonNegative(m, keys - {k});
    }
  }
}
