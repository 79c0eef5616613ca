/** Sums over the rows of a finite map. */
module Sums {
  ghost function SumMap<K, V>(m: map<K, V>, f: (K, V) -> int): int {
    if m == map[] then 0 else var k :| k in m; f(k, m[k]) + SumMap(m - {k}, f)
  }

  /** Any row can be taken out first. */
  lemma {:induction false} SumSplit<K, V>(m: map<K, V>, f: (K, V) -> int, k: K)
    requires k in m
    ensures SumMap(m, f) == f(k, m[k]) + SumMap(m - {k}, f)
    decreases |m|
  {
    var i :| i in m && SumMap(m, f) == f(i, m[i]) + SumMap(m - {i}, f);
    if i != k {
      SumSplit(m - {i}, f, k);
      SumSplit(m - {k}, f, i);
      assert m - {k} - {i} == m - {i} - {k};
    }
  }

  lemma SumPut<K, V>(m: map<K, V>, f: (K, V) -> int, k: K, v: V)
    ensures SumMap(m[k := v], f) + (if k in m then f(k, m[k]) else 0) == SumMap(m, f) + f(k, v)
  {
    hide SumMap;
    var n := m[k := v];
    SumSplit(n, f, k);
    if k in m {
      SumSplit(m, f, k);
      assert n - {k} == m - {k};
    } else {
      assert n - {k} == m;
    }
  }

  lemma {:induction false} SumNotNegative<K, V>(m: map<K, V>, f: (K, V) -> int)
    requires forall k :: k in m ==> f(k, m[k]) >= 0
    ensures SumMap(m, f) >= 0
    decreases |m|
  {
    if m != map[] {
      var k :| k in m && SumMap(m, f) == f(k, m[k]) + SumMap(m - {k}, f);
      SumNotNegative(m - {k}, f);
    }
  }

  /** What a key contributes. */
  function At<K, V>(m: map<K, V>, f: (K, V) -> int, k: K): int { if k in m then f(k, m[k]) else 0 }

  /** Maps in which every key contributes the same have the same sum. */
  lemma {:induction false} SumAgree<K, V, W>(m: map<K, V>, t: map<K, W>, f: (K, V) -> int, g: (K, W) -> int)
    requires forall k :: k in m || k in t ==> At(m, f, k) == At(t, g, k)
    ensures SumMap(m, f) == SumMap(t, g)
    decreases |m| + |t|
  {
    hide SumMap;
    if k :| k in m {
      SumSplit(m, f, k);
      if k in t { SumSplit(t, g, k); }
      var rest := if k in t then t - {k} else t;
      forall i | i in m - {k} || i in rest ensures At(m - {k}, f, i) == At(rest, g, i) {
        assert i in m || i in t;
      }
      SumAgree(m - {k}, rest, f, g);
    } else if k :| k in t {
      SumSplit(t, g, k);
      forall i | i in m || i in t - {k} ensures At(m, f, i) == At(t - {k}, g, i) { assert i in t; }
      SumAgree(m, t - {k}, f, g);
    } else {
      NoRows(m, f);
      NoRows(t, g);
    }
  }

  lemma NoRows<K, V>(m: map<K, V>, f: (K, V) -> int)
    requires forall k :: k !in m
    ensures SumMap(m, f) == 0
  {
    assert m == map[];
  }
}
