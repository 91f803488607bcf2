/** Sums of multisets over the entries of a map: the bookkeeping behind every conservation law. */
module Sums {
  import opened Bytes

  ghost function AddUp<K, T>(m: map<K, multiset<T>>): (g: multiset<T>)
    decreases |m|
  {
    if m == map[] then multiset{}
    else
      var k :| k in m;
      m[k] + AddUp(m - {k})
  }

  /** g is the sum of all entries. Kept folded: only the lemmas of this module look inside. */
  ghost predicate IsSum<K, T>(m: map<K, multiset<T>>, g: multiset<T>) {
    forall k: nat {:trigger Look(Totals, k)} :: Look(Totals, k) ==> g == AddUp(m)
  }

  /** The sum of all entries. */
  ghost function Gather<K, T>(m: map<K, multiset<T>>): (g: multiset<T>)
    ensures IsSum(m, g)
  {
    assert IsSum(m, AddUp(m));
    var g :| IsSum(m, g);
    g
  }

  lemma {:induction false} AddUpSplit<K, T>(m: map<K, multiset<T>>, k: K)
    requires k in m
    ensures AddUp(m) == m[k] + AddUp(m - {k})
    decreases |m|
  {
    var j :| j in m && AddUp(m) == m[j] + AddUp(m - {j});
    if j != k {
      AddUpSplit(m - {j}, k);
      AddUpSplit(m - {k}, j);
      assert m - {j} - {k} == m - {k} - {j};
    }
  }

  lemma GatherIs<K, T>(m: map<K, multiset<T>>)
    ensures Gather(m) == AddUp(m)
  {
    assert Look(Totals, 0);
  }

  lemma GatherNone<K, T>(m: map<K, multiset<T>>)
    requires m == map[]
    ensures Gather(m) == multiset{}
  {
    GatherIs(m);
  }

  /** Any entry can be split off first. */
  lemma GatherSplit<K, T>(m: map<K, multiset<T>>, k: K)
    requires k in m
    ensures Gather(m) == m[k] + Gather(m - {k})
  {
    GatherIs(m);
    GatherIs(m - {k});
    AddUpSplit(m, k);
  }

  /** Replacing one entry changes the sum by the difference of the two values. */
  lemma GatherUpdate<K, T>(m: map<K, multiset<T>>, k: K, v: multiset<T>)
    ensures Gather(m[k := v]) + (if k in m then m[k] else multiset{}) == Gather(m) + v
  {
    GatherSplit(m[k := v], k);
    if k in m {
      GatherSplit(m, k);
      assert m[k := v] - {k} == m - {k};
    } else {
      assert m[k := v] - {k} == m;
    }
  }

  /** The same, entry by entry of the sum. */
  lemma GatherUpdateAt<K, T>(m: map<K, multiset<T>>, m': map<K, multiset<T>>, k: K, x: T)
    requires k in m && k in m' && m' == m[k := m'[k]]
    ensures Gather(m')[x] + m[k][x] == Gather(m)[x] + m'[k][x]
  {
    GatherUpdate(m, k, m'[k]);
    assert (Gather(m') + m[k])[x] == (Gather(m) + m'[k])[x];
  }

  lemma GatherRemove<K, T>(m: map<K, multiset<T>>, k: K)
    requires k in m
    ensures Gather(m - {k}) + m[k] == Gather(m)
  {
    GatherSplit(m, k);
  }

  lemma GatherHas<K, T>(m: map<K, multiset<T>>, k: K, x: T)
    requires k in m
    ensures m[k][x] <= Gather(m)[x]
  {
    GatherSplit(m, k);
  }

  lemma {:induction false} GatherFind<K, T>(m: map<K, multiset<T>>, x: T) returns (k: K)
    requires Gather(m)[x] > 0
    ensures k in m && m[k][x] > 0
    decreases |m|
  {
    if m == map[] {
      GatherNone(m);
      assert false;
    }
    k :| k in m;
    GatherSplit(m, k);
    if m[k][x] == 0 {
      k := GatherFind(m - {k}, x);
    }
  }
}
