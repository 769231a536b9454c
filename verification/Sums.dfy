/** Sums over finite maps, for conservation statements. */
module Sums {
  import opened Collections

  ghost function Sum<T(!new)>(m: map<T, int>): int {
    if m == map[] then 0
    else
      var k :| k in m;
      m[k] + Sum(Without(m, k))
  }

  ghost function At<T(!new)>(m: map<T, int>, k: T): int {
    if k in m then m[k] else 0
  }

  lemma {:induction false} SumRemove<T(!new)>(m: map<T, int>, k: T)
    requires k in m
    ensures Sum(m) == m[k] + Sum(Without(m, k))
  {
    var c :| c in m && Sum(m) == m[c] + Sum(Without(m, c));
    if c != k {
      SumRemove(Without(m, c), k);
      SumRemove(Without(m, k), c);
      assert Without(Without(m, c), k) == Without(Without(m, k), c);
    }
  }

  /** Setting one entry moves the sum by the difference. */
  lemma SumUpdate<T(!new)>(m: map<T, int>, k: T, v: int)
    ensures Sum(m[k := v]) == Sum(m) - At(m, k) + v
  {
    SumRemove(m[k := v], k);
    if k in m {
      SumRemove(m, k);
      assert Without(m[k := v], k) == Without(m, k);
    } else {
      assert Without(m[k := v], k) == m;
    }
  }

  lemma SomeKey<T(!new)>(m: map<T, int>) returns (k: T)
    requires m != map[]
    ensures k in m
  {
    k :| k in m;
  }

  /** Zero entries do not matter. */
  lemma {:induction false} SumExtensional<T(!new)>(m: map<T, int>, n: map<T, int>)
    requires forall k :: At(m, k) == At(n, k)
    ensures Sum(m) == Sum(n)
    decreases m.Keys + n.Keys
  {
    if m != map[] || n != map[] {
      var k :| k in m || k in n;
      SumDrop(m, k);
      SumDrop(n, k);
      assert At(m, k) == At(n, k);
      forall j ensures At(Without(m, k), j) == At(Without(n, k), j) {
        assert At(m, j) == At(n, j);
      }
      SumExtensional(Without(m, k), Without(n, k));
    }
  }

  lemma SumDrop<T(!new)>(m: map<T, int>, k: T)
    ensures Sum(m) == At(m, k) + Sum(Without(m, k))
  {
    if k in m {
      SumRemove(m, k);
    } else {
      assert Without(m, k) == m;
    }
  }

  lemma WithoutMerged<T(!new)>(m: map<T, int>, n: map<T, int>, k: T)
    requires k in n && k !in m
    ensures Without(m + n, k) == m + Without(n, k) && (m + n)[k] == n[k]
    ensures Without(n, k).Keys < n.Keys
  {
    assert Without(n, k).Keys == n.Keys - {k};
  }

  /** The sum of two maps without a common key. */
  lemma {:induction false} SumMerged<T(!new)>(m: map<T, int>, n: map<T, int>)
    requires forall k :: k in n ==> k !in m
    ensures Sum(m + n) == Sum(m) + Sum(n)
    decreases n.Keys
  {
    if n == map[] {
      assert m + n == m;
    } else {
      var k := SomeKey(n);
      WithoutMerged(m, n, k);
      SumMerged(m, Without(n, k));
      SumRemove(n, k);
      SumRemove(m + n, k);
    }
  }
}
