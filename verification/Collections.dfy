/**
 Finite maps and ordered access to finite sets of ledger sequences, for the queries' deletes, ORDER BY
 and Math.min/max.
 */
module Collections {
  /** The map without one key. */
  function Without<K(==), V>(m: map<K, V>, k: K): map<K, V> {
    map q | q in m && q != k :: m[q]
  }

  predicate IsLeast(keys: set<int>, m: int) {
    m in keys && forall q :: q in keys ==> m <= q
  }

  predicate IsGreatest(keys: set<int>, m: int) {
    m in keys && forall q :: q in keys ==> q <= m
  }

  lemma {:induction false} LeastExists(keys: set<int>)
    requires keys != {}
    ensures exists m :: IsLeast(keys, m)
  {
    assert (forall k: int :: k !in keys) ==> keys == {};
    var k: int :| k in keys;
    if keys == {k} {
      assert IsLeast(keys, k);
    } else {
      LeastExists(keys - {k});
      var m :| IsLeast(keys - {k}, m);
      assert keys == {k} + (keys - {k});
      assert IsLeast(keys, if k < m then k else m);
    }
  }

  lemma {:induction false} GreatestExists(keys: set<int>)
    requires keys != {}
    ensures exists m :: IsGreatest(keys, m)
  {
    assert (forall k: int :: k !in keys) ==> keys == {};
    var k: int :| k in keys;
    if keys == {k} {
      assert IsGreatest(keys, k);
    } else {
      GreatestExists(keys - {k});
      var m :| IsGreatest(keys - {k}, m);
      assert keys == {k} + (keys - {k});
      assert IsGreatest(keys, if k > m then k else m);
    }
  }

  function Least(keys: set<int>): (m: int)
    requires keys != {}
    ensures IsLeast(keys, m)
  {
    LeastExists(keys);
    var m :| IsLeast(keys, m);
    m
  }

  function Greatest(keys: set<int>): (m: int)
    requires keys != {}
    ensures IsGreatest(keys, m)
  {
    GreatestExists(keys);
    var m :| IsGreatest(keys, m);
    m
  }

  /** The keys in ascending order. */
  function AscendingKeys(keys: set<int>): (s: seq<int>)
    ensures forall q :: q in s <==> q in keys
    ensures forall i, j :: 0 <= i < j < |s| ==> s[i] < s[j]
    decreases |keys|
  {
    if keys == {} then []
    else
      var m := Least(keys);
      [m] + AscendingKeys(keys - {m})
  }
}
