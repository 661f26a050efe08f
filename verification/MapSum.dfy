/** The sum of a finite map's values: bytes on disk, bytes in a cache. */
module MapSum {

  ghost function Sum<K(!new)>(m: map<K, nat>): nat
    decreases |m|
  {
    if m == map[] then 0
    else
      var k :| k in m;
      assert |m - {k}| < |m| by { assert (m - {k}).Keys == m.Keys - {k}; }
      m[k] + Sum(m - {k})
  }

  function Only<K, V>(m: map<K, V>, ks: set<K>): map<K, V> {
    map k | k in m && k in ks :: m[k]
  }

  lemma {:induction false} SumRemove<K(!new)>(m: map<K, nat>, k: K)
    requires k in m
    ensures Sum(m) == m[k] + Sum(m - {k})
    decreases |m|
  {
    var j :| j in m && Sum(m) == m[j] + Sum(m - {j});
    if k != j {
      assert (m - {j}).Keys == m.Keys - {j};
      assert (m - {k}).Keys == m.Keys - {k};
      SumRemove(m - {j}, k);
      SumRemove(m - {k}, j);
      assert m - {k} - {j} == m - {j} - {k};
    }
  }

  lemma SumAdd<K(!new)>(m: map<K, nat>, k: K, n: nat)
    requires k !in m
    ensures Sum(m[k := n]) == n + Sum(m)
  {
    SumRemove(m[k := n], k);
    assert m[k := n] - {k} == m;
  }

  lemma {:induction false} SumSplit<K(!new)>(m: map<K, nat>, ks: set<K>)
    ensures Sum(m) == Sum(m - ks) + Sum(Only(m, ks))
    decreases |m|
  {
    if m == map[] {
      assert m - ks == map[] && Only(m, ks) == map[];
    } else {
      var k :| k in m;
      var rest := m - {k};
      assert rest.Keys == m.Keys - {k};
      SumRemove(m, k);
      SumSplit(rest, ks);
      SumPart(m, ks, k);
    }
  }

  /** A key counts on exactly one side of a split. */
  lemma SumPart<K(!new)>(m: map<K, nat>, ks: set<K>, k: K)
    requires k in m
    ensures Sum(m - ks) + Sum(Only(m, ks)) == m[k] + Sum(m - {k} - ks) + Sum(Only(m - {k}, ks))
  {
    var rest := m - {k};
    if k in ks {
      SumRemove(Only(m, ks), k);
      assert Only(m, ks) - {k} == Only(rest, ks);
      assert m - ks == rest - ks;
    } else {
      SumRemove(m - ks, k);
      assert (m - ks) - {k} == rest - ks;
      assert Only(m, ks) == Only(rest, ks);
    }
  }
}
