/** Sums of natural-valued maps: byte counts per cache entry, reservations per task, statistics per domain. */
module MapSum {

  ghost function Sum<K>(m: map<K, nat>): nat
  {
    if m == map[] then 0 else
      var k :| k in m;
      m[k] + Sum(m - {k})
  }

  /** The value at `k`, with absent keys counting for nothing. */
  function At<K>(m: map<K, nat>, k: K): nat {
    if k in m then m[k] else 0
  }

  /** The sum does not depend on which key is taken out first. */
  lemma {:induction false} SumRemove<K>(m: map<K, nat>, k: K)
    ensures Sum(m) == At(m, k) + Sum(m - {k})
    decreases |m|
  {
    if k !in m {
      assert m - {k} == m;
    } else {
      var c :| c in m && Sum(m) == m[c] + Sum(m - {c});
      if c != k {
        SumRemove(m - {c}, k);
        SumRemove(m - {k}, c);
        assert m - {c} - {k} == m - {k} - {c};
      }
    }
  }

  lemma SumUpdate<K>(m: map<K, nat>, k: K, v: nat)
    ensures Sum(m[k := v]) + At(m, k) == Sum(m) + v
  {
    SumRemove(m, k);
    SumRemove(m[k := v], k);
    assert m[k := v] - {k} == m - {k};
  }

  /** Splitting a map by a set of keys splits its sum. */
  lemma {:induction false} SumSplit<K>(m: map<K, nat>, ks: set<K>)
    ensures Sum(m) == Sum(m - ks) + Sum(map k | k in m && k in ks :: m[k])
    decreases |m|
  {
    var inside := map k | k in m && k in ks :: m[k];
    if m != map[] {
      var c :| c in m;
      SumRemove(m, c);
      SumSplit(m - {c}, ks);
      var inside' := map k | k in m - {c} && k in ks :: (m - {c})[k];
      if c in ks {
        SumRemove(inside, c);
        assert inside - {c} == inside';
        assert m - {c} - ks == m - ks;
      } else {
        SumRemove(m - ks, c);
        assert (m - ks) - {c} == m - {c} - ks;
        assert inside == inside';
      }
    }
  }
}
