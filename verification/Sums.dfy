/** Finite sums over maps: the bookkeeping behind "what the ledger says is spent". */
module Sums {

  ghost function Sum<K>(m: map<K, int>): int
    decreases |m|
  {
    if m == map[] then 0
    else
      var k :| k in m;
      assert |m - {k}| == |m| - 1 by { assert (m - {k}).Keys == m.Keys - {k}; }
      m[k] + Sum(m - {k})
  }

  /** The order in which entries are added does not matter: any key may go first. */
  lemma {:induction false} SumRemove<K>(m: map<K, int>, k: K)
    requires k in m
    ensures Sum(m) == m[k] + Sum(m - {k})
    decreases |m|
  {
    var c :| c in m && Sum(m) == m[c] + Sum(m - {c});
    assert |m - {c}| == |m| - 1 by { assert (m - {c}).Keys == m.Keys - {c}; }
    assert |m - {k}| == |m| - 1 by { assert (m - {k}).Keys == m.Keys - {k}; }
    if c != k {
      SumRemove(m - {c}, k);
      SumRemove(m - {k}, c);
      assert m - {c} - {k} == m - {k} - {c};
    }
  }

  /** Changing or adding one entry moves the sum by exactly that entry's change. */
  lemma SumUpdate<K>(m: map<K, int>, k: K, v: int)
    ensures Sum(m[k := v]) == Sum(m) - (if k in m then m[k] else 0) + v
  {
    var n := m[k := v];
    SumRemove(n, k);
    assert n - {k} == m - {k};
    if k in m { SumRemove(m, k); } else { assert m - {k} == m; }
  }

  lemma {:induction false} SumZero<K>(m: map<K, int>)
    requires forall k :: k in m ==> m[k] == 0
    ensures Sum(m) == 0
    decreases |m|
  {
    if m != map[] {
      var k :| k in m && Sum(m) == m[k] + Sum(m - {k});
      assert |m - {k}| == |m| - 1 by { assert (m - {k}).Keys == m.Keys - {k}; }
      SumZero(m - {k});
    }
  }

  /** Sums are additive and monotone in the entries. */
  lemma {:induction false} SumAdd<K>(m: map<K, int>, a: map<K, int>, b: map<K, int>)
    requires m.Keys == a.Keys == b.Keys
    requires forall k :: k in m ==> m[k] == a[k] + b[k]
    ensures Sum(m) == Sum(a) + Sum(b)
    decreases |m|
  {
    if m == map[] {
      assert a == map[] && b == map[];
    } else {
      var k :| k in m && Sum(m) == m[k] + Sum(m - {k});
      assert |m - {k}| == |m| - 1 by { assert (m - {k}).Keys == m.Keys - {k}; }
      SumRemove(a, k);
      SumRemove(b, k);
      SumAdd(m - {k}, a - {k}, b - {k});
    }
  }

  lemma {:induction false} SumNonNegative<K>(m: map<K, int>)
    requires forall k :: k in m ==> 0 <= m[k]
    ensures 0 <= Sum(m)
    ensures Sum(m) == 0 ==> forall k :: k in m ==> m[k] == 0
    decreases |m|
  {
    if m != map[] {
      var k :| k in m && Sum(m) == m[k] + Sum(m - {k});
      assert |m - {k}| == |m| - 1 by { assert (m - {k}).Keys == m.Keys - {k}; }
      SumNonNegative(m - {k});
      forall j | j in m && j != k ensures Sum(m) == 0 ==> m[j] == 0 { assert j in m - {k}; }
    }
  }

  lemma SumAtLeast<K>(m: map<K, int>, k: K)
    requires k in m && forall j :: j in m ==> 0 <= m[j]
    ensures m[k] <= Sum(m)
  {
    SumRemove(m, k);
    SumNonNegative(m - {k});
  }
}
