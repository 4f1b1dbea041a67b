/** Sums over finite maps, independent of the order in which the keys are visited. */
module MapSums {
  import opened Division

  ghost function Pick<K(!new)>(m: map<K, int>): (k: K)
    requires m != map[]
    ensures k in m
  {
    var k :| k in m;
    k
  }

  ghost function Sum<K(!new)>(m: map<K, int>): int
    decreases |m|
  {
    if m == map[] then 0 else m[Pick(m)] + Sum(m - {Pick(m)})
  }

  lemma SmallerWithout<K(!new)>(m: map<K, int>, k: K)
    requires k in m
    ensures |m - {k}| < |m|
  {
    assert (m - {k}).Keys == m.Keys - {k};
  }

  lemma {:induction false} SumSplit<K(!new)>(m: map<K, int>, k: K)
    requires k in m
    ensures Sum(m) == m[k] + Sum(m - {k})
    decreases |m|
  {
    var j := Pick(m);
    if j != k {
      SmallerWithout(m, j);
      SmallerWithout(m, k);
      SumSplit(m - {j}, k);
      SumSplit(m - {k}, j);
      assert m - {j} - {k} == m - {k} - {j};
    }
  }

  lemma SumUpdate<K(!new)>(m: map<K, int>, k: K, v: int)
    ensures Sum(m[k := v]) == Sum(m) - (if k in m then m[k] else 0) + v
  {
    SumSplit(m[k := v], k);
    assert m[k := v] - {k} == m - {k};
    if k in m {
      SumSplit(m, k);
    } else {
      assert m - {k} == m;
    }
  }

  lemma {:induction false} SumAdd<K(!new)>(m: map<K, int>, f: map<K, int>, g: map<K, int>)
    requires m.Keys == f.Keys == g.Keys
    requires forall k :: k in m ==> m[k] == f[k] + g[k]
    ensures Sum(m) == Sum(f) + Sum(g)
    decreases |m|
  {
    if m == map[] {
      assert f == map[] && g == map[];
    } else {
      var k := Pick(m);
      SumSplit(f, k);
      SumSplit(g, k);
      SmallerWithout(m, k);
      SumAdd(m - {k}, f - {k}, g - {k});
    }
  }

  ghost function Multiplied<K>(g: map<K, int>, q: int): map<K, int> {
    map k | k in g :: g[k] * q
  }

  lemma {:induction false} SumScale<K(!new)>(g: map<K, int>, q: int)
    ensures Sum(Multiplied(g, q)) == Sum(g) * q
    decreases |g|
  {
    if g == map[] {
      assert Multiplied(g, q) == map[];
    } else {
      var k := Pick(g);
      assert Multiplied(g, q) - {k} == Multiplied(g - {k}, q);
      calc {
        Sum(Multiplied(g, q));
        { SumSplit(Multiplied(g, q), k); }
        g[k] * q + Sum(Multiplied(g - {k}, q));
        { SmallerWithout(g, k); SumScale(g - {k}, q); }
        g[k] * q + Sum(g - {k}) * q;
        { Distribute(g[k], Sum(g - {k}), q); }
        (g[k] + Sum(g - {k})) * q;
        Sum(g) * q;
      }
    }
  }

  lemma {:induction false} SumDominates<K(!new)>(m: map<K, int>)
    requires forall k :: k in m ==> 0 <= m[k]
    ensures 0 <= Sum(m)
    ensures forall k :: k in m ==> m[k] <= Sum(m)
    decreases |m|
  {
    if m != map[] {
      forall k | k in m
        ensures 0 <= m[k] <= Sum(m)
      {
        SumSplit(m, k);
        SmallerWithout(m, k);
        SumDominates(m - {k});
      }
      assert 0 <= m[Pick(m)] <= Sum(m);
    }
  }

  lemma {:induction false} SumOfPart<K(!new)>(m: map<K, int>, rest: set<K>)
    requires forall k :: k in m ==> 0 <= m[k]
    ensures Sum(m - rest) <= Sum(m)
    decreases |m|
  {
    if m - rest != m {
      var k :| k in m && k in rest;
      SumSplit(m, k);
      SmallerWithout(m, k);
      SumOfPart(m - {k}, rest);
      assert m - {k} - rest == m - rest;
    }
  }

  /** Keys with nothing under them do not matter. */
  lemma {:induction false} SumIgnoresZeros<K(!new)>(m: map<K, int>, keys: set<K>)
    requires forall k :: k in m && k !in keys ==> m[k] == 0
    ensures Sum(m) == Sum(map k | k in m && k in keys :: m[k])
    decreases |m|
  {
    var kept := map k | k in m && k in keys :: m[k];
    if m.Keys <= keys {
      assert kept == m;
    } else {
      var k :| k in m && k !in keys;
      SumSplit(m, k);
      SmallerWithout(m, k);
      SumIgnoresZeros(m - {k}, keys);
      assert (map j | j in m - {k} && j in keys :: (m - {k})[j]) == kept;
    }
  }
}
