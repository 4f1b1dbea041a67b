/** Facts about quotients and products of integers that the models rest on. */
module Division {
  lemma MulMono(x: int, y: int, z: int)
    requires x <= y && 0 <= z
    ensures x * z <= y * z
  {
    assert 0 <= (y - x) * z;
  }

  lemma Distribute(x: int, y: int, z: int)
    ensures (x + y) * z == x * z + y * z
  {
  }

  lemma Euclid(n: int, d: int)
    requires d > 0
    ensures n == n / d * d + n % d && 0 <= n % d < d
  {
  }

  lemma DivUnique(n: int, d: int, q: int, r: int)
    requires d > 0 && n == q * d + r && 0 <= r < d
    ensures n / d == q && n % d == r
  {
    Euclid(n, d);
    var k := n / d - q;
    assert k * d == r - n % d by {
      assert (n / d - q) * d == n / d * d - q * d;
    }
    if k >= 1 {
      MulMono(1, k, d);
    } else if k <= -1 {
      MulMono(k, -1, d);
    }
  }

  /** q <= n / d exactly when q whole divisors fit into n. */
  lemma DivAtLeast(n: int, d: int, q: int)
    requires d > 0
    ensures q <= n / d <==> q * d <= n
  {
    Euclid(n, d);
    if q <= n / d {
      MulMono(q, n / d, d);
    } else {
      MulMono(n / d + 1, q, d);
      assert (n / d + 1) * d == n / d * d + d;
    }
  }

  lemma DivShift(n: int, d: int, k: int)
    requires d > 0
    ensures (n + k * d) / d == n / d + k && (n + k * d) % d == n % d
  {
    Euclid(n, d);
    assert n + k * d == (n / d + k) * d + n % d by {
      assert (n / d + k) * d == n / d * d + k * d;
    }
    DivUnique(n + k * d, d, n / d + k, n % d);
  }

  lemma DivMono(n: int, m: int, d: int)
    requires d > 0 && n <= m
    ensures n / d <= m / d
  {
    DivAtLeast(n, d, n / d);
    DivAtLeast(m, d, n / d);
  }

  /** The quotient rounded up. */
  function CeilDiv(n: int, d: int): int
    requires d > 0
  {
    n / d + if n % d == 0 then 0 else 1
  }

  lemma CeilBounds(n: int, d: int)
    requires d > 0
    ensures (CeilDiv(n, d) - 1) * d < n <= CeilDiv(n, d) * d
    ensures 0 <= CeilDiv(n, d) - n / d <= 1
  {
    Euclid(n, d);
    Distribute(n / d, 1, d);
    Distribute(n / d, -1, d);
  }

  /** A rounded-up quotient is within a bound exactly when the dividend is within that many divisors. */
  lemma CeilIsLeast(n: int, d: int, q: int)
    requires d > 0
    ensures CeilDiv(n, d) <= q <==> n <= q * d
  {
    CeilBounds(n, d);
    hide CeilDiv;
    if CeilDiv(n, d) <= q {
      MulMono(CeilDiv(n, d), q, d);
    } else {
      MulMono(q, CeilDiv(n, d) - 1, d);
    }
  }

  lemma CeilAntitone(n: int, d: int, e: int)
    requires 0 <= n && 0 < d <= e
    ensures CeilDiv(n, e) <= CeilDiv(n, d)
  {
    hide CeilDiv;
    CeilBounds(n, d);
    CeilIsLeast(n, e, CeilDiv(n, d));
    if CeilDiv(n, d) < 0 {
      MulMono(CeilDiv(n, d), 0, d);
      CeilIsLeast(n, d, -1);
    } else {
      MulMono(d, e, CeilDiv(n, d));
    }
  }

  lemma CeilForm(n: int, d: int)
    requires d > 0
    ensures CeilDiv(n, d) == (n + d - 1) / d
  {
    Euclid(n, d);
    if n % d == 0 {
      DivUnique(n + d - 1, d, n / d, d - 1);
    } else {
      Distribute(n / d, 1, d);
      DivUnique(n + d - 1, d, n / d + 1, n % d - 1);
    }
  }

  /** Rounding up what is left of k divisors is keeping the rounded-down rest. */
  lemma CeilOfRest(k: int, p: int, d: int)
    requires d > 0
    ensures CeilDiv(k * d - p, d) == k - p / d
  {
    Euclid(p, d);
    Distribute(k, -(p / d), d);
    if p % d == 0 {
      DivUnique(k * d - p, d, k - p / d, 0);
    } else {
      Distribute(k - p / d, -1, d);
      DivUnique(k * d - p, d, k - p / d - 1, d - p % d);
    }
  }
}
