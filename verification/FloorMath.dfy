/** Products and floor divisions of naturals, each fact stated once and kept out of larger proofs. */
module FloorMath {

  lemma ProductBound(a: nat, b: nat, m: nat, n: nat)
    requires a <= m && b <= n
    ensures a * b <= m * n
  {
    assert a * b <= m * b;
    assert m * b <= m * n;
  }

  /** Floor division, pinned between the two products that characterise it. */
  lemma FloorDivision(n: nat, d: nat)
    requires d > 0
    ensures n / d * d <= n < (n / d + 1) * d
  {
    assert (n / d + 1) * d == n / d * d + d;
  }

  /** A quotient is at most q exactly when the dividend is below (q + 1) divisors. */
  lemma FloorAtMost(n: nat, d: nat, q: nat)
    requires d > 0
    ensures n / d <= q <==> n < (q + 1) * d
  {
    FloorDivision(n, d);
    if n / d <= q {
      ProductBound(n / d + 1, d, q + 1, d);
    } else {
      ProductBound(q + 1, d, n / d, d);
    }
  }

  /** A quotient is at least q exactly when q divisors fit in the dividend. */
  lemma FloorAtLeast(n: nat, d: nat, q: nat)
    requires d > 0
    ensures q <= n / d <==> q * d <= n
  {
    FloorDivision(n, d);
    if q <= n / d {
      ProductBound(q, d, n / d, d);
    } else {
      ProductBound(n / d + 1, d, q, d);
    }
  }

  lemma FloorGrows(n: nat, m: nat, d: nat)
    requires n <= m && d > 0
    ensures n / d <= m / d
  {
    var q := n / d;
    FloorAtLeast(n, d, q);
    FloorAtLeast(m, d, q);
  }

  lemma FloorsOverlap(a: nat, b: nat, d: nat, p: nat, q: nat)
    requires p * d <= a < (p + 1) * d && q * d <= b < (q + 1) * d
    ensures (p + q) * d <= a + b < (p + q + 1 + 1) * d
  {
    assert (p + q) * d == p * d + q * d;
    assert (p + q + 1 + 1) * d == (p + 1) * d + (q + 1) * d;
  }

  /** A floor of a sum is the sum of the floors, or one more. */
  lemma FloorOfSum(a: nat, b: nat, d: nat)
    requires d > 0
    ensures a / d + b / d <= (a + b) / d <= a / d + b / d + 1
  {
    var p, q := a / d, b / d;
    FloorDivision(a, d);
    FloorDivision(b, d);
    FloorsOverlap(a, b, d, p, q);
    FloorAtLeast(a + b, d, p + q);
    FloorAtMost(a + b, d, p + q + 1);
  }

  /** Adding to a dividend leaves the quotient exactly when the remainder still takes it. */
  lemma FloorGrowsExactly(total: nat, n: nat, more: nat, d: nat)
    requires d > 0 && total == n + more
    ensures total / d <= n / d <==> n % d + more < d
  {
    var q := n / d;
    FloorAtMost(total, d, q);
    assert n == q * d + n % d;
    assert (q + 1) * d == q * d + d;
  }

  /** A total of two parts has the quotients of both, give or take one. */
  lemma FloorOfParts(total: nat, n: nat, more: nat, d: nat)
    requires d > 0 && total == n + more
    ensures n / d + more / d <= total / d <= n / d + more / d + 1
  {
    FloorOfSum(n, more, d);
  }

  /** A number written as q divisors and a smaller rest has that quotient and that remainder. */
  lemma UniqueRemainder(n: nat, d: nat, q: nat, rest: nat)
    requires rest < d && n == q * d + rest
    ensures n / d == q && n % d == rest
  {
    assert (q + 1) * d == q * d + d;
    FloorAtLeast(n, d, q);
    FloorAtMost(n, d, q);
  }
}
