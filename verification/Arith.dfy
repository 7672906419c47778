/** Facts about products, quotients and remainders that the other modules share. */
module Arith {

  lemma MulMonotone(a: int, b: int, m: nat)
    ensures a <= b ==> a * m <= b * m
  {
  }

  lemma DivModOf(q: int, r: nat, m: nat)
    requires r < m
    ensures (q * m + r) / m == q && (q * m + r) % m == r
  {
    var n := q * m + r;
    assert n == (n / m) * m + n % m;
    MulMonotone(n / m + 1, q, m);
    MulMonotone(q + 1, n / m, m);
  }

  lemma QuotientBound(k: nat, n: nat, m: nat)
    requires m > 0 && k < n * m
    ensures k / m < n
  {
    MulMonotone(n, k / m, m);
  }

  lemma RowBound(q: nat, r: nat, n: nat, m: nat)
    requires q < n && r < m
    ensures q * m + r < n * m
  {
    assert (q + 1) * m <= n * m;
  }

  /** Whole multiples of the modulus do not change a remainder. */
  lemma ModStep(a: int, q: int, m: nat)
    requires m > 0
    ensures (a + q * m) % m == a % m
  {
    var d := a / m;
    assert a == d * m + a % m;
    assert (d + q) * m == d * m + q * m;
    DivModOf(d + q, a % m, m);
  }

  /** A position as a row and a place in the row. */
  lemma SplitPosition(k: nat, n: nat, m: nat) returns (q: nat, r: nat)
    requires k < n * m && m > 0
    ensures q == k / m && r == k % m && q < n && r < m && q * m + r == k
  {
    q, r := k / m, k % m;
    QuotientBound(k, n, m);
  }
}
