/**
  Primes: the trial division of the converter decides primality, and there is always another
  prime, so a search for one outside a finite set ends.
 */
module Primes {
  import opened Arith

  predicate Divides(m: nat, n: int)
    requires m > 0
  {
    n % m == 0
  }

  ghost predicate Prime(n: int) {
    2 <= n && forall m :: 2 <= m < n ==> !Divides(m, n)
  }

  lemma DividesProduct(a: nat, b: nat)
    requires a > 0
    ensures Divides(a, a * b)
  {
    var n := a * b;
    var q, r := n / a, n % a;
    assert n == q * a + r;
    MulMonotone(q + 1, b, a);
    MulMonotone(b + 1, q, a);
  }

  // --------------------------------------------------------------------- trial division

  /** A divisor below the square root: a proper divisor or its cofactor. */
  lemma SmallDivisor(n: nat, m: nat)
    requires 2 <= m < n && Divides(m, n)
    ensures 2 <= n / m < n && Divides(n / m, n) && (m * m <= n || (n / m) * (n / m) <= n)
  {
    var c := n / m;
    assert n == c * m;
    MulMonotone(c, 1, m);
    MulMonotone(n, c, m);
    DividesProduct(c, m);
    if m <= c {
      MulMonotone(m, c, m);
    } else {
      MulMonotone(c, m, c);
    }
  }

  method IsPrime(n: int) returns (r: bool)
    ensures r <==> Prime(n)
  {
    if n < 2 {
      return false;
    }
    if n % 2 == 0 {
      assert Divides(2, n);
      return n == 2;
    }
    var d := 3;
    while d * d <= n
      invariant 3 <= d && d % 2 == 1
      invariant forall m :: 2 <= m < d && m < n ==> !Divides(m, n)
      decreases n - d
    {
      MulMonotone(3, d, d);
      if n % d == 0 {
        assert Divides(d, n) && d < n;
        return false;
      }
      EvenDoesNotDivide(d + 1, n);
      d := d + 2;
    }
    TrialDivisionDone(n, d);
    return true;
  }

  /** Nothing below `d` divides `n` and `d` is beyond the square root. */
  lemma TrialDivisionDone(n: nat, d: nat)
    requires 2 <= n && 2 <= d && n < d * d
    requires forall k :: 2 <= k < d && k < n ==> !Divides(k, n)
    ensures Prime(n)
  {
    forall m | 2 <= m < n
      ensures !Divides(m, n)
    {
      NoLargeDivisor(n, d, m);
    }
  }

  lemma NoLargeDivisor(n: nat, d: nat, m: nat)
    requires 2 <= m < n && 2 <= d && n < d * d
    requires forall k :: 2 <= k < d && k < n ==> !Divides(k, n)
    ensures !Divides(m, n)
  {
    if Divides(m, n) {
      var c := n / m;
      SmallDivisor(n, m);
      MulMonotone(d, m, d);
      MulMonotone(d, m, m);
      MulMonotone(d, c, d);
      MulMonotone(d, c, c);
      assert false;
    }
  }

  lemma EvenDoesNotDivide(m: nat, n: nat)
    requires m > 0 && m % 2 == 0 && n % 2 == 1
    ensures !Divides(m, n)
  {
    var q, h := n / m, m / 2;
    assert n == q * m + n % m;
    assert q * (2 * h) == 2 * (q * h);
  }

  // ------------------------------------------------------------------ there is always one more

  function Factorial(n: nat): (f: nat)
    ensures f >= 1
  {
    if n == 0 then 1 else
      MulMonotone(1, n, Factorial(n - 1));
      n * Factorial(n - 1)
  }

  lemma {:induction false} FactorialDivisible(m: nat, n: nat)
    requires 1 <= m <= n
    ensures Divides(m, Factorial(n))
  {
    if m == n {
      DividesProduct(n, Factorial(n - 1));
    } else {
      FactorialDivisible(m, n - 1);
      var q := Factorial(n - 1) / m;
      assert Factorial(n - 1) == q * m;
      assert Factorial(n) == m * (n * q);
      DividesProduct(m, n * q);
    }
  }

  lemma NotBoth(m: nat, n: nat)
    requires m >= 2 && Divides(m, n)
    ensures !Divides(m, n + 1)
  {
    var p, q := n / m, (n + 1) / m;
    assert n == p * m && n + 1 == q * m + (n + 1) % m;
    MulMonotone(q, p, m);
    MulMonotone(p + 1, q, m);
  }

  lemma DividesItself(n: nat)
    requires n > 0
    ensures Divides(n, n)
  {
    DividesProduct(n, 1);
  }

  /** The least divisor from 2 on is a prime. */
  ghost function LeastDivisor(n: nat, from: nat): (d: nat)
    requires 2 <= from <= n && forall m :: 2 <= m < from ==> !Divides(m, n)
    ensures from <= d <= n && Divides(d, n) && forall m :: 2 <= m < d ==> !Divides(m, n)
    decreases n - from
  {
    DividesItself(n);
    if Divides(from, n) then from else LeastDivisor(n, from + 1)
  }

  lemma DividesTransitive(a: nat, b: nat, c: nat)
    requires a > 0 && b > 0 && Divides(a, b) && Divides(b, c)
    ensures Divides(a, c)
  {
    var p, q := b / a, c / b;
    assert b == p * a && c == q * b;
    assert c == a * (p * q);
    DividesProduct(a, p * q);
  }

  /** Above every number there is a prime. */
  lemma PrimeAbove(k: nat) returns (p: nat)
    ensures k < p && Prime(p)
  {
    var n := Factorial(k) + 1;
    p := LeastDivisor(n, 2);
    forall m | 2 <= m < p
      ensures !Divides(m, p)
    {
      if Divides(m, p) {
        DividesTransitive(m, p, n);
      }
    }
    if p <= k {
      FactorialDivisible(p, k);
      NotBoth(p, Factorial(k));
    }
  }

  lemma {:induction false} BoundOf(s: set<int>) returns (b: nat)
    ensures forall x :: x in s ==> x <= b
  {
    b := 0;
    if x :| x in s {
      var rest := BoundOf(s - {x});
      b := if x > rest then x else rest;
      assert forall y :: y in s ==> y == x || y in s - {x};
    }
  }
}
