/** Divisors and primes: what the search of `__next_prime` rests on. */
module Primes {
  import opened Arithmetic

  predicate Divides(d: nat, n: nat) { d > 0 && n % d == 0 }

  ghost predicate IsPrime(n: nat) { n >= 2 && forall d: nat :: 2 <= d < n ==> !Divides(d, n) }

  ghost predicate NoDivisorBelow(n: nat, i: nat) { forall d: nat :: 2 <= d < i ==> !Divides(d, n) }

  /** p is the least prime that is not below n. */
  ghost predicate IsNextPrime(n: nat, p: nat)
  {
    IsPrime(p) && n <= p && forall m: nat :: n <= m < p ==> !IsPrime(m)
  }

  lemma ProductDivides(a: nat, b: nat)
    requires a > 0
    ensures Divides(a, a * b)
  {
    Euclid(a * b, a, b, 0);
  }

  lemma QuotientOf(d: nat, n: nat)
    requires Divides(d, n)
    ensures n == d * (n / d)
  {
  }

  lemma DividesTransitive(a: nat, b: nat, c: nat)
    requires Divides(a, b) && Divides(b, c)
    ensures Divides(a, c)
  {
    QuotientOf(a, b);
    QuotientOf(b, c);
    assert c == a * ((b / a) * (c / b));
    ProductDivides(a, (b / a) * (c / b));
  }

  /** With no divisor below i, none at i and no prime up to `next`, there is none below `next`:
      the least divisor above one is prime. */
  lemma {:induction false} SkipComposites(n: nat, i: nat, next: nat)
    requires NoDivisorBelow(n, i) && !Divides(i, n) && 2 <= i <= next
    requires forall m: nat :: i < m < next ==> !IsPrime(m)
    ensures NoDivisorBelow(n, next)
    decreases next
  {
    if i + 1 < next {
      SkipComposites(n, i, next - 1);
      var d := next - 1;
      assert !IsPrime(d);
      if Divides(d, n) {
        var a: nat :| 2 <= a < d && Divides(a, d);
        DividesTransitive(a, d, n);
      }
    }
  }

  /** If p exceeds the quotient by p, then n is below its square. */
  lemma BelowSquare(n: nat, p: nat)
    requires p > 0 && n / p < p
    ensures n < p * p
  {
    TimesMonotone(p, n / p + 1, p);
    TimesSuccessor(p, n / p);
  }

  /** The quotient by a proper divisor is a proper divisor. */
  lemma Cofactor(n: nat, d: nat) returns (e: nat)
    requires 2 <= d < n && Divides(d, n)
    ensures 2 <= e < n && Divides(e, n) && n == d * e
  {
    e := n / d;
    QuotientOf(d, n);
    if e <= 1 {
      TimesMonotone(d, e, 1);
    }
    assert n == e * d;
    ProductDivides(e, d);
    TimesMonotone(e, 2, d);
  }

  /** Trial division up to the square root decides primality. */
  lemma SquareRootSuffices(n: nat, p: nat)
    requires n >= 2 && NoDivisorBelow(n, p) && p > 0 && n / p < p
    ensures IsPrime(n)
  {
    BelowSquare(n, p);
    forall d: nat | 2 <= d < n ensures !Divides(d, n) {
      if Divides(d, n) {
        var e := Cofactor(n, d);
        assert d >= p && e >= p;
        TimesMonotone(p, p, e);
        TimesMonotone(e, p, d);
      }
    }
  }

  /** A number that divides evenly by a smaller one is not prime. */
  lemma DivisorMeansComposite(n: nat, p: nat)
    requires 2 <= p < n && n == (n / p) * p
    ensures !IsPrime(n) && Divides(p, n)
  {
    assert n == p * (n / p);
    ProductDivides(p, n / p);
  }

  // ----- There is always another prime -----

  function Factorial(n: nat): (f: nat)
    ensures f >= 1
  {
    if n == 0 then 1 else n * Factorial(n - 1)
  }

  lemma {:induction false} DividesFactorial(d: nat, n: nat)
    requires 1 <= d <= n
    ensures Divides(d, Factorial(n))
  {
    if d == n {
      ProductDivides(n, Factorial(n - 1));
    } else {
      DividesFactorial(d, n - 1);
      QuotientOf(d, Factorial(n - 1));
      assert Factorial(n) == d * (n * (Factorial(n - 1) / d));
      ProductDivides(d, n * (Factorial(n - 1) / d));
    }
  }

  /** The least divisor above one is prime. */
  lemma {:induction false} LeastDivisorIsPrime(n: nat, d: nat) returns (p: nat)
    requires 2 <= d && NoDivisorBelow(n, d) && n >= 2 && d <= n
    ensures IsPrime(p) && Divides(p, n)
    decreases n - d
  {
    if Divides(d, n) {
      p := d;
      forall a: nat | 2 <= a < d ensures !Divides(a, d) {
        if Divides(a, d) {
          DividesTransitive(a, d, n);
        }
      }
    } else {
      assert d != n;
      p := LeastDivisorIsPrime(n, d + 1);
    }
  }

  lemma PrimeAtLeast(n: nat) returns (p: nat)
    ensures IsPrime(p) && p >= n
  {
    var f := Factorial(n);
    p := LeastDivisorIsPrime(f + 1, 2);
    if p < n {
      DividesFactorial(p, n);
      QuotientOf(p, f);
      Euclid(f + 1, p, f / p, 1);
    }
  }
}
