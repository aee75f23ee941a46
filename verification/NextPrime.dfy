/** `__next_prime` of libcxx/src/hash.cpp: a table of small primes, then a wheel of 210 over
    the potential primes, each tried by division up to its square root. */
module NextPrime {
  import opened Arithmetic
  import opened Primes

  const L := 210

  const SMALL_PRIMES: seq<nat> := [
    0, 2, 3, 5, 7, 11, 13, 17, 19, 23, 29, 31, 37, 41, 43, 47] + [
    53, 59, 61, 67, 71, 73, 79, 83, 89, 97, 101, 103, 107, 109, 113, 127] + [
    131, 137, 139, 149, 151, 157, 163, 167, 173, 179, 181, 191, 193, 197, 199, 211]

  const INDICES: seq<nat> := [
    1, 11, 13, 17, 19, 23, 29, 31, 37, 41, 43, 47, 53, 59, 61, 67] + [
    71, 73, 79, 83, 89, 97, 101, 103, 107, 109, 113, 121, 127, 131, 137, 139] + [
    143, 149, 151, 157, 163, 167, 169, 173, 179, 181, 187, 191, 193, 197, 199, 209]

  /** The increments of the unrolled chain of trial divisions, once round. */
  const GAPS: seq<nat> := [
    10, 2, 4, 2, 4, 6, 2, 6, 4, 2, 4, 6, 6, 2, 6, 4] + [
    2, 6, 4, 6, 8, 4, 2, 4, 2, 4, 8, 6, 4, 6, 2, 4] + [
    6, 2, 6, 6, 4, 2, 4, 6, 2, 6, 4, 2, 4, 2, 10, 2]

  function CandidateAt(k: nat, j: nat): nat
    requires j < |INDICES|
  {
    L * k + INDICES[j]
  }

  // ----- The table of small primes -----

  /** k is one of the n numbers from lo on, spelled out so that a table can be read entry by entry. */
  predicate OneOf(k: nat, lo: nat)
  {
    || k == lo || k == lo + 1 || k == lo + 2 || k == lo + 3 || k == lo + 4 || k == lo + 5 || k == lo + 6 || k == lo + 7
  }

  /** Some prime up to 13 divides m properly. */
  predicate HasSmallFactor(m: nat)
  {
    || (m > 2 && m % 2 == 0) || (m > 3 && m % 3 == 0) || (m > 5 && m % 5 == 0)
    || (m > 7 && m % 7 == 0) || (m > 11 && m % 11 == 0) || (m > 13 && m % 13 == 0)
  }

  /** Below 17 squared, having a small factor is being composite. */
  lemma SmallFactorDecides(m: nat)
    requires 2 <= m < 225
    ensures HasSmallFactor(m) <==> !IsPrime(m)
  {
    if HasSmallFactor(m) {
      SmallFactorDivides(m);
    } else {
      NoSmallDivisor(m);
      if m < 15 {
        assert forall d: nat :: 2 <= d < m ==> !Divides(d, m);
      } else {
        SquareRootSuffices(m, 15);
      }
    }
  }

  lemma SmallFactorDivides(m: nat)
    requires 2 <= m && HasSmallFactor(m)
    ensures !IsPrime(m)
  {
    var p: nat := if m > 2 && m % 2 == 0 then 2 else if m > 3 && m % 3 == 0 then 3 else if m > 5 && m % 5 == 0 then 5
                  else if m > 7 && m % 7 == 0 then 7 else if m > 11 && m % 11 == 0 then 11 else 13;
    assert Divides(p, m);
  }

  lemma NoSmallDivisor(m: nat)
    requires 2 <= m && !HasSmallFactor(m)
    ensures forall d: nat :: 2 <= d < 15 && d < m ==> !Divides(d, m)
  {
    forall d: nat | 2 <= d < 15 && d < m ensures !Divides(d, m) {
      if d % 2 == 0 {
        if Divides(d, m) { DividesTransitive(2, d, m); }
      } else if d % 3 == 0 {
        if Divides(d, m) { DividesTransitive(3, d, m); }
      }
    }
  }

  lemma SmallEntryRow(k: nat, lo: nat)
    requires lo in {0, 8, 16, 24, 32, 40} && lo <= k < lo + 8 && k >= 1
    ensures 2 <= SMALL_PRIMES[k] < 225 && !HasSmallFactor(SMALL_PRIMES[k])
    ensures k + 1 < |SMALL_PRIMES| ==> SMALL_PRIMES[k] < SMALL_PRIMES[k + 1]
  {
    assert OneOf(k, lo);
  }

  lemma SmallEntry(k: nat)
    requires 1 <= k < |SMALL_PRIMES|
    ensures 2 <= SMALL_PRIMES[k] < 225 && IsPrime(SMALL_PRIMES[k])
    ensures k + 1 < |SMALL_PRIMES| ==> SMALL_PRIMES[k] < SMALL_PRIMES[k + 1]
  {
    SmallEntryRow(k, k / 8 * 8);
    SmallFactorDecides(SMALL_PRIMES[k]);
  }

  lemma SmallGapRow(k: nat, lo: nat, m: nat)
    requires lo in {0, 8, 16, 24, 32, 40} && lo <= k < lo + 8 && 1 <= k < |SMALL_PRIMES| - 1
    requires SMALL_PRIMES[k] < m < SMALL_PRIMES[k + 1]
    ensures HasSmallFactor(m)
  {
    assert OneOf(k, lo);
    assert m - SMALL_PRIMES[k] < 14;
    assert OneOf(m - SMALL_PRIMES[k], 0) || OneOf(m - SMALL_PRIMES[k], 8);
  }

  /** No prime lies strictly between two neighbours of the table. */
  lemma SmallGap(k: nat)
    requires 1 <= k < |SMALL_PRIMES| - 1
    ensures forall m: nat :: SMALL_PRIMES[k] < m < SMALL_PRIMES[k + 1] ==> !IsPrime(m)
  {
    SmallEntry(k);
    forall m: nat | SMALL_PRIMES[k] < m < SMALL_PRIMES[k + 1] ensures !IsPrime(m) {
      SmallGapRow(k, k / 8 * 8, m);
      SmallFactorDivides(m);
    }
  }

  // ----- The wheel -----

  predicate Coprime(m: nat) { m % 2 != 0 && m % 3 != 0 && m % 5 != 0 && m % 7 != 0 }

  lemma WheelEntryRow(j: nat, lo: nat)
    requires lo in {0, 8, 16, 24, 32, 40} && lo <= j < lo + 8
    ensures 0 < INDICES[j] < L && Coprime(INDICES[j]) && 2 <= GAPS[j] <= 10
    ensures (if j + 1 < |INDICES| then INDICES[j + 1] else L + INDICES[0]) == INDICES[j] + GAPS[j]
  {
    assert OneOf(j, lo);
  }

  lemma WheelGapRow(j: nat, lo: nat, m: nat)
    requires lo in {0, 8, 16, 24, 32, 40} && lo <= j < lo + 8
    requires INDICES[j] < m < INDICES[j] + GAPS[j]
    ensures !Coprime(m)
  {
    assert OneOf(j, lo);
    assert OneOf(m - INDICES[j], 1) || m - INDICES[j] == 9;
  }

  lemma WheelEntry(j: nat)
    requires j < |INDICES|
    ensures 0 < INDICES[j] < L && Coprime(INDICES[j]) && 2 <= GAPS[j] <= 10
    ensures (if j + 1 < |INDICES| then INDICES[j + 1] else L + INDICES[0]) == INDICES[j] + GAPS[j]
  {
    WheelEntryRow(j, j / 8 * 8);
  }

  /** Turning the wheel does not change what is coprime to 210. */
  lemma CoprimeShift(k: nat, r: nat)
    ensures Coprime(L * k + r) <==> Coprime(r)
  {
    RemainderShift(2, 105 * k, r);
    RemainderShift(3, 70 * k, r);
    RemainderShift(5, 42 * k, r);
    RemainderShift(7, 30 * k, r);
  }

  lemma RemainderShift(p: nat, k: nat, r: nat)
    requires p > 0
    ensures (p * k + r) % p == r % p
  {
    assert p * k + r == p * (k + r / p) + r % p;
    Euclid(p * k + r, p, k + r / p, r % p);
  }

  lemma NotCoprimeNotPrime(m: nat)
    requires m > 7 && !Coprime(m)
    ensures !IsPrime(m)
  {
    var p: nat := if m % 2 == 0 then 2 else if m % 3 == 0 then 3 else if m % 5 == 0 then 5 else 7;
    assert Divides(p, m);
  }

  /** One step of the wheel: its gap leads to the next candidate and leaves out no prime. */
  lemma WheelStep(k: nat, j: nat)
    requires j < |INDICES| && CandidateAt(k, j) > 7
    ensures CandidateAt(k, j) + GAPS[j] == if j + 1 < |INDICES| then CandidateAt(k, j + 1) else CandidateAt(k + 1, 0)
    ensures forall m: nat :: CandidateAt(k, j) < m < CandidateAt(k, j) + GAPS[j] ==> !IsPrime(m)
  {
    WheelEntry(j);
    forall m: nat | CandidateAt(k, j) < m < CandidateAt(k, j) + GAPS[j] ensures !IsPrime(m) {
      var r := m - L * k;
      WheelGapRow(j, j / 8 * 8, r);
      CoprimeShift(k, r);
      NotCoprimeNotPrime(m);
    }
  }

  // ----- The search -----

  datatype Result = Found(value: nat) | OverflowError

  /** `std::lower_bound`: the first entry that is not below v. */
  method LowerBound(s: seq<nat>, v: nat) returns (k: nat)
    ensures k <= |s| && (k < |s| ==> s[k] >= v)
    ensures forall i :: 0 <= i < k ==> s[i] < v
  {
    k := 0;
    while k < |s| && s[k] < v
      invariant k <= |s| && forall i :: 0 <= i < k ==> s[i] < v
    {
      k := k + 1;
    }
  }

  /** The lookup for small n. */
  method LookUp(n: nat) returns (p: nat)
    requires n <= SMALL_PRIMES[|SMALL_PRIMES| - 1]
    ensures if n == 0 then p == 0 else IsNextPrime(n, p)
  {
    var k := LowerBound(SMALL_PRIMES, n);
    p := SMALL_PRIMES[k];
    if k > 0 {
      SmallEntry(k);
      if k > 1 {
        SmallGap(k - 1);
      }
      forall m: nat | n <= m < p ensures !IsPrime(m) {
        assert k > 1 ==> SMALL_PRIMES[k - 1] < m;
      }
    }
  }

  /** The first loop of trial divisions, by the primes from 11 to 199. */
  method TrySmallPrimes(n: nat) returns (decided: bool, prime: bool)
    requires n > 211 && Coprime(n)
    ensures decided ==> (prime <==> IsPrime(n))
    ensures !decided ==> NoDivisorBelow(n, 211)
  {
    NotDivisibleBelow11(n);
    var j := 5;
    SmallEntry(j);
    while j < |SMALL_PRIMES| - 1
      invariant 5 <= j < |SMALL_PRIMES| && NoDivisorBelow(n, SMALL_PRIMES[j])
    {
      SmallEntry(j);
      SmallEntry(j + 1);
      var p := SMALL_PRIMES[j];
      var q := n / p;
      if q < p {
        SquareRootSuffices(n, p);
        return true, true;
      }
      if n == q * p {
        DivisorMeansComposite(n, p);
        return true, false;
      }
      SmallGap(j);
      NotEqualNotDivides(n, p);
      SkipComposites(n, p, SMALL_PRIMES[j + 1]);
      j := j + 1;
    }
    return false, false;
  }

  lemma NotEqualNotDivides(n: nat, p: nat)
    requires p > 0 && n != (n / p) * p
    ensures !Divides(p, n)
  {
  }

  lemma NotDivisibleBelow11(n: nat)
    requires Coprime(n)
    ensures NoDivisorBelow(n, 11)
  {
    forall d: nat | 2 <= d < 11 ensures !Divides(d, n) {
      if Divides(d, n) {
        if d % 2 == 0 { DividesTransitive(2, d, n); }
        else if d % 3 == 0 { DividesTransitive(3, d, n); }
      }
    }
  }

  /** The unrolled chain of trial divisions, by the potential primes from 211 on. The gaps take
      it from each one to the next, and `i > sqrt(n)` or an even division ends it. */
  method TryPotentialPrimes(n: nat) returns (prime: bool)
    requires n > 211 && NoDivisorBelow(n, 211)
    ensures prime <==> IsPrime(n)
  {
    var i := 211;
    var g := 0;
    ghost var k := 1;
    while true
      invariant g < |GAPS| && i == CandidateAt(k, g) && i >= 211
      invariant i <= n + 10 && NoDivisorBelow(n, i)
      decreases n + 10 - i
    {
      var q := n / i;
      if q < i {
        SquareRootSuffices(n, i);
        return true;
      }
      QuotientBound(n, i);
      if n == q * i {
        DivisorMeansComposite(n, i);
        return false;
      }
      NotEqualNotDivides(n, i);
      WheelEntry(g);
      WheelStep(k, g);
      SkipComposites(n, i, i + GAPS[g]);
      i := i + GAPS[g];
      g := g + 1;
      if g == |GAPS| {
        g, k := 0, k + 1;
      }
    }
  }

  lemma QuotientBound(n: nat, i: nat)
    requires i >= 2 && n / i >= i
    ensures i < n
  {
    var q := n / i;
    assert n == i * q + n % i;
    TimesMonotone(i, 2, q);
  }

  /** `__next_prime`: 0 for 0, otherwise the least prime that is not below n. `limit` is the
      overflow bound of `__check_for_overflow`. */
  method NextPrime(n0: nat, limit: nat) returns (r: Result)
    ensures r.OverflowError? <==> n0 > 211 && n0 > limit
    ensures r.Found? ==> if n0 == 0 then r.value == 0 else IsNextPrime(n0, r.value)
    ensures r.Found? && 211 <= limit && IsPrime(limit) ==> r.value <= limit
  {
    var n := n0;
    if n <= SMALL_PRIMES[|SMALL_PRIMES| - 1] {
      var p := LookUp(n);
      SmallEntry(|SMALL_PRIMES| - 1);
      return Found(p);
    }
    if n > limit {
      return OverflowError;
    }
    var k0 := n / L;
    var j := LowerBound(INDICES, n - k0 * L);
    StartOfSearch(n0, k0, j);
    n := L * k0 + INDICES[j];
    ghost var bound := PrimeAtLeast(n0);
    while true
      invariant j < |INDICES| && k0 >= 1 && n == CandidateAt(k0, j) && n >= n0
      invariant forall m: nat :: n0 <= m < n ==> !IsPrime(m)
      decreases bound - n
    {
      CandidateCoprime(k0, j);
      var decided, prime := TrySmallPrimes(n);
      if !decided {
        prime := TryPotentialPrimes(n);
      }
      if prime {
        return Found(n);
      }
      WheelEntry(j);
      WheelStep(k0, j);
      j := j + 1;
      if j == |INDICES| {
        k0, j := k0 + 1, 0;
      }
      n := L * k0 + INDICES[j];
    }
  }

  lemma CandidateCoprime(k: nat, j: nat)
    requires j < |INDICES|
    ensures Coprime(CandidateAt(k, j))
  {
    WheelEntry(j);
    CoprimeShift(k, INDICES[j]);
  }

  /** The first candidate: the potential prime at or after n, with no prime skipped. */
  lemma StartOfSearch(n: nat, k: nat, j: nat)
    requires n > 211 && k == n / L && j <= |INDICES|
    requires j < |INDICES| ==> INDICES[j] >= n - k * L
    requires forall i :: 0 <= i < j ==> INDICES[i] < n - k * L
    ensures k >= 1 && j < |INDICES| && n <= CandidateAt(k, j)
    ensures forall m: nat :: n <= m < CandidateAt(k, j) ==> !IsPrime(m)
  {
    WheelEntry(|INDICES| - 1);
    WheelEntry(0);
    assert n - k * L <= INDICES[|INDICES| - 1];
    if j > 0 {
      WheelEntry(j - 1);
      WheelStep(k, j - 1);
    } else {
      assert CandidateAt(k, 0) == L * k + 1;
      if n < CandidateAt(k, 0) {
        assert n == L * k;
        CoprimeShift(k, 0);
        NotCoprimeNotPrime(n);
      }
    }
  }
}
