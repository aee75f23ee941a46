/** Powers of two, multiples and quotients. */
module Arithmetic {

  function Pow2(k: nat): (p: nat)
    ensures p >= 1
  {
    if k == 0 then 1 else 2 * Pow2(k - 1)
  }

  ghost predicate IsPow2(n: nat) { exists k: nat :: n == Pow2(k) }

  predicate Multiple(n: nat, a: nat) { a > 0 && n % a == 0 }

  /** `roundup`: the mask arithmetic of a power of two. */
  function RoundUp(count: nat, alignment: nat): (r: nat)
    requires alignment > 0
    ensures r >= count && r < count + alignment && Multiple(r, alignment)
  {
    RoundUpFacts(count, alignment);
    (count + alignment - 1) / alignment * alignment
  }

  lemma RoundUpFacts(count: nat, alignment: nat)
    requires alignment > 0
    ensures var r := (count + alignment - 1) / alignment * alignment;
            r >= count && r < count + alignment && r % alignment == 0
  {
    var q := (count + alignment - 1) / alignment;
    assert count + alignment - 1 == alignment * q + (count + alignment - 1) % alignment;
    MultipleOf(q, alignment);
  }

  /** `n >> k` for d == Pow2(k). */
  function Quotient(n: nat, d: nat): (q: nat)
    requires d > 0
    ensures d * q <= n < d * q + d
  {
    n / d
  }

  lemma RoundUpMultiple(count: nat, alignment: nat)
    requires Multiple(count, alignment)
    ensures RoundUp(count, alignment) == count
  {
    Euclid(count + alignment - 1, alignment, count / alignment, alignment - 1);
  }

  lemma MultipleOf(q: nat, a: nat)
    requires a > 0
    ensures Multiple(q * a, a) && Multiple(a * q, a)
  {
    Euclid(q * a, a, q, 0);
  }

  lemma Euclid(n: nat, a: nat, q: nat, r: nat)
    requires a > 0 && r < a && n == a * q + r
    ensures n % a == r && n / a == q
  {
    var q' := n / a;
    if q' < q {
      TimesMonotone(a, q' + 1, q);
      TimesSuccessor(a, q');
    } else if q < q' {
      TimesMonotone(a, q + 1, q');
      TimesSuccessor(a, q);
    }
  }

  lemma TimesMonotone(a: nat, b: nat, c: nat)
    requires b <= c
    ensures a * b <= a * c
  {
  }

  lemma TimesSuccessor(a: nat, q: nat)
    ensures a * (q + 1) == a * q + a
  {
  }

  lemma MultipleSum(m: nat, n: nat, a: nat)
    requires Multiple(m, a) && Multiple(n, a)
    ensures Multiple(m + n, a)
  {
    assert m + n == a * (m / a + n / a);
    MultipleOf(m / a + n / a, a);
  }

  lemma MultipleTransitive(n: nat, b: nat, a: nat)
    requires Multiple(n, b) && Multiple(b, a)
    ensures Multiple(n, a)
  {
    assert n == a * ((b / a) * (n / b)) by {
      assert n == b * (n / b) && b == a * (b / a);
    }
    MultipleOf((b / a) * (n / b), a);
  }

  /** Of two powers of two the smaller divides the larger. */
  lemma {:induction false} Pow2Divides(j: nat, k: nat)
    requires j <= k
    ensures Multiple(Pow2(k), Pow2(j)) && Pow2(j) <= Pow2(k)
    decreases k
  {
    if j < k {
      Pow2Divides(j, k - 1);
      assert Pow2(k) == Pow2(k - 1) + Pow2(k - 1);
      MultipleSum(Pow2(k - 1), Pow2(k - 1), Pow2(j));
    }
  }

  lemma {:induction false} Pow2Monotone(j: nat, k: nat)
    requires Pow2(j) <= Pow2(k)
    ensures j <= k
  {
    if j > k {
      Pow2Divides(k + 1, j);
    }
  }

  lemma SmallerPowerDivides(a: nat, b: nat)
    requires IsPow2(a) && IsPow2(b) && a <= b
    ensures Multiple(b, a)
  {
    var j: nat :| a == Pow2(j);
    var k: nat :| b == Pow2(k);
    Pow2Monotone(j, k);
    Pow2Divides(j, k);
  }

  lemma {:induction false} PowAdd(a: nat, b: nat)
    ensures Pow2(a + b) == Pow2(a) * Pow2(b)
  {
    if a > 0 {
      PowAdd(a - 1, b);
      assert 2 * (Pow2(a - 1) * Pow2(b)) == (2 * Pow2(a - 1)) * Pow2(b);
    }
  }
}
