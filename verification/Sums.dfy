/** Sums of a natural-valued measure over a sequence: how the protocols below count
    threads, tickets and references. */
module Sums {

  function Sum<T>(f: T -> nat, s: seq<T>): nat
  {
    if |s| == 0 then 0 else f(s[0]) + Sum(f, s[1..])
  }

  /** Changing one element changes the sum by the difference. */
  lemma {:induction false} SumUpdate<T>(f: T -> nat, s: seq<T>, i: nat, v: T)
    requires i < |s|
    ensures Sum(f, s[i := v]) + f(s[i]) == Sum(f, s) + f(v)
  {
    if i == 0 {
      assert s[i := v][1..] == s[1..];
    } else {
      assert s[i := v][1..] == s[1..][i - 1 := v];
      SumUpdate(f, s[1..], i - 1, v);
    }
  }

  lemma {:induction false} SumAppend<T>(f: T -> nat, s: seq<T>, v: T)
    ensures Sum(f, s + [v]) == Sum(f, s) + f(v)
  {
    if |s| == 0 {
      assert s + [v] == [v];
    } else {
      assert (s + [v])[1..] == s[1..] + [v];
      SumAppend(f, s[1..], v);
    }
  }

  lemma {:induction false} SumMember<T>(f: T -> nat, s: seq<T>, i: nat)
    requires i < |s|
    ensures f(s[i]) <= Sum(f, s)
  {
    if i > 0 {
      SumMember(f, s[1..], i - 1);
    }
  }

  lemma {:induction false} SumTwoMembers<T>(f: T -> nat, s: seq<T>, i: nat, j: nat)
    requires i < j < |s|
    ensures f(s[i]) + f(s[j]) <= Sum(f, s)
  {
    if i == 0 {
      SumMember(f, s[1..], j - 1);
    } else {
      SumTwoMembers(f, s[1..], i - 1, j - 1);
    }
  }

  /** A sum is zero exactly when every term is. */
  lemma {:induction false} SumZero<T>(f: T -> nat, s: seq<T>)
    ensures Sum(f, s) == 0 <==> forall i :: 0 <= i < |s| ==> f(s[i]) == 0
  {
    if |s| > 0 {
      SumZero(f, s[1..]);
      assert forall i :: 1 <= i < |s| ==> s[i] == s[1..][i - 1];
      if forall i :: 0 <= i < |s| ==> f(s[i]) == 0 {
        assert forall i :: 0 <= i < |s[1..]| ==> f(s[1..][i]) == f(s[i + 1]) == 0;
      }
    }
  }

  /** Terms of at most `m` sum to at most `m * |s|`, with equality exactly when all are `m`. */
  lemma {:induction false} SumBound<T>(f: T -> nat, s: seq<T>, m: nat)
    requires forall i :: 0 <= i < |s| ==> f(s[i]) <= m
    ensures Sum(f, s) <= m * |s|
    ensures Sum(f, s) == m * |s| <==> forall i :: 0 <= i < |s| ==> f(s[i]) == m
  {
    if |s| > 0 {
      forall i | 0 <= i < |s[1..]| ensures f(s[1..][i]) <= m { assert s[1..][i] == s[i + 1]; }
      SumBound(f, s[1..], m);
      assert m * |s| == m + m * |s[1..]|;
      assert forall i :: 1 <= i < |s| ==> s[i] == s[1..][i - 1];
      if forall i :: 0 <= i < |s| ==> f(s[i]) == m {
        assert forall i :: 0 <= i < |s[1..]| ==> f(s[1..][i]) == f(s[i + 1]) == m;
      }
    }
  }

  /** Sequences whose elements measure the same, one by one, have the same sum. */
  lemma {:induction false} SumPointwise<T>(f: T -> nat, s: seq<T>, t: seq<T>)
    requires |s| == |t| && forall i :: 0 <= i < |s| ==> f(s[i]) == f(t[i])
    ensures Sum(f, s) == Sum(f, t)
  {
    if |s| > 0 {
      forall i | 0 <= i < |s[1..]| ensures f(s[1..][i]) == f(t[1..][i]) { assert s[1..][i] == s[i + 1] && t[1..][i] == t[i + 1]; }
      SumPointwise(f, s[1..], t[1..]);
    }
  }
}
