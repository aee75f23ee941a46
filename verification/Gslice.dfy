/** `gslice::__init`: an odometer over the indices of a generalized slice, and the offsets it writes. */
module Gslices {
  import opened Arithmetic

  // ----- Mixed-radix numbers; all sums run from position a on -----

  function Product(sizes: seq<nat>, a: nat): nat
    decreases |sizes| - a
  {
    if a >= |sizes| then 1 else sizes[a] * Product(sizes, a + 1)
  }

  /** The number whose digits these are, the last one least significant. */
  function Number(sizes: seq<nat>, digits: seq<nat>, a: nat): nat
    requires |digits| == |sizes|
    decreases |sizes| - a
  {
    if a >= |sizes| then 0 else digits[a] * Product(sizes, a + 1) + Number(sizes, digits, a + 1)
  }

  /** Digit i of k: the rest of k above the positions after i, modulo the size there. */
  function Digit(sizes: seq<nat>, k: nat, i: nat): nat
    requires i < |sizes| && sizes[i] > 0 && Product(sizes, i + 1) > 0
  {
    Quotient(k, Product(sizes, i + 1)) % sizes[i]
  }

  function Dot(strides: seq<nat>, digits: seq<nat>, a: nat): nat
    requires |digits| == |strides|
    decreases |strides| - a
  {
    if a >= |strides| then 0 else digits[a] * strides[a] + Dot(strides, digits, a + 1)
  }

  ghost predicate AreDigits(sizes: seq<nat>, digits: seq<nat>)
  {
    |digits| == |sizes| && forall i :: 0 <= i < |sizes| ==> digits[i] < sizes[i]
  }

  /** The digits after position i are at their largest. */
  ghost predicate FullAfter(sizes: seq<nat>, digits: seq<nat>, i: int)
    requires |digits| == |sizes|
  {
    forall j :: 0 <= j < |sizes| && i < j ==> digits[j] + 1 == sizes[j]
  }

  lemma {:induction false} NumberBelowProduct(sizes: seq<nat>, digits: seq<nat>, a: nat)
    requires AreDigits(sizes, digits) && a <= |sizes|
    ensures Number(sizes, digits, a) < Product(sizes, a)
    decreases |sizes| - a
  {
    if a < |sizes| {
      NumberBelowProduct(sizes, digits, a + 1);
      var p := Product(sizes, a + 1);
      TimesMonotone(p, digits[a] + 1, sizes[a]);
      TimesSuccessor(p, digits[a]);
    }
  }

  /** The digits of a number are what division says. */
  lemma {:induction false} DigitOfNumber(sizes: seq<nat>, digits: seq<nat>, i: nat)
    requires AreDigits(sizes, digits) && i < |sizes|
    ensures Product(sizes, i + 1) > 0 && Digit(sizes, Number(sizes, digits, 0), i) == digits[i]
  {
    NumberBelowProduct(sizes, digits, i + 1);
    var p := Product(sizes, i + 1);
    var top := Above(sizes, digits, 0, i);
    NumberSplit(sizes, digits, 0, i);
    Euclid(Number(sizes, digits, 0), p, sizes[i] * top + digits[i], Number(sizes, digits, i + 1));
    Euclid(sizes[i] * top + digits[i], sizes[i], top, digits[i]);
  }

  /** The digits from a to i - 1 as a number of their own. */
  function Above(sizes: seq<nat>, digits: seq<nat>, a: nat, i: nat): nat
    requires |digits| == |sizes| && a <= i < |sizes|
    decreases i - a
  {
    if a == i then 0 else sizes[i - 1] * Above(sizes, digits, a, i - 1) + digits[i - 1]
  }

  lemma {:induction false} NumberSplit(sizes: seq<nat>, digits: seq<nat>, a: nat, i: nat)
    requires |digits| == |sizes| && a <= i < |sizes|
    ensures Number(sizes, digits, a) ==
            Product(sizes, i + 1) * (sizes[i] * Above(sizes, digits, a, i) + digits[i]) + Number(sizes, digits, i + 1)
    decreases i - a
  {
    if a < i {
      NumberSplit(sizes, digits, a, i - 1);
      Gather(sizes[i], Product(sizes, i + 1), Above(sizes, digits, a, i), digits[i]);
    }
  }

  lemma Gather(s: nat, p: nat, x: nat, d: nat)
    ensures (s * p) * x + d * p == p * (s * x + d)
  {
    assert (s * p) * x == p * (s * x);
    assert p * (s * x + d) == p * (s * x) + p * d;
  }

  // ----- One step of the odometer -----

  lemma {:induction false} FullNumber(sizes: seq<nat>, digits: seq<nat>, a: nat)
    requires |digits| == |sizes| && a <= |sizes| && forall j :: a <= j < |sizes| ==> digits[j] + 1 == sizes[j]
    ensures Number(sizes, digits, a) + 1 == Product(sizes, a)
    decreases |sizes| - a
  {
    if a < |sizes| {
      FullNumber(sizes, digits, a + 1);
      TimesSuccessor(Product(sizes, a + 1), digits[a]);
    }
  }

  lemma {:induction false} ZeroNumber(sizes: seq<nat>, strides: seq<nat>, digits: seq<nat>, a: nat)
    requires |digits| == |sizes| == |strides| && a <= |sizes| && forall j :: a <= j < |sizes| ==> digits[j] == 0
    ensures Number(sizes, digits, a) == 0 && Dot(strides, digits, a) == 0
    decreases |sizes| - a
  {
    if a < |sizes| {
      ZeroNumber(sizes, strides, digits, a + 1);
    }
  }

  /** How far the positions from b on have come when their digits are full. */
  function Full(sizes: seq<nat>, strides: seq<nat>, b: nat): nat
    requires |sizes| == |strides| && forall i :: 0 <= i < |sizes| ==> sizes[i] > 0
    decreases |sizes| - b
  {
    if b >= |sizes| then 0 else strides[b] * (sizes[b] - 1) + Full(sizes, strides, b + 1)
  }

  lemma {:induction false} FullDot(sizes: seq<nat>, strides: seq<nat>, digits: seq<nat>, a: nat)
    requires |digits| == |sizes| == |strides| && a <= |sizes| && forall i :: 0 <= i < |sizes| ==> sizes[i] > 0
    requires forall j :: a <= j < |sizes| ==> digits[j] + 1 == sizes[j]
    ensures Dot(strides, digits, a) == Full(sizes, strides, a)
    decreases |sizes| - a
  {
    if a < |sizes| {
      FullDot(sizes, strides, digits, a + 1);
      Swap(digits[a], strides[a]);
    }
  }

  lemma Swap(x: nat, y: nat)
    ensures x * y == y * x
  {
  }

  /** digits' is digits with position i one up and everything after it, which was full, at 0. */
  ghost predicate Carried(sizes: seq<nat>, digits: seq<nat>, digits': seq<nat>, i: nat)
  {
    && |digits| == |digits'| == |sizes| && i < |sizes|
    && (forall j :: 0 <= j < i ==> digits'[j] == digits[j]) && digits'[i] == digits[i] + 1
    && (forall j :: i < j < |sizes| ==> digits[j] + 1 == sizes[j] && digits'[j] == 0)
  }

  lemma {:induction false} NextNumber(sizes: seq<nat>, digits: seq<nat>, digits': seq<nat>, i: nat, a: nat)
    requires Carried(sizes, digits, digits', i) && a <= i
    ensures Number(sizes, digits', a) == Number(sizes, digits, a) + 1
    decreases i - a
  {
    if a == i {
      FullNumber(sizes, digits, i + 1);
      ZeroNumber(sizes, sizes, digits', i + 1);
      TimesSuccessor(Product(sizes, i + 1), digits[i]);
    } else {
      NextNumber(sizes, digits, digits', i, a + 1);
    }
  }

  lemma {:induction false} NextDot(sizes: seq<nat>, strides: seq<nat>, digits: seq<nat>, digits': seq<nat>, i: nat, a: nat)
    requires Carried(sizes, digits, digits', i) && a <= i && |strides| == |sizes|
    requires forall j :: 0 <= j < |sizes| ==> sizes[j] > 0
    ensures Dot(strides, digits', a) + Full(sizes, strides, i + 1) == Dot(strides, digits, a) + strides[i]
    decreases i - a
  {
    if a == i {
      FullDot(sizes, strides, digits, i + 1);
      ZeroNumber(sizes, strides, digits', i + 1);
      TimesSuccessor(strides[i], digits[i]);
      Swap(strides[i], digits[i]);
      Swap(strides[i], digits[i] + 1);
    } else {
      NextDot(sizes, strides, digits, digits', i, a + 1);
    }
  }

  lemma {:induction false} PositiveSizes(sizes: seq<nat>, a: nat)
    requires Product(sizes, a) > 0
    ensures forall i :: a <= i < |sizes| ==> sizes[i] > 0
    decreases |sizes| - a
  {
    if a < |sizes| {
      PositiveSizes(sizes, a + 1);
    }
  }

  // ----- gslice::__init -----

  class GSlice {
    const sizes: seq<nat>
    const strides: seq<nat>
    var oneD: array<nat>

    constructor (sizes: seq<nat>, strides: seq<nat>)
      requires |sizes| == |strides|
      ensures this.sizes == sizes && this.strides == strides
    {
      this.sizes, this.strides := sizes, strides;
      oneD := new nat[0];
    }

    method ProductOfSizes() returns (k: nat)
      ensures k == if |sizes| == 0 then 0 else Product(sizes, 0)
    {
      k := if |sizes| != 0 then 1 else 0;
      var i := 0;
      while i < |sizes|
        invariant 0 <= i <= |sizes| && k * Product(sizes, i) == if |sizes| == 0 then 0 else Product(sizes, 0)
      {
        Reassociate(k, sizes[i], Product(sizes, i + 1));
        k := k * sizes[i];
        i := i + 1;
      }
    }

    /** The step to the next index, by `break` to position i with its digit one up; or the end. */
    method Advance(indices: array<nat>) returns (more: bool, i: nat)
      requires |sizes| > 0 && AreDigits(sizes, indices[..])
      modifies indices
      ensures more ==> Carried(sizes, old(indices[..]), indices[..], i) && AreDigits(sizes, indices[..])
      ensures !more ==> FullAfter(sizes, old(indices[..]), -1)
    {
      i := |sizes| - 1;
      while true
        invariant i < |sizes| == indices.Length
        invariant forall j :: 0 <= j <= i ==> indices[j] == old(indices[j])
        invariant forall j :: i < j < |sizes| ==> old(indices[j]) + 1 == sizes[j] && indices[j] == 0
        decreases i
      {
        indices[i] := indices[i] + 1;
        if indices[i] < sizes[i] {
          return true, i;
        }
        if i == 0 {
          return false, 0;
        }
        indices[i] := 0;
        i := i - 1;
      }
    }

    /** The offset after the previous one, when position i went up by one. */
    method NextOffset(previous: nat, i: nat, ghost digits: seq<nat>, ghost digits': seq<nat>, ghost start: nat) returns (offset: nat)
      requires |sizes| == |strides| && Carried(sizes, digits, digits', i) && AreDigits(sizes, digits)
      requires previous == start + Dot(strides, digits, 0)
      ensures offset == start + Dot(strides, digits', 0)
    {
      NextDot(sizes, strides, digits, digits', i, 0);
      offset := previous + strides[i];
      var j := i + 1;
      while j != |sizes|
        invariant i + 1 <= j <= |sizes| && offset == start + Dot(strides, digits', 0) + Full(sizes, strides, j)
        decreases |sizes| - j
      {
        offset := offset - strides[j] * (sizes[j] - 1);
        j := j + 1;
      }
    }

    /** Entry k is the start plus each digit of k times its stride. */
    method Init(start: nat)
      requires |sizes| == |strides|
      modifies this
      ensures fresh(oneD) && oneD.Length == if |sizes| == 0 then 0 else Product(sizes, 0)
      ensures forall k :: 0 <= k < oneD.Length ==> EntryIs(sizes, strides, start, k, oneD[k])
    {
      var k := ProductOfSizes();
      oneD := new nat[k];
      if oneD.Length != 0 {
        PositiveSizes(sizes, 0);
        Fill(start, oneD);
      }
    }

    method Fill(start: nat, out: array<nat>)
      requires |sizes| == |strides| > 0 && out.Length == Product(sizes, 0) > 0
      requires forall i :: 0 <= i < |sizes| ==> sizes[i] > 0
      modifies out
      ensures forall k :: 0 <= k < out.Length ==> EntryIs(sizes, strides, start, k, out[k])
    {
      var indices := new nat[|sizes|](i => 0);
      var k: nat := 0;
      ZeroNumber(sizes, strides, indices[..], 0);
      out[k] := start;
      EntryFromDigits(sizes, strides, start, indices[..]);
      while true
        invariant k < out.Length && fresh(indices) && indices.Length == |sizes|
        invariant AreDigits(sizes, indices[..]) && Number(sizes, indices[..], 0) == k
        invariant out[k] == start + Dot(strides, indices[..], 0)
        invariant forall j :: 0 <= j <= k ==> EntryIs(sizes, strides, start, j, out[j])
        decreases out.Length - k
      {
        ghost var digits := indices[..];
        var more, i := Advance(indices);
        if !more {
          FullNumber(sizes, digits, 0);
          return;
        }
        NextNumber(sizes, digits, indices[..], i, 0);
        NumberBelowProduct(sizes, indices[..], 0);
        EntryFromDigits(sizes, strides, start, indices[..]);
        k := k + 1;
        out[k] := NextOffset(out[k - 1], i, digits, indices[..], start);
      }
    }
  }

  /** The mixed-radix digits of k, from position a on, times their strides. */
  function Offset(sizes: seq<nat>, strides: seq<nat>, k: nat, a: nat): nat
    requires |sizes| == |strides| && Product(sizes, 0) > 0
    decreases |sizes| - a
  {
    if a >= |sizes| then 0
    else
      PositiveSizes(sizes, 0);
      PositiveProduct(sizes, a + 1);
      Digit(sizes, k, a) * strides[a] + Offset(sizes, strides, k, a + 1)
  }

  lemma {:induction false} PositiveProduct(sizes: seq<nat>, a: nat)
    requires forall i :: 0 <= i < |sizes| ==> sizes[i] > 0
    ensures Product(sizes, a) > 0
    decreases |sizes| - a
  {
    if a < |sizes| {
      PositiveProduct(sizes, a + 1);
    }
  }

  ghost predicate EntryIs(sizes: seq<nat>, strides: seq<nat>, start: nat, k: nat, entry: nat)
    requires |sizes| == |strides|
  {
    Product(sizes, 0) > 0 && entry == start + Offset(sizes, strides, k, 0)
  }

  lemma {:induction false} DotIsOffset(sizes: seq<nat>, strides: seq<nat>, digits: seq<nat>, a: nat)
    requires AreDigits(sizes, digits) && |strides| == |sizes| && Product(sizes, 0) > 0
    ensures Dot(strides, digits, a) == Offset(sizes, strides, Number(sizes, digits, 0), a)
    decreases |sizes| - a
  {
    if a < |sizes| {
      DigitOfNumber(sizes, digits, a);
      DotIsOffset(sizes, strides, digits, a + 1);
    }
  }

  lemma EntryFromDigits(sizes: seq<nat>, strides: seq<nat>, start: nat, digits: seq<nat>)
    requires AreDigits(sizes, digits) && |strides| == |sizes| && Product(sizes, 0) > 0
    ensures EntryIs(sizes, strides, start, Number(sizes, digits, 0), start + Dot(strides, digits, 0))
  {
    DotIsOffset(sizes, strides, digits, 0);
  }

  lemma Reassociate(a: nat, b: nat, c: nat)
    ensures (a * b) * c == a * (b * c)
  {
  }
}
