/** The size classes of the pool resource: which class serves a request, and how large the next
    chunk of a class is. Shifts by k are quotients by and multiples of the k-th power of two. */
module SizeClasses {
  import opened Arithmetic
  import opened Upstream

  function Max(a: nat, b: nat): (m: nat)
    ensures m >= a && m >= b && (m == a || m == b)
  {
    if a < b then b else a
  }

  function Min(a: nat, b: nat): (m: nat)
    ensures m <= a && m <= b && (m == a || m == b)
  {
    if a < b then a else b
  }

  /** A chunk is aligned as asked, and at least as its footer needs. */
  function RaisedAlign(align: nat): nat { if align < FOOTER_ALIGN then FOOTER_ALIGN else align }

  lemma RaisedAligned(align: nat, p: Address)
    requires IsPow2(align) && Multiple(p, RaisedAlign(align))
    ensures Multiple(p, align) && Multiple(p, FOOTER_ALIGN)
    ensures RaisedAlign(align) == align || RaisedAlign(align) == FOOTER_ALIGN
  {
    assert IsPow2(FOOTER_ALIGN) by { assert FOOTER_ALIGN == Pow2(3); }
    if align < FOOTER_ALIGN {
      SmallerPowerDivides(align, FOOTER_ALIGN);
      MultipleTransitive(p, FOOTER_ALIGN, align);
    } else {
      SmallerPowerDivides(FOOTER_ALIGN, align);
      MultipleTransitive(p, align, FOOTER_ALIGN);
    }
  }

  /** The constants of the class definition. */
  datatype Limits = Limits(
    log2Smallest: nat, maxAlign: nat,
    minBytesPerChunk: nat, maxBytesPerChunk: nat, minBlocksPerChunk: nat, maxBlocksPerChunk: nat,
    defaultLargest: nat, log2MaxLargest: nat)
  {
    function Smallest(): nat { Pow2(log2Smallest) }
    function MaxLargest(): nat { Pow2(log2MaxLargest) }

    /** The relations among the constants that the code relies on. */
    ghost predicate Sound() {
      && log2Smallest >= 1 && Multiple(Smallest(), FOOTER_ALIGN)
      && IsPow2(maxAlign) && FOOTER_ALIGN <= maxAlign <= 2 * Smallest()
      && 1 <= minBlocksPerChunk <= maxBlocksPerChunk
      && Smallest() <= defaultLargest <= MaxLargest() <= maxBytesPerChunk
    }
  }

  datatype Options = Options(maxBlocksPerChunk: nat, largestRequired: nat)

  /** What the constructor settles. */
  datatype Plan = Plan(limits: Limits, maxBlocks: nat, numPools: nat)
  {
    function BlockSize(i: nat): nat { Pow2(i + limits.log2Smallest) }

    ghost predicate Sound() {
      && limits.Sound() && numPools >= 1 && maxBlocks >= 1
      && BlockSize(numPools - 1) <= limits.maxBytesPerChunk
    }
  }

  datatype Request = Request(bytes: nat, align: nat)

  ghost predicate ValidRequest(r: Request) { IsPow2(r.align) }

  lemma BlockSizeDoubles(plan: Plan, i: nat)
    ensures plan.BlockSize(i + 1) == 2 * plan.BlockSize(i)
  {
  }

  // ----- Construction -----

  function LargestBlock(limits: Limits, opts: Options): nat
  {
    if opts.largestRequired == 0 then limits.defaultLargest
    else Min(Max(opts.largestRequired, limits.Smallest()), limits.MaxLargest())
  }

  function BlockLimit(limits: Limits, opts: Options): nat
  {
    if opts.maxBlocksPerChunk == 0 then limits.maxBlocksPerChunk
    else Min(Max(opts.maxBlocksPerChunk, limits.minBlocksPerChunk), limits.maxBlocksPerChunk)
  }

  /** The options are clamped to the limits, and left out they are the defaults. */
  lemma OptionsClamped(limits: Limits, opts: Options)
    requires limits.Sound()
    ensures var b := LargestBlock(limits, opts);
            && limits.Smallest() <= b <= limits.MaxLargest()
            && (opts.largestRequired == 0 ==> b == limits.defaultLargest)
            && (opts.largestRequired != 0 ==>
                  && (limits.Smallest() < b < limits.MaxLargest() ==> b == opts.largestRequired)
                  && (b == limits.Smallest() < limits.MaxLargest() ==> opts.largestRequired <= b)
                  && (b == limits.MaxLargest() > limits.Smallest() ==> opts.largestRequired >= b))
    ensures var n := BlockLimit(limits, opts);
            && limits.minBlocksPerChunk <= n <= limits.maxBlocksPerChunk
            && (opts.maxBlocksPerChunk == 0 ==> n == limits.maxBlocksPerChunk)
            && (opts.maxBlocksPerChunk != 0 ==>
                  && (limits.minBlocksPerChunk < n < limits.maxBlocksPerChunk ==> n == opts.maxBlocksPerChunk)
                  && (n == limits.minBlocksPerChunk < limits.maxBlocksPerChunk ==> opts.maxBlocksPerChunk <= n)
                  && (n == limits.maxBlocksPerChunk > limits.minBlocksPerChunk ==> opts.maxBlocksPerChunk >= n))
  {
  }

  /** The arithmetic of the constructor: as many classes as it takes to reach the largest block. */
  method Settle(limits: Limits, opts: Options) returns (plan: Plan)
    requires limits.Sound()
    ensures plan.Sound() && plan.limits == limits
    ensures plan.BlockSize(plan.numPools - 1) >= LargestBlock(limits, opts)
    ensures plan.numPools > 1 ==> plan.BlockSize(plan.numPools - 2) < LargestBlock(limits, opts)
    ensures plan.maxBlocks == BlockLimit(limits, opts)
  {
    var largest: nat;
    if opts.largestRequired == 0 {
      largest := limits.defaultLargest;
    } else if opts.largestRequired < limits.Smallest() {
      largest := limits.Smallest();
    } else if opts.largestRequired > limits.MaxLargest() {
      largest := limits.MaxLargest();
    } else {
      largest := opts.largestRequired;
    }
    var maxBlocks: nat;
    if opts.maxBlocksPerChunk == 0 {
      maxBlocks := limits.maxBlocksPerChunk;
    } else if opts.maxBlocksPerChunk < limits.minBlocksPerChunk {
      maxBlocks := limits.minBlocksPerChunk;
    } else if opts.maxBlocksPerChunk > limits.maxBlocksPerChunk {
      maxBlocks := limits.maxBlocksPerChunk;
    } else {
      maxBlocks := opts.maxBlocksPerChunk;
    }
    var num: nat := 1;
    var capacity := limits.Smallest();
    while capacity < largest
      invariant num >= 1 && capacity == Pow2(num - 1 + limits.log2Smallest) <= limits.MaxLargest()
      invariant num > 1 ==> Pow2(num - 2 + limits.log2Smallest) < largest
      decreases largest - capacity
    {
      PowersAreSparse(num - 1 + limits.log2Smallest, limits.log2MaxLargest);
      capacity := 2 * capacity;
      num := num + 1;
    }
    plan := Plan(limits, maxBlocks, num);
  }

  lemma PowersAreSparse(j: nat, k: nat)
    requires Pow2(j) < Pow2(k)
    ensures Pow2(j + 1) <= Pow2(k)
  {
    if k <= j {
      Pow2Divides(k, j);
    } else {
      Pow2Divides(j + 1, k);
    }
  }

  // ----- The class of a request -----

  /** The number of significant bits of n. */
  function Width(n: nat): (w: nat)
    ensures n < Pow2(w)
    ensures w > 0 ==> Pow2(w - 1) <= n
  {
    if n == 0 then 0 else 1 + Width(n / 2)
  }

  function PoolIndexOf(plan: Plan, r: Request): nat
  {
    if r.align > plan.limits.maxAlign || r.bytes > Pow2(plan.numPools) || Max(r.bytes, r.align) == 0 then plan.numPools
    else Width(Quotient(Max(r.bytes, r.align) - 1, plan.limits.Smallest()))
  }

  /** The requests that blocks serve: aligned no more than blocks are, not above the cut-off, and no
      larger than the largest block. */
  predicate Pooled(plan: Plan, r: Request)
    requires plan.numPools > 0
  {
    && r.align <= plan.limits.maxAlign && r.bytes <= Pow2(plan.numPools)
    && r.bytes <= plan.BlockSize(plan.numPools - 1) && r.align <= plan.BlockSize(plan.numPools - 1)
  }

  /** The class that serves a request: the smallest that is large enough, or none, which is the number
      of classes. */
  ghost predicate ServedBy(plan: Plan, r: Request, i: nat)
    requires plan.numPools > 0
  {
    if Pooled(plan, r) then
      && i < plan.numPools && r.bytes <= plan.BlockSize(i) && r.align <= plan.BlockSize(i)
      && (i > 0 ==> plan.BlockSize(i - 1) < r.bytes || plan.BlockSize(i - 1) < r.align)
    else i == plan.numPools
  }

  /** How often n can be shifted right before nothing is left. */
  method CountShifts(n: nat) returns (i: nat)
    ensures i == Width(n)
  {
    i := 0;
    var left := n;
    while left != 0
      invariant i + Width(left) == Width(n)
    {
      left := left / 2;
      i := i + 1;
    }
  }

  /** `__pool_index` */
  method PoolIndex(plan: Plan, r: Request) returns (i: nat)
    requires r.align > 0
    ensures i == PoolIndexOf(plan, r)
  {
    if r.align > plan.limits.maxAlign || r.bytes > Pow2(plan.numPools) {
      i := plan.numPools;
    } else {
      var bytes: nat := if r.bytes > r.align then r.bytes else r.align;
      i := CountShifts(Quotient(bytes - 1, plan.limits.Smallest()));
    }
  }

  /** The index is in range; short of the last value it names the smallest class whose blocks are
      large enough, and large enough to be aligned as asked. */
  lemma PoolIndexFits(plan: Plan, r: Request)
    requires plan.Sound() && ValidRequest(r)
    ensures var i := PoolIndexOf(plan, r);
            && i <= plan.numPools
            && (i < plan.numPools ==>
                  && Max(r.bytes, r.align) <= plan.BlockSize(i)
                  && r.align <= plan.limits.maxAlign
                  && (i > 0 ==> plan.BlockSize(i - 1) < Max(r.bytes, r.align)))
  {
    var m, n := Max(r.bytes, r.align), plan.numPools;
    if r.align <= plan.limits.maxAlign && r.bytes <= Pow2(n) && m > 0 {
      var i := PoolIndexOf(plan, r);
      ClassHolds(m, plan.limits.log2Smallest, i);
      CutOff(plan, r);
      if i > n {
        Pow2Divides(n + plan.limits.log2Smallest, i - 1 + plan.limits.log2Smallest);
      }
    }
  }

  /** So the index is below the last value exactly for the requests that blocks serve. */
  lemma PoolIndexServes(plan: Plan, r: Request)
    requires plan.Sound() && ValidRequest(r)
    ensures ServedBy(plan, r, PoolIndexOf(plan, r))
    ensures PoolIndexOf(plan, r) < plan.numPools <==> Pooled(plan, r)
  {
    var i, k := PoolIndexOf(plan, r), plan.limits.log2Smallest;
    PoolIndexFits(plan, r);
    if Pooled(plan, r) {
      ClassHolds(Max(r.bytes, r.align), k, i);
    } else if i < plan.numPools {
      Pow2Divides(i + k, plan.numPools - 1 + k);
    }
  }

  /** No smaller class would do, so only one class serves a request. */
  lemma ServedByLeast(plan: Plan, r: Request, i: nat, j: nat)
    requires plan.numPools > 0 && ServedBy(plan, r, i) && j < i < plan.numPools
    ensures plan.BlockSize(j) < r.bytes || plan.BlockSize(j) < r.align
    ensures !ServedBy(plan, r, j)
  {
    Pow2Divides(j + plan.limits.log2Smallest, i - 1 + plan.limits.log2Smallest);
  }

  /** The cut-off keeps the index of a request that passes it within one of the last class. */
  lemma CutOff(plan: Plan, r: Request)
    requires plan.Sound() && r.align <= plan.limits.maxAlign && r.bytes <= Pow2(plan.numPools)
    ensures Max(r.bytes, r.align) <= plan.BlockSize(plan.numPools)
  {
    var n, k := plan.numPools, plan.limits.log2Smallest;
    Pow2Divides(n, n + k);
    Pow2Divides(1 + k, n + k);
    BlockSizeDoubles(plan, 0);
  }

  lemma ClassHolds(m: nat, k: nat, i: nat)
    requires m > 0 && i == Width(Quotient(m - 1, Pow2(k)))
    ensures m <= Pow2(i + k)
    ensures i > 0 ==> Pow2(i - 1 + k) < m
  {
    var s := Pow2(k);
    var q: nat := Quotient(m - 1, s);
    PowAdd(k, i);
    ClassTop(m, s, q, Pow2(i));
    if i > 0 {
      PowAdd(k, i - 1);
      ClassBottom(m, s, q, Pow2(i - 1));
    }
  }

  lemma ClassBottom(m: nat, s: nat, q: nat, bottom: nat)
    requires bottom <= q && s * q < m
    ensures s * bottom < m
  {
    TimesMonotone(s, bottom, q);
  }

  lemma ClassTop(m: nat, s: nat, q: nat, top: nat)
    requires q < top && m <= s * q + s
    ensures m <= s * top
  {
    TimesMonotone(s, q + 1, top);
    TimesSuccessor(s, q);
  }

  /** A block of a class, counted from an aligned start, is aligned as its requests ask. */
  lemma BlockAligned(plan: Plan, r: Request, i: nat, start: Address, p: Address)
    requires plan.Sound() && ValidRequest(r) && i == PoolIndexOf(plan, r) && i < plan.numPools
    requires Multiple(start, plan.limits.maxAlign) && start <= p && (p - start) % plan.BlockSize(i) == 0
    ensures Multiple(p, r.align)
  {
    PoolIndexFits(plan, r);
    SmallerPowerDivides(r.align, plan.limits.maxAlign);
    assert IsPow2(plan.BlockSize(i));
    SmallerPowerDivides(r.align, plan.BlockSize(i));
    MultipleTransitive(start, plan.limits.maxAlign, r.align);
    MultipleTransitive(p - start, plan.BlockSize(i), r.align);
    MultipleSum(start, p - start, r.align);
  }

  // ----- Chunk sizes -----

  function BlockCap(plan: Plan, i: nat): nat
  {
    Min(Quotient(plan.limits.maxBytesPerChunk, plan.BlockSize(i)), Min(plan.limits.maxBlocksPerChunk, plan.maxBlocks))
  }

  /** A chunk to begin with. */
  function FirstBlocks(plan: Plan, i: nat): nat
  {
    Max(Quotient(plan.limits.minBytesPerChunk, plan.BlockSize(i)), plan.limits.minBlocksPerChunk)
  }

  /** A quarter more than the previous chunk, which `previousBytes` counts with its footer, up to the cap. */
  function NextBlocks(plan: Plan, i: nat, previousBytes: nat): nat
  {
    var previous := Quotient(previousBytes, plan.BlockSize(i));
    Min(BlockCap(plan, i), if previous == 0 then FirstBlocks(plan, i) else previous + previous / 4)
  }

  /** The chunk size of `do_allocate`. */
  method ChunkSizeInBlocks(plan: Plan, i: nat, previousBytes: nat) returns (blocks: nat)
    ensures blocks == NextBlocks(plan, i, previousBytes)
  {
    var size := plan.BlockSize(i);
    var previous: nat := Quotient(previousBytes, size);
    if previous == 0 {
      blocks := Max(Quotient(plan.limits.minBytesPerChunk, size), plan.limits.minBlocksPerChunk);
    } else {
      blocks := previous + previous / 4;
    }
    var most: nat := Min(Quotient(plan.limits.maxBytesPerChunk, size), Min(plan.limits.maxBlocksPerChunk, plan.maxBlocks));
    if blocks > most {
      blocks := most;
    }
  }

  /** The first chunk has as many blocks as the minimum in bytes takes, and no fewer than the minimum. */
  lemma FirstBlocksFacts(plan: Plan, i: nat)
    ensures var blocks, size := FirstBlocks(plan, i), plan.BlockSize(i);
            && blocks >= plan.limits.minBlocksPerChunk && (blocks + 1) * size > plan.limits.minBytesPerChunk
            && (blocks == plan.limits.minBlocksPerChunk || blocks * size <= plan.limits.minBytesPerChunk)
  {
    var blocks, size := FirstBlocks(plan, i), plan.BlockSize(i);
    var q := Quotient(plan.limits.minBytesPerChunk, size);
    TimesMonotone(size, q, blocks);
    TimesSuccessor(size, blocks);
  }

  lemma CapFacts(plan: Plan, i: nat)
    ensures var cap, size := BlockCap(plan, i), plan.BlockSize(i);
            && cap <= plan.maxBlocks && cap <= plan.limits.maxBlocksPerChunk && cap * size <= plan.limits.maxBytesPerChunk
            && (cap == plan.maxBlocks || cap == plan.limits.maxBlocksPerChunk || (cap + 1) * size > plan.limits.maxBytesPerChunk)
  {
    var cap, size := BlockCap(plan, i), plan.BlockSize(i);
    TimesMonotone(size, cap, Quotient(plan.limits.maxBytesPerChunk, size));
    TimesSuccessor(size, cap);
  }

  /** There is always at least one block, never more than the caps allow, and never fewer than in
      the previous chunk unless a cap is met. Short of the caps there are a quarter more than in the
      previous chunk, rounded down, or the two minima in a first one. */
  lemma NextBlocksFacts(plan: Plan, i: nat, previousBytes: nat)
    requires plan.Sound() && i < plan.numPools
    ensures var blocks := NextBlocks(plan, i, previousBytes);
            && 1 <= blocks <= BlockCap(plan, i)
            && blocks * plan.BlockSize(i) <= plan.limits.maxBytesPerChunk
            && (blocks == BlockCap(plan, i) || previousBytes < (blocks + 1) * plan.BlockSize(i))
    ensures var blocks, size := NextBlocks(plan, i, previousBytes), plan.BlockSize(i);
            var previous := previousBytes / size;
            blocks < BlockCap(plan, i) ==>
              if previous > 0 then 4 * blocks <= 5 * previous < 4 * blocks + 4
              else blocks >= plan.limits.minBlocksPerChunk && (blocks + 1) * size > plan.limits.minBytesPerChunk
                   && (blocks == plan.limits.minBlocksPerChunk || blocks * size <= plan.limits.minBytesPerChunk)
  {
    FirstBlocksFacts(plan, i);
    var size, blocks := plan.BlockSize(i), NextBlocks(plan, i, previousBytes);
    CapIsPositive(plan, i);
    QuotientIsZero(previousBytes, size);
    TimesMonotone(size, blocks, Quotient(plan.limits.maxBytesPerChunk, size));
    if blocks != BlockCap(plan, i) {
      TimesMonotone(size, Quotient(previousBytes, size), blocks);
      TimesSuccessor(size, blocks);
    }
  }

  lemma QuotientIsZero(n: nat, d: nat)
    requires d > 0
    ensures Quotient(n, d) == 0 <==> n < d
  {
    if n < d {
      Euclid(n, d, 0, n);
    }
  }

  lemma CapIsPositive(plan: Plan, i: nat)
    requires plan.Sound() && i < plan.numPools
    ensures BlockCap(plan, i) >= 1
  {
    Pow2Divides(i + plan.limits.log2Smallest, plan.numPools - 1 + plan.limits.log2Smallest);
    QuotientIsZero(plan.limits.maxBytesPerChunk, plan.BlockSize(i));
  }
}
