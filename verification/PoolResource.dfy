/** `unsynchronized_pool_resource`: a table of fixed pools, made on first use, and the ad hoc pool. */
module PoolResources {
  import opened Arithmetic
  import opened Upstream
  import opened ChunkList
  import opened FixedPools
  import opened SizeClasses
  import opened AdhocPools
  import opened PoolBooks

  class PoolResource {
    const upstream: Resource              // __res_
    const plan: Plan
    const adhoc: Chunks                   // __adhoc_pool_
    var table: Address                    // __fixed_pools_
    var pools: seq<FixedPool>             // what the table holds
    ghost var books: Books

    ghost function Lists(): set<object>
      reads this
    {
      set p | p in pools :: p.chunks
    }

    ghost function Repr(): set<object>
      reads this
    {
      {this, upstream, adhoc} + (set p | p in pools) + Lists()
    }

    ghost predicate Separate()
      reads this
    {
      && (pools == [] <==> table == 0) && (pools != [] ==> |pools| == plan.numPools)
      && (forall i :: 0 <= i < |pools| ==> pools[i].chunks in Lists() && pools[i].chunks != adhoc)
      && (forall i, j :: 0 <= i < j < |pools| ==> pools[i] != pools[j] && pools[i].chunks != pools[j].chunks)
    }

    /** Pool i stands behind column i of the books. */
    ghost predicate PoolMatches(i: nat)
      requires i < |pools| && pools[i].chunks in Lists()
      requires |books.chains| == plan.numPools + 1 && |books.vacants| == |books.useds| == plan.numPools
      reads this, pools, Lists()
    {
      && i < plan.numPools && pools[i].Valid() && pools[i].size == plan.BlockSize(i) && pools[i].align == plan.limits.maxAlign
      && pools[i].chunks.chain == books.chains[i] && pools[i].vacant == books.vacants[i] && pools[i].used == books.useds[i]
    }

    ghost predicate Matches()
      reads this, adhoc, pools, Lists()
    {
      && Separate() && adhoc.Valid()
      && |books.chains| == plan.numPools + 1 && |books.vacants| == |books.useds| == plan.numPools
      && adhoc.chain == books.chains[plan.numPools] && table == books.table
      && (forall i :: 0 <= i < |pools| ==> PoolMatches(i))
      && (pools == [] ==> forall i :: 0 <= i < plan.numPools ==> ColumnBlank(books, i))
    }

    ghost predicate Valid()
      reads Repr()
    {
      Matches() && upstream.Valid() && Booked(plan, upstream.grants, books)
    }

    constructor (upstream: Resource, limits: Limits, opts: Options)
      requires upstream.Valid() && limits.Sound()
      ensures Valid() && books == Blank(plan) && this.upstream == upstream
      ensures fresh(Repr() - {upstream})
      ensures plan.limits == limits && plan.BlockSize(plan.numPools - 1) >= LargestBlock(limits, opts)
    {
      this.upstream := upstream;
      var settled := Settle(limits, opts);
      plan := settled;
      adhoc := new Chunks();
      table, pools := 0, [];
      books := Blank(settled);
      BlankBooked(settled, upstream.grants);
    }

    /** The first request for a block has upstream provide the table of pools. */
    method OpenTable()
      requires Valid() && table == 0
      modifies this, upstream
      ensures Valid() && table != 0 && forall q :: q in pools ==> fresh(q) && fresh(q.chunks)
      ensures books == old(books).(table := table, owner := old(books.owner)[table := plan.numPools + 1])
      ensures upstream.grants == old(upstream.grants)[table := Grant(plan.numPools * POOL_SIZE, POOL_ALIGN)]
      ensures Foreign(upstream.grants, books.owner) == old(Foreign(upstream.grants, books.owner))
    {
      var t := upstream.Allocate(plan.numPools * POOL_SIZE, POOL_ALIGN);
      BookTable(plan, old(upstream.grants), books, t);
      ForeignKeeps(old(upstream.grants), old(books.owner), t, upstream.grants[t], plan.numPools + 1);
      var made := MakePools();
      Install(t, made);
    }

    method Install(t: Address, made: seq<FixedPool>)
      requires Matches() && table == 0 && t != 0 && |made| == plan.numPools > 0
      requires forall i :: 0 <= i < |made| ==> Unused(made[i], plan, i) && made[i].chunks != adhoc
      requires forall i, j :: 0 <= i < j < |made| ==> made[i] != made[j] && made[i].chunks != made[j].chunks
      modifies this
      ensures Matches() && table == t && pools == made
      ensures books == old(books).(table := t, owner := old(books.owner)[t := plan.numPools + 1])
    {
      ghost var before := books;
      pools := made;
      table := t;
      books := books.(table := t, owner := books.owner[t := plan.numPools + 1]);
      forall i | 0 <= i < |pools| ensures pools[i].chunks in Lists() && PoolMatches(i) {
        assert pools[i] == made[i] && Unused(made[i], plan, i) && ColumnBlank(before, i);
      }
    }

    method MakePools() returns (made: seq<FixedPool>)
      requires plan.Sound()
      ensures |made| == plan.numPools
      ensures forall i :: 0 <= i < |made| ==> fresh(made[i]) && fresh(made[i].chunks) && Unused(made[i], plan, i)
      ensures forall i, j :: 0 <= i < j < |made| ==> made[i] != made[j] && made[i].chunks != made[j].chunks
    {
      made := [];
      while |made| < plan.numPools
        invariant |made| <= plan.numPools
        invariant forall i :: 0 <= i < |made| ==> fresh(made[i]) && fresh(made[i].chunks) && Unused(made[i], plan, i)
        invariant forall i, j :: 0 <= i < j < |made| ==> made[i] != made[j] && made[i].chunks != made[j].chunks
      {
        BlockSizeRoomy(plan, |made|);
        var pool := new FixedPool(plan.BlockSize(|made|), plan.limits.maxAlign);
        made := made + [pool];
      }
    }

    method AllocateAdhoc(r: Request) returns (p: Address, ghost c: Chunk)
      requires Valid() && LentBy(plan, r, plan.numPools)
      modifies this`books, upstream, adhoc
      ensures Valid()
      ensures c == Chunk(p, RoundUp(r.bytes, FOOTER_ALIGN), RaisedAlign(r.align))
      ensures p != 0 && p !in old(books.live) && books.live == old(books.live)[p := r]
      ensures upstream.grants == old(upstream.grants)[p := c.AsGrant()]
      ensures Foreign(upstream.grants, books.owner) == old(Foreign(upstream.grants, books.owner))
    {
      OwnedGranted(upstream.grants, books.owner, books.chains, books.table, plan.numPools);
      p, c := AddAdhoc(r);
      ForeignKeeps(old(upstream.grants), old(books.owner), p, c.AsGrant(), plan.numPools);
      BookAdhocChunk(plan, old(upstream.grants), upstream.grants, old(books), c, r);
    }

    method AddAdhoc(r: Request) returns (p: Address, ghost c: Chunk)
      requires Matches() && upstream.Valid() && Granted(upstream.grants, adhoc.chain)
      modifies this`books, upstream, adhoc
      ensures Matches() && upstream.Valid() && p != 0
      ensures c == Chunk(p, RoundUp(r.bytes, FOOTER_ALIGN), RaisedAlign(r.align)) && Multiple(p, c.align)
      ensures p !in old(upstream.grants) && upstream.grants == old(upstream.grants)[p := c.AsGrant()]
      ensures ChunksApart([c] + old(adhoc.chain))
      ensures books == WithAdhocChunk(plan, old(books), c, r)
    {
      p, c := AdhocPools.DoAllocate(adhoc, upstream, r.bytes, r.align);
      books := WithAdhocChunk(plan, books, c, r);
      forall i | 0 <= i < |pools| ensures PoolMatches(i) {
        assert old(PoolMatches(i));
      }
      if pools == [] {
        forall i | 0 <= i < plan.numPools ensures ColumnBlank(books, i) {
          assert old(ColumnBlank(books, i));
        }
      }
    }

    /** A block of class i off its vacancy list, or null. */
    method TakeVacancy(i: nat, r: Request) returns (p: Address)
      requires Matches() && i < |pools| && i < plan.numPools
      modifies this`books, pools[i]
      ensures Matches()
      ensures p == 0 ==> books == old(books) && books.vacants[i] == []
      ensures p != 0 ==> old(books.vacants[i]) == [p] + pools[i].vacant && books == WithBlock(old(books), i, pools[i].vacant, p, r)
    {
      assert PoolMatches(i);
      p := pools[i].TryAllocateFromVacancies();
      if p != 0 {
        books := WithBlock(books, i, pools[i].vacant, p, r);
      }
      forall j | 0 <= j < |pools| ensures PoolMatches(j) {
        assert old(PoolMatches(j));
      }
    }

    /** What upstream is asked for when class i grows behind these chunks. */
    ghost function NewGrant(i: nat, chain: seq<Chunk>): Grant
    {
      Grant(NextBlocks(plan, i, LatestSize(chain)) * plan.BlockSize(i) + FOOTER_SIZE, plan.limits.maxAlign)
    }

    /** A block of class i from a new chunk. */
    method Grow(i: nat, r: Request) returns (p: Address, ghost c: Chunk)
      requires Matches() && plan.Sound() && i < |pools|
      requires upstream.Valid() && Granted(upstream.grants, pools[i].chunks.chain)
      modifies this`books, upstream, pools[i], pools[i].chunks
      ensures Matches() && upstream.Valid()
      ensures p != 0 && c.start == p && p !in old(upstream.grants)
      ensures upstream.grants == old(upstream.grants)[p := c.AsGrant()]
      ensures i < plan.numPools && c.AsGrant() == NewGrant(i, old(books.chains[i]))
      ensures c.align == plan.limits.maxAlign && ChunksApart([c] + old(books.chains[i]))
      ensures ClassLaid(plan, i, [c] + old(books.chains[i]), pools[i].vacant, old(books.useds[i]) + {p})
      ensures books == WithBlock(WithChunk(old(books), i, c), i, pools[i].vacant, p, r)
    {
      var size := NextChunkSize(i);
      assert PoolMatches(i);
      p := pools[i].AllocateInNewChunk(upstream, size);
      c := Chunk(p, size, pools[i].align);
      books := WithBlock(WithChunk(books, i, c), i, pools[i].vacant, p, r);
      forall j | 0 <= j < |pools| ensures PoolMatches(j) {
        assert old(PoolMatches(j));
        if j != i {
          assert pools[j].Valid();
        }
      }
    }

    method NextChunkSize(i: nat) returns (size: nat)
      requires Matches() && plan.Sound() && i < |pools|
      ensures i < plan.numPools && size == NextBlocks(plan, i, LatestSize(books.chains[i])) * plan.BlockSize(i)
      ensures size > 0 && Multiple(size, pools[i].size)
    {
      assert PoolMatches(i);
      var previous := pools[i].PreviousChunkSizeInBytes();
      var blocks := ChunkSizeInBlocks(plan, i, previous);
      size := blocks * plan.BlockSize(i);
      NextBlocksFacts(plan, i, previous);
      MultipleOf(blocks, plan.BlockSize(i));
    }

    method AllocateGrown(i: nat, r: Request) returns (p: Address)
      requires Valid() && i < |pools| && LentBy(plan, r, i)
      modifies this`books, upstream, pools[i], pools[i].chunks
      ensures Valid()
      ensures p != 0 && p !in old(books.live) && books.live == old(books.live)[p := r] && p in books.useds[i]
      ensures Foreign(upstream.grants, books.owner) == old(Foreign(upstream.grants, books.owner))
      ensures p !in old(upstream.grants) && upstream.grants == old(upstream.grants)[p := NewGrant(i, old(books.chains[i]))]
    {
      assert PoolMatches(i);
      OwnedGranted(upstream.grants, books.owner, books.chains, books.table, i);
      ghost var c: Chunk;
      p, c := Grow(i, r);
      ForeignKeeps(old(upstream.grants), old(books.owner), p, c.AsGrant(), i);
      BookNewChunk(plan, old(upstream.grants), upstream.grants, old(books), i, c, pools[i].vacant, r);
    }

    method AllocateBlock(i: nat, r: Request) returns (p: Address)
      requires Valid() && i < |pools| && LentBy(plan, r, i)
      modifies this`books, upstream, pools[i], pools[i].chunks
      ensures Valid()
      ensures p != 0 && p !in old(books.live) && books.live == old(books.live)[p := r] && p in books.useds[i]
      ensures Foreign(upstream.grants, books.owner) == old(Foreign(upstream.grants, books.owner))
      ensures old(books.vacants[i]) != [] ==> p == old(books.vacants[i])[0] && upstream.grants == old(upstream.grants)
      ensures old(books.vacants[i]) == [] ==>
                p !in old(upstream.grants) && upstream.grants == old(upstream.grants)[p := NewGrant(i, old(books.chains[i]))]
    {
      p := TakeVacancy(i, r);
      if p != 0 {
        assert PoolMatches(i);
        BookVacancy(plan, upstream.grants, old(books), i, pools[i].vacant, p, r);
      } else {
        p := AllocateGrown(i, r);
      }
    }

    /** `do_allocate`: the request is met by a block not lent out before, of the smallest class that is
        large enough, from its vacancies if it has any; or, if no class serves it, by a chunk of its own. */
    method DoAllocate(r: Request) returns (p: Address, ghost served: nat)
      requires Valid() && ValidRequest(r)
      modifies Repr()
      ensures Valid() && fresh(Repr() - old(Repr()))
      ensures p != 0 && p !in old(books.live) && books.live == old(books.live)[p := r]
      ensures Foreign(upstream.grants, books.owner) == old(Foreign(upstream.grants, books.owner))
      ensures ServedBy(plan, r, served) && FromPool(old(books), old(upstream.grants), served, r, p)
    {
      p := AllocateByIndex(r);
      served := PoolIndexOf(plan, r);
      PoolIndexServes(plan, r);
    }

    method AllocateByIndex(r: Request) returns (p: Address)
      requires Valid() && ValidRequest(r)
      modifies Repr()
      ensures Valid()
      ensures pools == old(pools) || forall q :: q in pools ==> fresh(q) && fresh(q.chunks)
      ensures p != 0 && p !in old(books.live) && books.live == old(books.live)[p := r]
      ensures Foreign(upstream.grants, books.owner) == old(Foreign(upstream.grants, books.owner))
      ensures FromPool(old(books), old(upstream.grants), PoolIndexOf(plan, r), r, p)
    {
      PoolIndexFits(plan, r);
      var i := PoolIndex(plan, r);
      p := AllocateFrom(i, r);
    }

    method AllocateFrom(i: nat, r: Request) returns (p: Address)
      requires Valid() && LentBy(plan, r, i) && i <= plan.numPools
      modifies Repr()
      ensures Valid()
      ensures pools == old(pools) || forall q :: q in pools ==> fresh(q) && fresh(q.chunks)
      ensures p != 0 && p !in old(books.live) && books.live == old(books.live)[p := r]
      ensures Foreign(upstream.grants, books.owner) == old(Foreign(upstream.grants, books.owner))
      ensures FromPool(old(books), old(upstream.grants), i, r, p)
    {
      if i == plan.numPools {
        ghost var c: Chunk;
        p, c := AllocateAdhoc(r);
        AdhocGrant(p, r);
      } else {
        p := AllocateFixed(i, r);
      }
    }

    /** Where the block came from, before which the books and upstream were as given. */
    ghost predicate FromPool(before: Books, grants: map<Address, Grant>, i: nat, r: Request, p: Address)
      reads this, upstream
    {
      if i < plan.numPools then FromClass(before, grants, i, p)
      else upstream.grants == grants[p := Grant(RoundUp(r.bytes, FOOTER_ALIGN) + FOOTER_SIZE, RaisedAlign(r.align))]
    }

    /** The block is in use in class i. It was the first vacancy if there was one, and then upstream is as
        it was; and otherwise it begins a chunk from upstream, of the size the growth rule gives. */
    ghost predicate FromClass(before: Books, grants: map<Address, Grant>, i: nat, p: Address)
      reads this, upstream
    {
      && i < |books.useds| && i < |before.vacants| && i < |before.chains| && p in books.useds[i]
      && if before.vacants[i] != [] then p == before.vacants[i][0] && upstream.grants == grants
         else p !in grants && p in upstream.grants && upstream.grants[p] == NewGrant(i, before.chains[i])
    }

    method AllocateFixed(i: nat, r: Request) returns (p: Address)
      requires Valid() && LentBy(plan, r, i) && i < plan.numPools
      modifies Repr()
      ensures Valid()
      ensures pools == old(pools) || forall q :: q in pools ==> fresh(q) && fresh(q.chunks)
      ensures p != 0 && p !in old(books.live) && books.live == old(books.live)[p := r]
      ensures Foreign(upstream.grants, books.owner) == old(Foreign(upstream.grants, books.owner))
      ensures FromClass(old(books), old(upstream.grants), i, p)
    {
      if table == 0 {
        assert ColumnBlank(books, i);
        OpenTable();
      }
      p := AllocateBlock(i, r);
    }

    /** `do_deallocate`: the block is no longer lent out. It is the first vacancy of its class, or its
        chunk goes back. */
    method DoDeallocate(p: Address, r: Request) returns (ghost served: nat)
      requires Valid() && p in books.live && books.live[p] == r
      modifies Repr()
      ensures Valid() && Repr() == old(Repr()) && books.live == old(books.live) - {p}
      ensures Foreign(upstream.grants, books.owner) == old(Foreign(upstream.grants, books.owner))
      ensures ServedBy(plan, r, served) && BackToPool(old(books), old(upstream.grants), served, p)
    {
      assert LentFrom(plan, r, p, books.chains[plan.numPools], books.useds);
      DeallocateByIndex(p, r);
      served := PoolIndexOf(plan, r);
      PoolIndexServes(plan, r);
    }

    method DeallocateByIndex(p: Address, r: Request)
      requires Valid() && p in books.live && books.live[p] == r
      modifies Repr()
      ensures Valid() && pools == old(pools) && books.live == old(books.live) - {p}
      ensures Foreign(upstream.grants, books.owner) == old(Foreign(upstream.grants, books.owner))
      ensures BackToPool(old(books), old(upstream.grants), PoolIndexOf(plan, r), p)
    {
      assert LentFrom(plan, r, p, books.chains[plan.numPools], books.useds);
      var i := PoolIndex(plan, r);
      DeallocateTo(i, p);
    }

    method DeallocateTo(i: nat, p: Address)
      requires Valid() && i <= plan.numPools
      requires if i == plan.numPools then p in Starts(books.chains[i]) else p in books.useds[i]
      modifies Repr()
      ensures Valid() && pools == old(pools) && books.live == old(books.live) - {p}
      ensures Foreign(upstream.grants, books.owner) == old(Foreign(upstream.grants, books.owner))
      ensures BackToPool(old(books), old(upstream.grants), i, p)
    {
      if i == plan.numPools {
        DeallocateAdhoc(p);
      } else {
        DeallocateBlock(i, p);
      }
    }

    /** Where the block went, before which the books and upstream were as given. */
    ghost predicate BackToPool(before: Books, grants: map<Address, Grant>, i: nat, p: Address)
      reads this, upstream
    {
      if i < plan.numPools then
        && i < |before.vacants| && i < |books.vacants|
        && books.vacants[i] == [p] + before.vacants[i] && upstream.grants == grants
      else upstream.grants == grants - {p}
    }

    method DeallocateAdhoc(p: Address)
      requires Valid() && p in Starts(books.chains[plan.numPools])
      modifies this`books, upstream, adhoc
      ensures Valid() && books.live == old(books.live) - {p} && upstream.grants == old(upstream.grants) - {p}
      ensures Foreign(upstream.grants, books.owner) == old(Foreign(upstream.grants, books.owner))
    {
      ghost var k :| 0 <= k < |adhoc.chain| && adhoc.chain[k].start == p;
      OwnedGranted(upstream.grants, books.owner, books.chains, books.table, plan.numPools);
      assert OwnedAs(upstream.grants, books.owner, adhoc.chain[k], plan.numPools);
      RemoveAdhoc(p, k);
      UnbookAdhocChunk(plan, old(upstream.grants), old(books), k);
      ForeignClears(old(upstream.grants), old(books.owner), {p});
    }

    method RemoveAdhoc(p: Address, ghost k: nat)
      requires Matches() && upstream.Valid() && Granted(upstream.grants, adhoc.chain)
      requires k < |adhoc.chain| && adhoc.chain[k].start == p
      modifies this`books, upstream, adhoc
      ensures Matches() && upstream.Valid() && upstream.grants == old(upstream.grants) - {p}
      ensures books == WithoutAdhocChunk(plan, old(books), k)
    {
      AdhocPools.DoDeallocate(adhoc, upstream, p, k);
      books := WithoutAdhocChunk(plan, books, k);
      forall i | 0 <= i < |pools| ensures PoolMatches(i) {
        assert old(PoolMatches(i));
      }
      if pools == [] {
        forall i | 0 <= i < plan.numPools ensures ColumnBlank(books, i) {
          assert old(ColumnBlank(books, i));
        }
      }
    }

    method DeallocateBlock(i: nat, p: Address)
      requires Valid() && i < plan.numPools && p in books.useds[i]
      modifies this`books, pools
      ensures Valid() && books.live == old(books.live) - {p} && books.vacants[i] == [p] + old(books.vacants[i])
      ensures Foreign(upstream.grants, books.owner) == old(Foreign(upstream.grants, books.owner))
    {
      assert !ColumnBlank(books, i);
      ReturnVacancy(i, p);
      UnbookBlock(plan, upstream.grants, old(books), i, p);
    }

    method ReturnVacancy(i: nat, p: Address)
      requires Matches() && i < |pools| && p in books.useds[i]
      modifies this`books, pools[i]
      ensures Matches() && books == WithoutBlock(old(books), i, p)
      ensures ClassLaid(plan, i, books.chains[i], [p] + old(books.vacants[i]), old(books.useds[i]) - {p})
    {
      assert PoolMatches(i);
      pools[i].Evacuate(p);
      books := WithoutBlock(books, i, p);
      forall j | 0 <= j < |pools| ensures PoolMatches(j) {
        assert old(PoolMatches(j));
      }
    }

    // ----- release -----

    ghost predicate Releasing()
      reads Repr()
    {
      Matches() && upstream.Valid() && plan.Sound() && Own(upstream.grants, books.owner, books.chains, books.table)
    }

    method ReleaseAdhoc()
      requires Releasing()
      modifies this`books, upstream, adhoc
      ensures Releasing() && books.chains == old(books.chains)[plan.numPools := []]
      ensures Foreign(upstream.grants, books.owner) == old(Foreign(upstream.grants, books.owner))
    {
      ghost var gone := Starts(adhoc.chain);
      OwnedGranted(upstream.grants, books.owner, books.chains, books.table, plan.numPools);
      OwnClear(upstream.grants, books.owner, books.chains, books.table, plan.numPools);
      ForeignClears(upstream.grants, books.owner, gone);
      adhoc.Release(upstream);
      books := books.(chains := books.chains[plan.numPools := []], owner := books.owner - gone);
      forall i | 0 <= i < |pools| ensures PoolMatches(i) {
        assert old(PoolMatches(i));
      }
      if pools == [] {
        forall i | 0 <= i < plan.numPools ensures ColumnBlank(books, i) {
          assert old(ColumnBlank(books, i));
        }
      }
    }

    method ReleasePool(i: nat)
      requires Releasing() && i < |pools|
      modifies this`books, upstream, pools[i], pools[i].chunks
      ensures Releasing() && books.chains == old(books.chains)[i := []]
      ensures Foreign(upstream.grants, books.owner) == old(Foreign(upstream.grants, books.owner))
    {
      assert PoolMatches(i);
      ghost var gone := Starts(books.chains[i]);
      OwnedGranted(upstream.grants, books.owner, books.chains, books.table, i);
      OwnClear(upstream.grants, books.owner, books.chains, books.table, i);
      ForeignClears(upstream.grants, books.owner, gone);
      pools[i].ReleasePtr(upstream);
      books := books.(chains := books.chains[i := []], vacants := books.vacants[i := []],
                      useds := books.useds[i := {}], owner := books.owner - gone);
      forall j | 0 <= j < |pools| ensures PoolMatches(j) {
        assert old(PoolMatches(j));
      }
    }

    method ReleaseTable()
      requires Releasing() && table != 0 && forall i :: 0 <= i < |books.chains| ==> books.chains[i] == []
      modifies this, upstream
      ensures Valid() && books == Blank(plan) && pools == []
      ensures upstream.grants == old(Foreign(upstream.grants, books.owner))
    {
      OwnNoTable(upstream.grants, books.owner, books.chains, books.table);
      OwnNothing(upstream.grants - {table}, books.owner - {table}, books.chains);
      upstream.Deallocate(table, plan.numPools * POOL_SIZE, POOL_ALIGN);
      table, pools := 0, [];
      books := Blank(plan);
      BlankBooked(plan, upstream.grants);
    }

    /** `release`: all the memory goes back to upstream, and nothing else does. */
    method Release()
      requires Valid()
      modifies Repr()
      ensures Valid() && books == Blank(plan) && Repr() <= old(Repr())
      ensures upstream.grants == old(Foreign(upstream.grants, books.owner))
    {
      ReleaseAdhoc();
      if table != 0 {
        ReleasePools();
        ReleaseTable();
      } else {
        ReleaseNothing();
      }
    }

    method ReleasePools()
      requires Releasing() && table != 0 && books.chains[plan.numPools] == []
      modifies this`books, upstream, pools, Lists()
      ensures Releasing() && forall i :: 0 <= i < |books.chains| ==> books.chains[i] == []
      ensures Foreign(upstream.grants, books.owner) == old(Foreign(upstream.grants, books.owner))
    {
      var i := 0;
      while i < plan.numPools
        invariant Releasing() && 0 <= i <= plan.numPools
        invariant Foreign(upstream.grants, books.owner) == old(Foreign(upstream.grants, books.owner))
        invariant books.chains[plan.numPools] == [] && forall j :: 0 <= j < i ==> books.chains[j] == []
      {
        ReleasePool(i);
        i := i + 1;
      }
    }

    ghost method ReleaseNothing()
      requires Releasing() && table == 0 && books.chains[plan.numPools] == []
      modifies this`books
      ensures Valid() && books == Blank(plan)
      ensures upstream.grants == old(Foreign(upstream.grants, books.owner))
    {
      forall i | 0 <= i < |books.chains| ensures books.chains[i] == [] {
        assert i < plan.numPools ==> ColumnBlank(books, i);
      }
      OwnNothing(upstream.grants, books.owner, books.chains);
      books := Blank(plan);
      BlankBooked(plan, upstream.grants);
    }

    // ----- What holds of the live blocks at any time -----

    lemma LiveApart(p: Address, q: Address)
      requires Valid() && p in books.live && q in books.live && p != q
      ensures Apart(p, books.live[p].bytes, q, books.live[q].bytes)
    {
      LiveBlocksApart(plan, upstream.grants, books.owner, books.table, books.live, books.chains, books.vacants, books.useds, p, q);
    }

    /** A live block lies below the footer of one upstream chunk, as large and as aligned as asked. */
    lemma LivePlaced(p: Address) returns (c: Chunk)
      requires Valid() && p in books.live
      ensures c.start in upstream.grants && upstream.grants[c.start] == c.AsGrant()
      ensures c.start <= p && p + books.live[p].bytes <= c.Foot()
      ensures p != 0 && Multiple(p, books.live[p].align)
    {
      var i;
      i, c := LiveBlockInChunk(plan, books.live, books.chains, books.vacants, books.useds, p);
      assert OwnedAs(upstream.grants, books.owner, c, i);
    }

    /** No live block touches any footer. */
    lemma LiveClearOfFooters(p: Address, i: nat, c: Chunk)
      requires Valid() && p in books.live && i < |books.chains| && c in books.chains[i]
      ensures Apart(p, books.live[p].bytes, c.Foot(), FOOTER_SIZE)
    {
      var j, d := LiveBlockInChunk(plan, books.live, books.chains, books.vacants, books.useds, p);
      ChunksOfResourceApart(upstream.grants, books.owner, books.chains, books.table, i, c, j, d);
    }

    /** Nor a block that is on a vacancy list. */
    lemma LiveClearOfVacancies(p: Address, i: nat, v: Address)
      requires Valid() && p in books.live && i < plan.numPools && v in books.vacants[i]
      ensures Apart(p, books.live[p].bytes, v, plan.BlockSize(i))
    {
      VacantNotLive(plan, upstream.grants, books.owner, books.table, books.live, books.chains, books.vacants, books.useds, i, v);
      assert ClassLaid(plan, i, books.chains[i], books.vacants[i], books.useds[i]);
      var j, d := LiveBlockInChunk(plan, books.live, books.chains, books.vacants, books.useds, p);
      var c := ChunkOf(books.chains[i], plan.BlockSize(i), v);
      ChunksOfResourceApart(upstream.grants, books.owner, books.chains, books.table, i, c, j, d);
      if i == j && c == d {
        PoolIndexFits(plan, books.live[p]);
        BlocksApart(books.chains[i], plan.BlockSize(i), p, v);
      }
    }

    /** The list that starts at a pool's first vacancy holds every idle block of its class once. */
    lemma VacantExactlyIdle(i: nat, p: Address)
      requires Valid() && i < |pools| && p in Blocks(books.chains[i], plan.BlockSize(i))
      ensures Threaded(pools[i].firstVacancy, pools[i].headers, books.vacants[i]) && Distinct(books.vacants[i])
      ensures p in books.vacants[i] <==> p !in books.live
      ensures forall v :: v in books.vacants[i] ==> v in Blocks(books.chains[i], plan.BlockSize(i))
    {
      assert PoolMatches(i);
      assert ClassLaid(plan, i, books.chains[i], books.vacants[i], books.useds[i]);
      if p in books.vacants[i] {
        VacantNotLive(plan, upstream.grants, books.owner, books.table, books.live, books.chains, books.vacants, books.useds, i, p);
      } else {
        assert LentBy(plan, books.live[p], i);
      }
    }
  }

  // ----- Whole runs -----

  datatype Operation = Allocate(request: Request) | Deallocate(p: Address)

  method Perform(resource: PoolResource, held: map<Address, Request>, op: Operation) returns (held': map<Address, Request>)
    requires resource.Valid() && held == resource.books.live && (op.Allocate? ==> ValidRequest(op.request))
    modifies resource.Repr()
    ensures resource.Valid() && held' == resource.books.live && fresh(resource.Repr() - old(resource.Repr()))
    ensures Foreign(resource.upstream.grants, resource.books.owner) == old(Foreign(resource.upstream.grants, resource.books.owner))
  {
    held' := held;
    match op
    case Allocate(r) =>
      var p, _ := resource.DoAllocate(r);
      held' := held[p := r];
    case Deallocate(p) =>
      if p in held {
        var _ := resource.DoDeallocate(p, held[p]);
        held' := held - {p};
      }
  }

  /** Any run of allocations and matching deallocations, ended by `release`, gives upstream back
      exactly what it provided. */
  method Session(upstream: Resource, limits: Limits, opts: Options, operations: seq<Operation>)
    requires upstream.Valid() && limits.Sound()
    requires forall op :: op in operations && op.Allocate? ==> ValidRequest(op.request)
    modifies upstream
    ensures upstream.Valid() && upstream.grants == old(upstream.grants)
  {
    var resource := new PoolResource(upstream, limits, opts);
    var held: map<Address, Request> := map[];
    assert Foreign(upstream.grants, resource.books.owner) == old(upstream.grants);
    for k := 0 to |operations|
      invariant resource.Valid() && resource.upstream == upstream && held == resource.books.live
      invariant fresh(resource.Repr() - {upstream})
      invariant Foreign(upstream.grants, resource.books.owner) == old(upstream.grants)
    {
      assert operations[k] in operations;
      held := Perform(resource, held, operations[k]);
    }
    resource.Release();
  }

  lemma ForeignClears(grants: map<Address, Grant>, owner: Owners, gone: set<Address>)
    requires gone <= owner.Keys
    ensures Foreign(grants - gone, owner - gone) == Foreign(grants, owner)
  {
    assert (owner - gone).Keys == owner.Keys - gone;
  }

  /** The size of the latest chunk of a chain, with its footer. */
  ghost function LatestSize(chain: seq<Chunk>): nat { if chain == [] then 0 else chain[0].Size() }

  /** What upstream has granted to others. */
  ghost function Foreign(grants: map<Address, Grant>, owner: Owners): map<Address, Grant>
  {
    grants - owner.Keys
  }

  lemma ForeignKeeps(grants: map<Address, Grant>, owner: Owners, p: Address, g: Grant, i: nat)
    requires p !in grants
    ensures Foreign(grants[p := g], owner[p := i]) == Foreign(grants, owner)
  {
  }

  lemma AdhocGrant(p: Address, r: Request)
    ensures Chunk(p, RoundUp(r.bytes, FOOTER_ALIGN), RaisedAlign(r.align)).AsGrant() ==
            Grant(RoundUp(r.bytes, FOOTER_ALIGN) + FOOTER_SIZE, RaisedAlign(r.align))
  {
  }

  ghost predicate ColumnBlank(b: Books, i: nat)
    requires i < |b.chains| && i < |b.vacants| && i < |b.useds|
  {
    b.chains[i] == [] && b.vacants[i] == [] && b.useds[i] == {}
  }

  ghost predicate Unused(pool: FixedPool, plan: Plan, i: nat)
    reads pool, pool.chunks
  {
    && pool.Valid() && pool.chunks.chain == [] && pool.vacant == [] && pool.used == {}
    && pool.size == plan.BlockSize(i) && pool.align == plan.limits.maxAlign
  }

  lemma BlockSizeRoomy(plan: Plan, i: nat)
    requires plan.Sound()
    ensures Multiple(plan.BlockSize(i), FOOTER_ALIGN)
  {
    Pow2Divides(plan.limits.log2Smallest, i + plan.limits.log2Smallest);
    MultipleTransitive(plan.BlockSize(i), plan.limits.Smallest(), FOOTER_ALIGN);
  }
}
