/** One size class of the pool resource: chunks cut into equal blocks, and an intrusive list
    that threads the vacant ones. */
module FixedPools {
  import opened Arithmetic
  import opened Upstream
  import opened ChunkList

  // ----- Blocks -----

  /** p is one of the blocks that chunk c is cut into. */
  predicate IsBlock(p: Address, c: Chunk, size: nat)
    requires size > 0
  {
    c.start <= p && p + size <= c.Foot() && (p - c.start) % size == 0
  }

  ghost function Blocks(chain: seq<Chunk>, size: nat): set<Address>
    requires size > 0
  {
    set c, p | c in chain && c.start <= p < c.Foot() && IsBlock(p, c, size) :: p
  }

  /** The chunk is cut into blocks without a rest, from aligned ground up. */
  predicate WellCut(c: Chunk, size: nat, align: nat)
  {
    c.capacity > 0 && Multiple(c.capacity, size) && c.start != 0 && Multiple(c.start, align) && c.align == align
  }

  lemma SameChunkApart(c: Chunk, size: nat, p: Address, q: Address)
    requires size > 0 && IsBlock(p, c, size) && IsBlock(q, c, size) && p < q
    ensures p + size <= q
  {
    var i, j := (p - c.start) / size, (q - c.start) / size;
    assert p - c.start == size * i && q - c.start == size * j;
    if j <= i {
      TimesMonotone(size, j, i);
    } else {
      TimesMonotone(size, i + 1, j);
      TimesSuccessor(size, i);
    }
  }

  lemma ChunkOf(chain: seq<Chunk>, size: nat, p: Address) returns (c: Chunk)
    requires size > 0 && p in Blocks(chain, size)
    ensures c in chain && IsBlock(p, c, size)
  {
    c :| c in chain && IsBlock(p, c, size);
  }

  /** Different blocks of one pool do not overlap. */
  lemma BlocksApart(chain: seq<Chunk>, size: nat, p: Address, q: Address)
    requires size > 0 && ChunksApart(chain) && p in Blocks(chain, size) && q in Blocks(chain, size) && p != q
    ensures Apart(p, size, q, size)
  {
    var c := ChunkOf(chain, size, p);
    var d := ChunkOf(chain, size, q);
    if c != d {
      MembersApart(chain, c, d);
    } else if p < q {
      SameChunkApart(c, size, p, q);
    } else {
      SameChunkApart(c, size, q, p);
    }
  }

  lemma MembersApart(chain: seq<Chunk>, c: Chunk, d: Chunk)
    requires ChunksApart(chain) && c in chain && d in chain && c != d
    ensures Apart(c.start, c.Size(), d.start, d.Size())
  {
    var i :| 0 <= i < |chain| && chain[i] == c;
    var j :| 0 <= j < |chain| && chain[j] == d;
    if i < j {
      assert Apart(chain[i].start, chain[i].Size(), chain[j].start, chain[j].Size());
    } else {
      assert Apart(chain[j].start, chain[j].Size(), chain[i].start, chain[i].Size());
    }
  }

  // ----- The vacancy list -----

  type Headers = map<Address, Address>

  ghost predicate Threaded(first: Address, headers: Headers, vacant: seq<Address>)
    decreases |vacant|
  {
    if vacant == [] then first == 0
    else first == vacant[0] && first != 0 && first in headers && Threaded(headers[first], headers, vacant[1..])
  }

  ghost predicate Distinct(s: seq<Address>) { forall i, j :: 0 <= i < j < |s| ==> s[i] != s[j] }

  lemma {:induction false} ThreadedFrame(first: Address, headers: Headers, at: Address, next: Address, vacant: seq<Address>)
    requires Threaded(first, headers, vacant) && at !in vacant
    ensures Threaded(first, headers[at := next], vacant)
    decreases |vacant|
  {
    if vacant != [] {
      ThreadedFrame(headers[first], headers, at, next, vacant[1..]);
    }
  }

  lemma PushVacancy(first: Address, headers: Headers, vacant: seq<Address>, p: Address)
    requires Threaded(first, headers, vacant) && Distinct(vacant) && p !in vacant && p != 0
    ensures Threaded(p, headers[p := first], [p] + vacant) && Distinct([p] + vacant)
  {
    ThreadedFrame(first, headers, p, first, vacant);
    assert ([p] + vacant)[1..] == vacant;
  }

  // ----- The pool -----

  /** What holds between the chunks of a pool, its idle blocks and its blocks in use. */
  ghost predicate Partitioned(chain: seq<Chunk>, size: nat, vacant: seq<Address>, used: set<Address>)
    requires size > 0
  {
    && Distinct(vacant)
    && (forall p :: p in vacant ==> p !in used)
    && (forall p :: p in Blocks(chain, size) <==> p in vacant || p in used)
  }

  lemma NewChunkBlocks(chain: seq<Chunk>, size: nat, c: Chunk, p: Address)
    requires size > 0
    ensures p in Blocks([c] + chain, size) <==>
            (c.start <= p < c.Foot() && IsBlock(p, c, size)) || p in Blocks(chain, size)
  {
    assert c in [c] + chain;
    assert forall d :: d in [c] + chain <==> d == c || d in chain;
  }

  lemma OldBlocksElsewhere(chain: seq<Chunk>, size: nat, c: Chunk, p: Address)
    requires size > 0 && ChunksApart([c] + chain) && p in Blocks(chain, size)
    ensures p < c.start || c.Foot() <= p
  {
    var d := ChunkOf(chain, size, p);
    var i :| 0 <= i < |chain| && chain[i] == d;
    var all := [c] + chain;
    assert all[i + 1] == d;
    assert Apart(all[0].start, all[0].Size(), all[i + 1].start, all[i + 1].Size());
  }

  /** While a new chunk is cut, the list holds the old vacancies and the blocks below offset i. */
  ghost predicate Carved(list: seq<Address>, vacant: seq<Address>, c: Chunk, size: nat, i: nat)
    requires size > 0
  {
    forall p: Address :: p in list <==> p in vacant || (IsBlock(p, c, size) && c.start < p < c.start + i)
  }

  ghost predicate Outside(vacant: seq<Address>, c: Chunk)
  {
    forall q :: q in vacant ==> q < c.start || c.Foot() <= q
  }

  lemma VacantOutside(chain: seq<Chunk>, size: nat, vacant: seq<Address>, used: set<Address>, c: Chunk)
    requires size > 0 && Partitioned(chain, size, vacant, used) && ChunksApart([c] + chain)
    ensures Outside(vacant, c)
  {
    forall q | q in vacant ensures q < c.start || c.Foot() <= q {
      OldBlocksElsewhere(chain, size, c, q);
    }
  }

  lemma CarveNone(vacant: seq<Address>, c: Chunk, size: nat)
    requires size > 0 && c.capacity > 0 && Multiple(c.capacity, size)
    ensures Carved(vacant, vacant, c, size, size) && size <= c.capacity
  {
    OffsetIsBlock(c, size, 0);
    forall p: Address | IsBlock(p, c, size) && c.start < p ensures c.start + size <= p {
      SameChunkApart(c, size, c.start, p);
    }
  }

  lemma CarveMore(list: seq<Address>, vacant: seq<Address>, c: Chunk, size: nat, i: nat)
    requires size > 0 && Carved(list, vacant, c, size, i) && Outside(vacant, c)
    requires 0 < i < c.capacity && Multiple(c.capacity, size) && Multiple(i, size)
    ensures Carved([c.start + i] + list, vacant, c, size, i + size)
    ensures c.start + i !in list && i + size <= c.capacity && Multiple(i + size, size)
  {
    OffsetIsBlock(c, size, i);
    MultipleSum(i, size, size);
    var list' := [c.start + i] + list;
    forall p: Address ensures p in list' <==> p in vacant || (IsBlock(p, c, size) && c.start < p < c.start + i + size) {
      assert p in list' <==> p == c.start + i || p in list;
      if IsBlock(p, c, size) && c.start + i < p {
        SameChunkApart(c, size, c.start + i, p);
      }
    }
  }

  lemma OffsetIsBlock(c: Chunk, size: nat, i: nat)
    requires size > 0 && Multiple(c.capacity, size) && Multiple(i, size) && i < c.capacity
    ensures IsBlock(c.start + i, c, size)
  {
    var m, n := i / size, c.capacity / size;
    assert i == size * m && c.capacity == size * n;
    if n <= m {
      TimesMonotone(size, n, m);
    } else {
      TimesMonotone(size, m + 1, n);
      TimesSuccessor(size, m);
    }
  }

  /** The cut chunk joins the pool: its first block is in use, all its others are vacant. */
  lemma NewChunkPartitioned(chain: seq<Chunk>, size: nat, vacant: seq<Address>, used: set<Address>, c: Chunk, list: seq<Address>)
    requires size > 0 && Partitioned(chain, size, vacant, used) && ChunksApart([c] + chain)
    requires c.capacity > 0 && Multiple(c.capacity, size)
    requires Distinct(list) && Carved(list, vacant, c, size, c.capacity)
    ensures Partitioned([c] + chain, size, list, used + {c.start})
    ensures c.start !in used && c.start !in vacant
  {
    OffsetIsBlock(c, size, 0);
    forall p | p in Blocks(chain, size) ensures p < c.start || c.Foot() <= p {
      OldBlocksElsewhere(chain, size, c, p);
    }
    assert c.start !in Blocks(chain, size);
    forall p: Address ensures p in Blocks([c] + chain, size) <==> p in list || p in used + {c.start} {
      NewChunkBlocks(chain, size, c, p);
    }
    assert forall p :: p in used ==> p in Blocks(chain, size);
  }

  class FixedPool {
    const size: nat                       // the block size of the pool's class
    const align: nat                      // __default_alignment
    const chunks: Chunks                  // __first_chunk_
    var firstVacancy: Address
    var headers: Headers
    ghost var vacant: seq<Address>
    ghost var used: set<Address>

    ghost predicate Valid()
      reads this, chunks
    {
      && size > 0 && Multiple(size, FOOTER_ALIGN) && align > 0
      && chunks.Valid()
      && (forall c :: c in chunks.chain ==> WellCut(c, size, align))
      && Threaded(firstVacancy, headers, vacant)
      && Partitioned(chunks.chain, size, vacant, used)
    }

    constructor (size: nat, align: nat)
      requires size > 0 && Multiple(size, FOOTER_ALIGN) && align > 0
      ensures Valid() && fresh(chunks) && this.size == size && this.align == align
      ensures chunks.chain == [] && vacant == [] && used == {}
    {
      this.size, this.align := size, align;
      chunks := new Chunks();
      firstVacancy, headers, vacant, used := 0, map[], [], {};
    }

    /** `__try_allocate_from_vacancies`: null exactly when there is no vacancy. */
    method TryAllocateFromVacancies() returns (p: Address)
      requires Valid()
      modifies this
      ensures Valid()
      ensures p == 0 <==> old(vacant) == []
      ensures p == 0 ==> used == old(used) && vacant == []
      ensures p != 0 ==> p !in old(used) && used == old(used) + {p} && old(vacant) == [p] + vacant
    {
      p := firstVacancy;
      if firstVacancy != 0 {
        firstVacancy := headers[firstVacancy];
        used := used + {p};
        assert vacant == [p] + vacant[1..];
        vacant := vacant[1..];
        assert forall i :: 0 <= i < |vacant| ==> vacant[i] == old(vacant)[i + 1];
        assert forall q :: q in old(vacant) <==> q == p || q in vacant;
      }
    }

    /** `__evacuate` */
    method Evacuate(p: Address)
      requires Valid() && p in used
      modifies this
      ensures Valid() && used == old(used) - {p} && vacant == [p] + old(vacant)
    {
      assert p in Blocks(chunks.chain, size);
      assert p !in vacant;
      BlockIsNotNull(chunks.chain, size, align, p);
      PushVacancy(firstVacancy, headers, vacant, p);
      headers := headers[p := firstVacancy];
      firstVacancy := p;
      vacant := [p] + vacant;
      used := used - {p};
    }

    /** `__allocate_in_new_chunk` */
    method AllocateInNewChunk(upstream: Resource, chunkSize: nat) returns (p: Address)
      requires Valid() && upstream.Valid() && Granted(upstream.grants, chunks.chain)
      requires chunkSize > 0 && Multiple(chunkSize, size)
      modifies this, chunks, upstream
      ensures Valid() && upstream.Valid() && Granted(upstream.grants, chunks.chain)
      ensures p != 0 && p !in old(used) && used == old(used) + {p}
      ensures chunks.chain == [Chunk(p, chunkSize, align)] + old(chunks.chain)
      ensures p !in old(upstream.grants)
      ensures upstream.grants == old(upstream.grants)[p := Grant(chunkSize + FOOTER_SIZE, align)]
    {
      MultipleTransitive(chunkSize, size, FOOTER_ALIGN);
      RoundUpMultiple(chunkSize, FOOTER_ALIGN);
      var c := chunks.AddChunk(upstream, RoundUp(chunkSize, FOOTER_ALIGN), align);
      p := c.start;
      ghost var rest := chunks.chain[1..];
      VacantOutside(rest, size, vacant, used, c);
      ghost var list := Carve(c);
      NewChunkPartitioned(rest, size, vacant, used, c, list);
      vacant := list;
      used := used + {p};
    }

    /** The loop that threads all but the first block of the new chunk. */
    method Carve(c: Chunk) returns (ghost list: seq<Address>)
      requires size > 0 && c.start != 0 && c.capacity > 0 && Multiple(c.capacity, size)
      requires Threaded(firstVacancy, headers, vacant) && Distinct(vacant) && Outside(vacant, c)
      modifies this`headers, this`firstVacancy
      ensures Threaded(firstVacancy, headers, list) && Distinct(list)
      ensures Carved(list, vacant, c, size, c.capacity)
    {
      CarveNone(vacant, c, size);
      var last: Address := firstVacancy;
      list := vacant;
      var i: nat := size;
      while i != c.capacity
        invariant size <= i <= c.capacity && Multiple(i, size)
        invariant Threaded(last, headers, list) && Distinct(list)
        invariant Carved(list, vacant, c, size, i)
        decreases c.capacity - i
      {
        var vh: Address := c.start + i;
        CarveMore(list, vacant, c, size, i);
        PushVacancy(last, headers, list, vh);
        headers := headers[vh := last];
        list := [vh] + list;
        last := vh;
        i := i + size;
      }
      firstVacancy := last;
    }

    /** `__release_ptr` */
    method ReleasePtr(upstream: Resource)
      requires Valid() && upstream.Valid() && Granted(upstream.grants, chunks.chain)
      modifies this, chunks, upstream
      ensures Valid() && upstream.Valid() && chunks.chain == [] && vacant == [] && used == {}
      ensures upstream.grants == old(upstream.grants) - Starts(old(chunks.chain))
    {
      firstVacancy := 0;
      vacant, used := [], {};
      chunks.Release(upstream);
    }

    /** `__previous_chunk_size_in_bytes` */
    method PreviousChunkSizeInBytes() returns (bytes: nat)
      requires Valid()
      ensures bytes == if chunks.chain == [] then 0 else chunks.chain[0].Size()
    {
      if chunks.first != 0 {
        bytes := chunks.AllocationSize(chunks.first, 0);
      } else {
        bytes := 0;
      }
    }
  }

  lemma BlockIsNotNull(chain: seq<Chunk>, size: nat, align: nat, p: Address)
    requires size > 0 && p in Blocks(chain, size) && forall c :: c in chain ==> WellCut(c, size, align)
    ensures p != 0
  {
    var c := ChunkOf(chain, size, p);
  }
}
