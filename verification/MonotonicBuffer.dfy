/** `monotonic_buffer_resource`: blocks are carved downwards from an initial buffer and then from
    ever larger chunks. */
module MonotonicBuffers {
  import opened Arithmetic
  import opened Upstream
  import opened ChunkList
  import opened SizeClasses

  const GROWTH := 2

  // ----- Spans and blocks, as values -----

  /** Memory from `start` to `end`, carved from the end down to `cur`. */
  datatype Span = Span(start: Address, cur: Address, end: Address)
  {
    ghost predicate Ordered() { start <= cur <= end }
  }

  /** A block handed out of span `home`. */
  datatype Block = Block(p: Address, bytes: nat, align: nat, home: nat)

  ghost predicate Holds(s: Span, b: Block)
  {
    s.cur <= b.p && b.p + b.bytes <= s.end && Multiple(b.p, b.align)
  }

  ghost predicate SpanPair(s: Span, t: Span)
  {
    s.Ordered() && t.Ordered() && Apart(s.start, s.end - s.start, t.start, t.end - t.start)
  }

  ghost predicate SpansApart(spans: seq<Span>)
  {
    && (forall i :: 0 <= i < |spans| ==> spans[i].Ordered())
    && forall i, j :: 0 <= i < j < |spans| ==> SpanPair(spans[i], spans[j])
  }

  ghost predicate AllHeld(spans: seq<Span>, blocks: seq<Block>)
  {
    forall k :: 0 <= k < |blocks| ==> blocks[k].home < |spans| && Holds(spans[blocks[k].home], blocks[k])
  }

  ghost predicate BlockPair(b: Block, c: Block) { Apart(b.p, b.bytes, c.p, c.bytes) }

  ghost predicate BlocksApart(blocks: seq<Block>)
  {
    forall i, j :: 0 <= i < j < |blocks| ==> BlockPair(blocks[i], blocks[j])
  }

  ghost predicate Tidy(spans: seq<Span>, blocks: seq<Block>)
  {
    SpansApart(spans) && AllHeld(spans, blocks) && BlocksApart(blocks)
  }

  /** Carving a block off a span leaves everything in order. */
  lemma CarveTidy(spans: seq<Span>, blocks: seq<Block>, b: Block)
    requires Tidy(spans, blocks) && b.home < |spans|
    requires spans[b.home].start <= b.p && b.p + b.bytes <= spans[b.home].cur && Multiple(b.p, b.align)
    ensures Tidy(spans[b.home := spans[b.home].(cur := b.p)], blocks + [b])
  {
    var h := b.home;
    var spans', blocks' := spans[h := spans[h].(cur := b.p)], blocks + [b];
    assert spans[h].Ordered();
    forall i, j | 0 <= i < j < |spans'| ensures SpanPair(spans'[i], spans'[j]) {
      assert SpanPair(spans[i], spans[j]);
    }
    forall k | 0 <= k < |blocks| ensures Holds(spans'[blocks[k].home], blocks[k]) && BlockPair(blocks[k], b) {
      assert Holds(spans[blocks[k].home], blocks[k]);
      HomesApart(spans, blocks[k].home, h);
    }
    forall i, j | 0 <= i < j < |blocks'| ensures BlockPair(blocks'[i], blocks'[j]) {
      assert j < |blocks| ==> BlockPair(blocks[i], blocks[j]);
    }
  }

  lemma HomesApart(spans: seq<Span>, i: nat, j: nat)
    requires SpansApart(spans) && i < |spans| && j < |spans|
    ensures i != j ==> Apart(spans[i].start, spans[i].end - spans[i].start, spans[j].start, spans[j].end - spans[j].start)
    ensures spans[i].Ordered()
  {
    if i < j {
      assert SpanPair(spans[i], spans[j]);
    } else if j < i {
      assert SpanPair(spans[j], spans[i]);
    }
  }

  lemma AddSpanTidy(spans: seq<Span>, blocks: seq<Block>, s: Span)
    requires Tidy(spans, blocks) && s.Ordered()
    requires forall i :: 0 <= i < |spans| ==> SpanPair(spans[i], s)
    ensures Tidy(spans + [s], blocks)
  {
    var spans' := spans + [s];
    forall i, j | 0 <= i < j < |spans'| ensures SpanPair(spans'[i], spans'[j]) {
      assert j < |spans| ==> SpanPair(spans[i], spans[j]);
    }
    forall k | 0 <= k < |blocks| ensures Holds(spans'[blocks[k].home], blocks[k]) {
      assert Holds(spans[blocks[k].home], blocks[k]);
    }
  }

  ghost predicate SpanMatches(s: Span, c: Chunk)
  {
    s.start == c.start && s.end == c.Foot() && c.start > 0
  }

  /** The spans after the first are the chunks, from the last of the chain to its first. */
  ghost predicate SpansMatch(spans: seq<Span>, chain: seq<Chunk>)
  {
    && |spans| == |chain| + 1
    && forall i :: 0 <= i < |chain| ==> SpanMatches(spans[|chain| - i], chain[i])
  }

  lemma PushSpan(spans: seq<Span>, chain: seq<Chunk>, c: Chunk, s: Span)
    requires SpansMatch(spans, chain) && SpanMatches(s, c)
    ensures SpansMatch(spans + [s], [c] + chain)
  {
    var spans', chain' := spans + [s], [c] + chain;
    forall i | 0 <= i < |chain'| ensures SpanMatches(spans'[|chain'| - i], chain'[i]) {
      if i > 0 {
        assert SpanMatches(spans[|chain| - (i - 1)], chain[i - 1]);
      }
    }
  }

  /** A chunk apart from the initial buffer and from all the other chunks is apart from every span. */
  lemma NewSpanPairs(spans: seq<Span>, chain: seq<Chunk>, s: Span, size: nat)
    requires SpansMatch(spans, chain) && SpansApart(spans) && s.Ordered() && s.end <= s.start + size
    requires forall d :: d in chain ==> Apart(d.start, d.Size(), s.start, size)
    requires spans[0].end == 0 || Apart(spans[0].start, spans[0].end - spans[0].start, s.start, size)
    ensures forall i :: 0 <= i < |spans| ==> SpanPair(spans[i], s)
  {
    forall i | 0 <= i < |spans| ensures SpanPair(spans[i], s) {
      assert spans[i].Ordered();
      if i > 0 {
        var d := chain[|chain| - i];
        assert SpanMatches(spans[|chain| - (|chain| - i)], d) && d in chain;
      }
    }
  }

  // ----- Alignment -----

  /** The mask `~(align - 1)`. */
  function DownTo(n: nat, align: nat): (r: nat)
    requires align > 0
    ensures r <= n && n < r + align && Multiple(r, align)
  {
    MultipleOf(Quotient(n, align), align);
    align * Quotient(n, align)
  }

  lemma DownToIsGreatest(n: nat, align: nat, m: nat)
    requires Multiple(m, align) && m <= n
    ensures m <= DownTo(n, align)
  {
    var q, k: nat := Quotient(n, align), m / align;
    assert m == align * k;
    if q < k {
      TimesMonotone(align, q + 1, k);
      TimesSuccessor(align, q);
    }
  }

  /** No aligned block of this size fits between the start and the cursor. */
  ghost predicate NoRoom(start: Address, cur: Address, size: nat, align: nat)
  {
    forall m: nat :: Multiple(m, align) && start <= m ==> cur < m + size
  }

  /** The highest aligned block below the cursor begins at p. */
  ghost predicate Highest(p: Address, cur: Address, size: nat, align: nat)
  {
    p + size <= cur && Multiple(p, align) && forall m: nat :: Multiple(m, align) && m + size <= cur ==> m <= p
  }

  /** `align_down`: carves as little as possible from ptr, with `space` bytes free below it; null if
      they do not suffice, and only then. */
  method AlignDown(align: nat, size: nat, ptr: Address, space: nat) returns (p: Address)
    requires align > 0 && space < ptr
    ensures p != 0 ==> ptr - space <= p && Highest(p, ptr, size, align)
    ensures p == 0 ==> NoRoom(ptr - space, ptr, size, align)
  {
    if size > space {
      return 0;
    }
    p := DownTo(ptr - size, align);
    forall m: nat | Multiple(m, align) && m + size <= ptr ensures m <= p {
      DownToIsGreatest(ptr - size, align, m);
    }
    if p < ptr - space {
      p := 0;
    }
  }

  // ----- Growth -----

  function NextSize(bytes: nat, previous: nat): nat
    requires previous >= FOOTER_SIZE
  {
    var size := RoundUp(bytes, FOOTER_ALIGN) + FOOTER_SIZE;
    if size <= previous then RoundUp(GROWTH * (previous - FOOTER_SIZE), FOOTER_ALIGN) + FOOTER_SIZE else size
  }

  /** Enough for the request and its footer, no less than the previous chunk, and room for the footer
      at a multiple of its alignment. If the request would have fitted a chunk like the previous one, the
      room is twice as much as there, and otherwise as much as was asked for, but for the rounding. */
  lemma NextSizeSuffices(bytes: nat, previous: nat)
    requires previous >= FOOTER_SIZE
    ensures NextSize(bytes, previous) >= previous && NextSize(bytes, previous) >= bytes + FOOTER_SIZE
    ensures Multiple(NextSize(bytes, previous) - FOOTER_SIZE, FOOTER_ALIGN)
    ensures var room, before := NextSize(bytes, previous) - FOOTER_SIZE, previous - FOOTER_SIZE;
            if RoundUp(bytes, FOOTER_ALIGN) <= before then 2 * before <= room < 2 * before + FOOTER_ALIGN
            else bytes <= room < bytes + FOOTER_ALIGN
  {
  }

  class MonotonicBuffer {
    const upstream: Resource               // __res_
    const initialStart: Address            // __initial_
    const initialEnd: Address
    const initialSize: nat
    var initialCur: Address
    const chunks: Chunks                   // __chunks_
    var curs: map<Address, Address>        // __cur_ of each footer
    ghost var spans: seq<Span>             // the initial buffer, then the chunks from first to last
    ghost var blocks: seq<Block>

    ghost predicate Valid()
      reads this, upstream, chunks
    {
      && upstream.Valid() && chunks.Valid() && Granted(upstream.grants, chunks.chain)
      && Tidy(spans, blocks)
      && SpansMatch(spans, chunks.chain)
      && spans[0] == Span(initialStart, initialCur, initialEnd) && initialStart <= initialEnd
      && (initialCur == 0 <==> initialStart == 0) && (initialStart == 0 ==> initialEnd == 0)
      && (initialStart != 0 ==> initialStart in upstream.grants && upstream.grants[initialStart].size == initialEnd - initialStart)
      && (chunks.first != 0 ==> chunks.first in curs && spans[|chunks.chain|].cur == curs[chunks.first])
    }

    /** The initial buffer, if there is one, is memory upstream will not provide again. */
    constructor (upstream: Resource, buffer: Address, size: nat)
      requires upstream.Valid()
      requires buffer != 0 ==> buffer in upstream.grants && upstream.grants[buffer].size == size
      ensures Valid() && blocks == [] && this.upstream == upstream && fresh(chunks)
      ensures chunks.chain == [] && initialStart == buffer && (buffer != 0 ==> initialEnd == buffer + size) && initialSize == size
    {
      this.upstream := upstream;
      initialStart, initialSize := buffer, size;
      initialEnd := if buffer == 0 then 0 else buffer + size;
      initialCur := if buffer == 0 then 0 else buffer + size;
      chunks := new Chunks();
      curs := map[];
      spans := [if buffer == 0 then Span(0, 0, 0) else Span(buffer, buffer + size, buffer + size)];
      blocks := [];
    }

    /** The initial buffer, or the latest chunk, is not there or has no room. */
    ghost predicate InitialExhausted(bytes: nat, align: nat)
      reads this
    {
      initialCur == 0 || NoRoom(initialStart, initialCur, bytes, align)
    }

    ghost predicate LatestExhausted(bytes: nat, align: nat)
      reads this, chunks
    {
      chunks.chain == [] || (|spans| > |chunks.chain| &&
        NoRoom(spans[|chunks.chain|].start, spans[|chunks.chain|].cur, bytes, align))
    }

    /** `__try_allocate_from_chunk` on the initial buffer. */
    method TryInitial(bytes: nat, align: nat) returns (p: Address)
      requires Valid() && align > 0
      modifies this`initialCur, this`spans, this`blocks
      ensures Valid()
      ensures p == 0 ==> blocks == old(blocks) && spans == old(spans) && InitialExhausted(bytes, align)
      ensures p != 0 ==> Highest(p, old(initialCur), bytes, align) && spans == old(spans)[0 := old(spans)[0].(cur := p)]
      ensures p != 0 ==> blocks == old(blocks) + [Block(p, bytes, align, 0)]
    {
      if initialCur == 0 {
        return 0;
      }
      assert spans[0].Ordered();
      p := AlignDown(align, bytes, initialCur, initialCur - initialStart);
      if p != 0 {
        CarveTidy(spans, blocks, Block(p, bytes, align, 0));
        initialCur := p;
        spans := spans[0 := spans[0].(cur := p)];
        blocks := blocks + [Block(p, bytes, align, 0)];
      }
    }

    /** `__try_allocate_from_chunk` on the latest chunk. It succeeds whenever the chunk is still whole
        and made for the request. */
    method TryLatest(bytes: nat, align: nat) returns (p: Address)
      requires Valid() && align > 0 && chunks.first != 0
      modifies this`curs, this`spans, this`blocks
      ensures Valid()
      ensures p == 0 ==> blocks == old(blocks) && spans == old(spans) && LatestExhausted(bytes, align)
      ensures p != 0 ==> Highest(p, old(curs[chunks.first]), bytes, align)
      ensures p != 0 ==> spans == old(spans)[|chunks.chain| := old(spans)[|chunks.chain|].(cur := p)]
      ensures p != 0 ==> blocks == old(blocks) + [Block(p, bytes, align, |chunks.chain|)]
      ensures var c := chunks.chain[0];
              old(curs[chunks.first]) == c.Foot() && bytes <= c.capacity && Multiple(c.start, align) ==> p != 0
    {
      LinkedAt(chunks.first, chunks.footers, chunks.chain, 0);
      ghost var h := |chunks.chain|;
      assert SpanMatches(spans[h - 0], chunks.chain[0]) && spans[h].Ordered();
      var cur := curs[chunks.first];
      p := AlignDown(align, bytes, cur, cur - chunks.footers[chunks.first].start);
      if p != 0 {
        CarveTidy(spans, blocks, Block(p, bytes, align, h));
        curs := curs[chunks.first := p];
        spans := spans[h := spans[h].(cur := p)];
        blocks := blocks + [Block(p, bytes, align, h)];
      }
    }

    ghost function PreviousSize(): nat
      requires initialStart <= initialEnd
      reads chunks
    {
      if chunks.chain != [] then chunks.chain[0].Size()
      else RoundUp(if initialStart != 0 then initialEnd - initialStart else initialSize, FOOTER_ALIGN) + FOOTER_SIZE
    }

    /** The size of the latest chunk, or what a chunk in place of the initial buffer would take. */
    method PreviousAllocationSize() returns (size: nat)
      requires Valid()
      ensures size == PreviousSize() && size >= FOOTER_SIZE
      ensures chunks.chain != [] ==> size == chunks.chain[0].capacity + FOOTER_SIZE
      ensures var n := if initialStart != 0 then initialEnd - initialStart else initialSize;
              chunks.chain == [] ==> n <= size - FOOTER_SIZE < n + FOOTER_ALIGN
    {
      if chunks.first != 0 {
        size := chunks.AllocationSize(chunks.first, 0);
      } else {
        var newSize: nat := if initialStart != 0 then initialEnd - initialStart else initialSize;
        size := RoundUp(newSize, FOOTER_ALIGN) + FOOTER_SIZE;
      }
    }

    /** A new chunk, whole, becomes the latest. */
    method AddSpan(capacity: nat, align: nat)
      requires Valid() && align > 0
      modifies this`curs, this`spans, upstream, chunks
      ensures Valid() && chunks.first != 0 && blocks == old(blocks)
      ensures |spans| == |old(spans)| + 1 && spans[..|old(spans)|] == old(spans)
      ensures |chunks.chain| > 0 && chunks.chain[1..] == old(chunks.chain)
      ensures var c := chunks.chain[0];
              curs[chunks.first] == c.Foot() && c.capacity == capacity && c.align == align && Multiple(c.start, align)
    {
      var c := chunks.AddChunk(upstream, capacity, align);
      LinkedAt(chunks.first, chunks.footers, chunks.chain, 0);
      ghost var s := Span(c.start, c.Foot(), c.Foot());
      NewSpanPairs(spans, old(chunks.chain), s, c.Size());
      AddSpanTidy(spans, blocks, s);
      PushSpan(spans, old(chunks.chain), c, s);
      curs := curs[chunks.first := c.Foot()];
      spans := spans + [s];
    }

    method NextChunkSize(bytes: nat) returns (size: nat)
      requires Valid()
      ensures PreviousSize() >= FOOTER_SIZE && size == NextSize(bytes, PreviousSize())
    {
      size := RoundUp(bytes, FOOTER_ALIGN) + FOOTER_SIZE;
      var previous := PreviousAllocationSize();
      if size <= previous {
        var newSize: nat := GROWTH * (previous - FOOTER_SIZE);
        size := RoundUp(newSize, FOOTER_ALIGN) + FOOTER_SIZE;
      }
    }

    /** `do_allocate`: never null; the block is aligned, inside one span, and apart from all blocks
        before it. */
    method DoAllocate(bytes: nat, align: nat) returns (p: Address, ghost b: Block)
      requires Valid() && IsPow2(align)
      modifies this, upstream, chunks
      ensures Valid() && p != 0 && Multiple(p, align) && old(PreviousSize()) >= FOOTER_SIZE
      ensures b.p == p && b.bytes == bytes && blocks == old(blocks) + [b]
      ensures b.home < |spans| && Holds(spans[b.home], b)
      ensures forall k :: 0 <= k < |old(blocks)| ==> BlockPair(old(blocks)[k], b)
      ensures chunks.chain == old(chunks.chain) ||
              (&& |chunks.chain| > 0 && chunks.chain[1..] == old(chunks.chain)
               && chunks.chain[0].Size() == NextSize(bytes, old(PreviousSize())) && chunks.chain[0].align == RaisedAlign(align)
               && old(InitialExhausted(bytes, align)) && old(LatestExhausted(bytes, align)))
      ensures !old(InitialExhausted(bytes, align)) ==> b.home == 0 && Highest(p, old(initialCur), bytes, align)
      ensures old(InitialExhausted(bytes, align)) ==> b.home == |chunks.chain| > 0
      ensures forall i :: 0 <= i < |old(spans)| && i < |spans| && i != b.home ==> spans[i] == old(spans)[i]
    {
      p := TryInitial(bytes, align);
      if p != 0 {
        b := Block(p, bytes, align, 0);
      } else {
        p, b := AllocateFromChunks(bytes, align);
      }
      BlockIsNew(spans, blocks, old(blocks), b);
    }

    method AllocateFromChunks(bytes: nat, align: nat) returns (p: Address, ghost b: Block)
      requires Valid() && IsPow2(align)
      modifies this, upstream, chunks
      ensures Valid() && p != 0 && Multiple(p, align) && old(PreviousSize()) >= FOOTER_SIZE
      ensures b.p == p && b.bytes == bytes && blocks == old(blocks) + [b]
      ensures chunks.chain == old(chunks.chain) ||
              (&& |chunks.chain| > 0 && chunks.chain[1..] == old(chunks.chain)
               && chunks.chain[0].Size() == NextSize(bytes, old(PreviousSize())) && chunks.chain[0].align == RaisedAlign(align)
               && old(LatestExhausted(bytes, align)))
      ensures b.home == |chunks.chain| > 0 && |spans| >= |old(spans)|
      ensures forall i :: 0 <= i < |old(spans)| && i != b.home ==> spans[i] == old(spans)[i]
    {
      if chunks.first != 0 {
        p := TryLatest(bytes, align);
        if p != 0 {
          b := Block(p, bytes, align, |chunks.chain|);
          LatestAligned(b);
          return;
        }
      }
      var larger := RaisedAlign(align);
      var size := NextChunkSize(bytes);
      NextSizeSuffices(bytes, PreviousSize());
      AddSpan(size - FOOTER_SIZE, larger);
      p := TryLatest(bytes, larger);
      b := Block(p, bytes, larger, |chunks.chain|);
      LatestAligned(b);
      RaisedAligned(align, p);
    }

    lemma LatestAligned(b: Block)
      requires Valid() && |blocks| > 0 && blocks[|blocks| - 1] == b
      ensures Multiple(b.p, b.align)
    {
      assert Holds(spans[b.home], b);
    }
  }

  lemma BlockIsNew(spans: seq<Span>, blocks: seq<Block>, before: seq<Block>, b: Block)
    requires Tidy(spans, blocks) && blocks == before + [b]
    ensures b.home < |spans| && Holds(spans[b.home], b) && Multiple(b.p, b.align)
    ensures forall k :: 0 <= k < |before| ==> BlockPair(before[k], b)
  {
    assert blocks[|before|] == b;
    forall k | 0 <= k < |before| ensures BlockPair(before[k], b) {
      assert BlockPair(blocks[k], blocks[|before|]);
    }
  }
}
