/** The pool for requests that no size class serves: one chunk for each. */
module AdhocPools {
  import opened Arithmetic
  import opened Upstream
  import opened ChunkList
  import opened SizeClasses

  /** `__adhoc_pool::__do_allocate` */
  method DoAllocate(pool: Chunks, upstream: Resource, bytes: nat, align: nat) returns (p: Address, ghost c: Chunk)
    requires pool.Valid() && upstream.Valid() && Granted(upstream.grants, pool.chain)
    modifies pool, upstream
    ensures pool.Valid() && upstream.Valid() && Granted(upstream.grants, pool.chain)
    ensures pool.chain == [c] + old(pool.chain) && p != 0
    ensures c == Chunk(p, RoundUp(bytes, FOOTER_ALIGN), RaisedAlign(align)) && Multiple(p, c.align)
    ensures p !in old(upstream.grants) && upstream.grants == old(upstream.grants)[p := c.AsGrant()]
  {
    var larger := RaisedAlign(align);
    var chunk := pool.AddChunk(upstream, RoundUp(bytes, FOOTER_ALIGN), larger);
    p := chunk.start;
    c := chunk;
  }

  /** `__adhoc_pool::__do_deallocate` */
  method DoDeallocate(pool: Chunks, upstream: Resource, p: Address, ghost k: nat)
    requires pool.Valid() && upstream.Valid() && Granted(upstream.grants, pool.chain)
    requires k < |pool.chain| && pool.chain[k].start == p
    modifies pool, upstream
    ensures pool.Valid() && upstream.Valid() && Granted(upstream.grants, pool.chain)
    ensures pool.chain == Without(old(pool.chain), k) && upstream.grants == old(upstream.grants) - {p}
  {
    LinkedAt(pool.first, pool.footers, pool.chain, 0);
    FeetDistinct(pool.chain, 0, k);
    if pool.footers[pool.first].start == p {
      assert Without(pool.chain, 0) == pool.chain[1..];
      pool.ReleaseFirst(upstream);
    } else {
      pool.ReleaseLater(upstream, p, k);
    }
  }
}
