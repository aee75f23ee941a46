/** The list of chunks both kinds of pool keep: each chunk ends in a footer that links to the
    next one and remembers where the chunk starts. Footers are addressed like the memory they
    live in. */
module ChunkList {
  import opened Arithmetic
  import opened Upstream

  /** The memory at one footer. */
  datatype Footer = Footer(next: Address, start: Address, align: nat)

  /** A chunk as it was obtained: `capacity` usable bytes, then the footer. */
  datatype Chunk = Chunk(start: Address, capacity: nat, align: nat)
  {
    function Foot(): Address { start + capacity }
    function Size(): nat { capacity + FOOTER_SIZE }
    function AsGrant(): Grant { Grant(Size(), align) }
  }

  type Footers = map<Address, Footer>

  /** From address `first` on, the footers link the chunks of the sequence in order. */
  ghost predicate Linked(first: Address, footers: Footers, chain: seq<Chunk>)
    decreases |chain|
  {
    if chain == [] then first == 0
    else
      && first == chain[0].Foot() && first != 0 && first in footers
      && footers[first].start == chain[0].start && footers[first].align == chain[0].align
      && Linked(footers[first].next, footers, chain[1..])
  }

  ghost predicate ChunksApart(chain: seq<Chunk>)
  {
    forall i, j :: 0 <= i < j < |chain| ==> Apart(chain[i].start, chain[i].Size(), chain[j].start, chain[j].Size())
  }

  ghost function Starts(chain: seq<Chunk>): set<Address> { set c | c in chain :: c.start }

  /** Upstream has granted the chunks and not got them back. */
  ghost predicate Granted(grants: map<Address, Grant>, chain: seq<Chunk>)
  {
    forall c :: c in chain ==> c.start in grants && grants[c.start] == c.AsGrant()
  }

  /** Footers outside the chain do not matter to it. */
  lemma {:induction false} LinkedFrame(first: Address, footers: Footers, footers': Footers, chain: seq<Chunk>)
    requires Linked(first, footers, chain)
    requires forall c :: c in chain && c.Foot() in footers ==>
               c.Foot() in footers' && footers'[c.Foot()] == footers[c.Foot()]
    ensures Linked(first, footers', chain)
    decreases |chain|
  {
    if chain != [] {
      assert chain[0] in chain;
      LinkedFrame(footers[first].next, footers, footers', chain[1..]);
    }
  }

  lemma FeetDistinct(chain: seq<Chunk>, i: nat, j: nat)
    requires ChunksApart(chain) && i < |chain| && j < |chain|
    ensures i != j ==> chain[i].Foot() != chain[j].Foot() && chain[i].start != chain[j].start
  {
    if i < j {
      assert Apart(chain[i].start, chain[i].Size(), chain[j].start, chain[j].Size());
    } else if j < i {
      assert Apart(chain[j].start, chain[j].Size(), chain[i].start, chain[i].Size());
    }
  }

  /** A new chunk in front of the chain, its footer written over whatever was there. */
  lemma PushLinked(first: Address, footers: Footers, chain: seq<Chunk>, c: Chunk)
    requires Linked(first, footers, chain) && ChunksApart([c] + chain) && c.Foot() != 0
    ensures Linked(c.Foot(), footers[c.Foot() := Footer(first, c.start, c.align)], [c] + chain)
  {
    var footers' := footers[c.Foot() := Footer(first, c.start, c.align)];
    forall d | d in chain ensures d.Foot() != c.Foot() {
      var i :| 0 <= i < |chain| && chain[i] == d;
      assert ([c] + chain)[i + 1] == d;
      FeetDistinct([c] + chain, 0, i + 1);
    }
    LinkedFrame(first, footers, footers', chain);
    assert ([c] + chain)[1..] == chain;
  }

  function Without(chain: seq<Chunk>, k: nat): seq<Chunk>
    requires k < |chain|
  {
    chain[..k] + chain[k + 1..]
  }

  function Redirect(footers: Footers, h: Address, next: Address): Footers
    requires h in footers
  {
    footers[h := footers[h].(next := next)]
  }

  lemma TailApart(chain: seq<Chunk>)
    requires ChunksApart(chain) && chain != []
    ensures ChunksApart(chain[1..])
  {
    var rest := chain[1..];
    forall i, j | 0 <= i < j < |rest| ensures Apart(rest[i].start, rest[i].Size(), rest[j].start, rest[j].Size()) {
      assert rest[i] == chain[i + 1] && rest[j] == chain[j + 1];
    }
  }

  /** Redirecting the first footer past the second chunk drops that chunk. */
  lemma UnlinkSecond(first: Address, footers: Footers, chain: seq<Chunk>)
    requires Linked(first, footers, chain) && ChunksApart(chain) && |chain| > 1
    ensures Linked(footers[first].next, footers, chain[1..])
    ensures Linked(first, Redirect(footers, first, footers[footers[first].next].next), [chain[0]] + chain[2..])
  {
    var second := footers[first].next;
    var rest := chain[1..];
    assert Linked(second, footers, rest);
    assert rest[1..] == chain[2..];
    var footers' := Redirect(footers, first, footers[second].next);
    forall d | d in chain[2..] ensures d.Foot() != first {
      var i :| 2 <= i < |chain| && chain[i] == d;
      FeetDistinct(chain, 0, i);
    }
    LinkedFrame(footers[second].next, footers, footers', chain[2..]);
    var short := [chain[0]] + chain[2..];
    assert short[1..] == chain[2..];
  }

  /** Unlinking chunk k by redirecting the footer before it. */
  lemma {:induction false} UnlinkLinked(first: Address, footers: Footers, chain: seq<Chunk>, k: nat)
    requires Linked(first, footers, chain) && ChunksApart(chain) && 1 <= k < |chain|
    requires chain[k - 1].Foot() in footers && chain[k].Foot() in footers
    ensures Linked(first, Redirect(footers, chain[k - 1].Foot(), footers[chain[k].Foot()].next), Without(chain, k))
    decreases |chain|
  {
    if k == 1 {
      UnlinkSecond(first, footers, chain);
      assert chain[1].Foot() == footers[first].next by {
        assert Linked(footers[first].next, footers, chain[1..]);
      }
      assert Without(chain, 1) == [chain[0]] + chain[2..];
    } else {
      var rest := chain[1..];
      TailApart(chain);
      FeetDistinct(chain, 0, k - 1);
      UnlinkLinked(footers[first].next, footers, rest, k - 1);
      assert Without(chain, k)[1..] == Without(rest, k - 1);
    }
  }

  lemma WithoutFacts(chain: seq<Chunk>, k: nat)
    requires ChunksApart(chain) && k < |chain|
    ensures ChunksApart(Without(chain, k))
    ensures chain[k].start !in Starts(Without(chain, k))
    ensures Starts(chain) == Starts(Without(chain, k)) + {chain[k].start}
    ensures forall c :: c in Without(chain, k) ==> c in chain
  {
    var w := Without(chain, k);
    forall i | 0 <= i < |w| ensures w[i] == chain[if i < k then i else i + 1] && w[i].start != chain[k].start {
      FeetDistinct(chain, if i < k then i else i + 1, k);
    }
    forall c | c in chain ensures c in w || c == chain[k] {
      var i :| 0 <= i < |chain| && chain[i] == c;
      if i != k {
        assert w[if i < k then i else i - 1] == c;
      }
    }
  }

  /** Giving back one chunk leaves the others granted. */
  lemma StillGranted(grants: map<Address, Grant>, chain: seq<Chunk>, k: nat)
    requires Granted(grants, chain) && ChunksApart(chain) && k < |chain|
    ensures Granted(grants - {chain[k].start}, Without(chain, k)) && ChunksApart(Without(chain, k))
  {
    WithoutFacts(chain, k);
    forall c | c in Without(chain, k) ensures c.start != chain[k].start {
      assert c.start in Starts(Without(chain, k));
    }
  }

  /** Chunk k of a chain is found at its footer, which links to the next one. */
  lemma {:induction false} LinkedAt(first: Address, footers: Footers, chain: seq<Chunk>, k: nat)
    requires Linked(first, footers, chain) && k < |chain|
    ensures var h := chain[k].Foot();
            && h != 0 && h in footers && footers[h].start == chain[k].start && footers[h].align == chain[k].align
            && footers[h].next == (if k + 1 < |chain| then chain[k + 1].Foot() else 0)
    ensures first == chain[0].Foot()
    decreases |chain|
  {
    if k > 0 {
      LinkedAt(footers[first].next, footers, chain[1..], k - 1);
    } else if |chain| > 1 {
      LinkedAt(footers[first].next, footers, chain[1..], 0);
    }
  }

  class Chunks {
    var first: Address           // __first_, __first_chunk_
    var footers: Footers
    ghost var chain: seq<Chunk>

    ghost predicate Valid()
      reads this
    {
      Linked(first, footers, chain) && ChunksApart(chain)
    }

    constructor ()
      ensures Valid() && chain == []
    {
      first, footers, chain := 0, map[], [];
    }

    /** `__allocation_size`: the footer of a chunk at h gives back the size it was obtained with. */
    method AllocationSize(h: Address, ghost k: nat) returns (size: nat)
      requires Valid() && k < |chain| && h == chain[k].Foot()
      ensures size == chain[k].Size()
    {
      LinkedAt(first, footers, chain, k);
      size := h - footers[h].start + FOOTER_SIZE;
    }

    /** Get a chunk from upstream, write its footer and put it in front of the list. */
    method AddChunk(upstream: Resource, capacity: nat, align: nat) returns (c: Chunk)
      requires Valid() && upstream.Valid() && Granted(upstream.grants, chain) && align > 0
      modifies this, upstream
      ensures Valid() && upstream.Valid() && Granted(upstream.grants, chain)
      ensures chain == [c] + old(chain) && c.capacity == capacity && c.align == align
      ensures c.start != 0 && Multiple(c.start, align)
      ensures c.start !in old(upstream.grants) && upstream.grants == old(upstream.grants)[c.start := c.AsGrant()]
      ensures forall q :: q in old(upstream.grants) ==> Apart(q, old(upstream.grants)[q].size, c.start, c.Size())
    {
      var start := upstream.Allocate(capacity + FOOTER_SIZE, align);
      c := Chunk(start, capacity, align);
      forall d | d in chain ensures Apart(d.start, d.Size(), c.start, c.Size()) {
      }
      PushLinked(first, footers, chain, c);
      footers := footers[c.Foot() := Footer(first, start, align)];
      first := c.Foot();
      chain := [c] + chain;
    }

    /** Take the first chunk off and give it back: one turn of `__release_ptr`, and the first
        case of `__do_deallocate`. */
    method ReleaseFirst(upstream: Resource)
      requires Valid() && upstream.Valid() && Granted(upstream.grants, chain) && first != 0
      modifies this, upstream
      ensures Valid() && upstream.Valid() && Granted(upstream.grants, chain)
      ensures |old(chain)| > 0 && chain == old(chain)[1..]
      ensures upstream.grants == old(upstream.grants) - {old(chain)[0].start}
    {
      LinkedAt(first, footers, chain, 0);
      assert chain[0] in chain;
      var footer := footers[first];
      var size := AllocationSize(first, 0);
      upstream.Deallocate(footer.start, size, footer.align);
      StillGranted(old(upstream.grants), chain, 0);
      assert Without(chain, 0) == chain[1..];
      first := footer.next;
      chain := chain[1..];
    }

    /** `__release_ptr`: every chunk goes back, each once, as it was obtained. */
    method Release(upstream: Resource)
      requires Valid() && upstream.Valid() && Granted(upstream.grants, chain)
      modifies this, upstream
      ensures Valid() && upstream.Valid() && first == 0 && chain == []
      ensures upstream.grants == old(upstream.grants) - Starts(old(chain))
    {
      while first != 0
        invariant Valid() && upstream.Valid() && Granted(upstream.grants, chain)
        invariant upstream.grants == old(upstream.grants) - (Starts(old(chain)) - Starts(chain))
        invariant Starts(chain) <= Starts(old(chain))
        decreases |chain|
      {
        WithoutFacts(chain, 0);
        assert Without(chain, 0) == chain[1..];
        ReleaseFirst(upstream);
      }
    }

    /** The search of `__do_deallocate`: the footer before the one of the chunk that starts at p. */
    method FindBefore(p: Address, ghost k: nat) returns (h: Address)
      requires Valid() && 1 <= k < |chain| && chain[k].start == p
      ensures h == chain[k - 1].Foot()
    {
      h := first;
      ghost var i := 0;
      LinkedAt(first, footers, chain, 0);
      LinkedAt(first, footers, chain, 1);
      while footers[footers[h].next].start != p
        invariant 0 <= i < k && h == chain[i].Foot() && h in footers
        invariant footers[h].next == chain[i + 1].Foot() && footers[h].next in footers
        invariant footers[footers[h].next].start == chain[i + 1].start
        decreases k - i
      {
        h := footers[h].next;
        i := i + 1;
        LinkedAt(first, footers, chain, i);
        LinkedAt(first, footers, chain, i + 1);
      }
      FeetDistinct(chain, i + 1, k);
    }

    /** Unlink a chunk behind the first and give it back: the loop of `__do_deallocate`. */
    method ReleaseLater(upstream: Resource, p: Address, ghost k: nat)
      requires Valid() && upstream.Valid() && Granted(upstream.grants, chain)
      requires 1 <= k < |chain| && chain[k].start == p
      modifies this, upstream
      ensures Valid() && upstream.Valid() && Granted(upstream.grants, chain)
      ensures chain == Without(old(chain), k) && upstream.grants == old(upstream.grants) - {p}
    {
      var h := FindBefore(p, k);
      LinkedAt(first, footers, chain, k - 1);
      LinkedAt(first, footers, chain, k);
      UnlinkLinked(first, footers, chain, k);
      assert chain[k] in chain;
      StillGranted(upstream.grants, chain, k);
      var found := footers[h].next;
      var next := footers[found].next;
      var size := AllocationSize(found, k);
      upstream.Deallocate(p, size, footers[found].align);
      footers := Redirect(footers, h, next);
      chain := Without(chain, k);
    }
  }
}
