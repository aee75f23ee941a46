/** What a pool resource owns and what it has lent out, as values: chains 0 to n - 1 belong to the
    size classes, chain n to the ad hoc pool. */
module PoolBooks {
  import opened Arithmetic
  import opened Upstream
  import opened ChunkList
  import opened FixedPools
  import opened SizeClasses

  const POOL_SIZE := 16        // sizeof and alignof of a fixed pool: two pointers
  const POOL_ALIGN := 8

  type Owners = map<Address, nat>

  ghost predicate OwnedAs(grants: map<Address, Grant>, owner: Owners, c: Chunk, i: nat)
  {
    c.start in owner && owner[c.start] == i && c.start in grants && grants[c.start] == c.AsGrant()
  }

  ghost predicate Rightful(chains: seq<seq<Chunk>>, table: Address, a: Address, i: nat)
  {
    if i < |chains| then a in Starts(chains[i]) else a == table && i == |chains|
  }

  /** Every upstream block the resource holds has exactly one owner: a chain it is a chunk of, or
      the resource itself for the table of pools. */
  ghost predicate Own(grants: map<Address, Grant>, owner: Owners, chains: seq<seq<Chunk>>, table: Address)
  {
    && |chains| > 0
    && (forall i, c :: 0 <= i < |chains| && c in chains[i] ==> OwnedAs(grants, owner, c, i))
    && (forall a :: a in owner ==> a in grants && Rightful(chains, table, a, owner[a]))
    && (table != 0 ==> TableGranted(grants, owner, |chains|, table))
  }

  ghost predicate TableGranted(grants: map<Address, Grant>, owner: Owners, n: nat, table: Address)
  {
    && table in owner && owner[table] == n && table in grants
    && n > 0 && grants[table] == Grant((n - 1) * POOL_SIZE, POOL_ALIGN)
  }

  lemma OwnedGranted(grants: map<Address, Grant>, owner: Owners, chains: seq<seq<Chunk>>, table: Address, i: nat)
    requires Own(grants, owner, chains, table) && i < |chains|
    ensures Granted(grants, chains[i])
  {
    forall c | c in chains[i] ensures c.start in grants && grants[c.start] == c.AsGrant() {
      assert OwnedAs(grants, owner, c, i);
    }
  }

  lemma OwnAdd(grants: map<Address, Grant>, owner: Owners, chains: seq<seq<Chunk>>, table: Address, i: nat, c: Chunk)
    requires Own(grants, owner, chains, table) && i < |chains| && c.start !in grants
    ensures Own(grants[c.start := c.AsGrant()], owner[c.start := i], chains[i := [c] + chains[i]], table)
  {
    var chains' := chains[i := [c] + chains[i]];
    forall j, d | 0 <= j < |chains'| && d in chains'[j]
      ensures OwnedAs(grants[c.start := c.AsGrant()], owner[c.start := i], d, j) {
      assert (j == i && d == c) || d in chains[j];
      assert (d == c && j == i) || OwnedAs(grants, owner, d, j);
    }
    var owner' := owner[c.start := i];
    forall a | a in owner' ensures Rightful(chains', table, a, owner'[a]) {
      if a == c.start {
        assert c in chains'[i];
      } else {
        assert Rightful(chains, table, a, owner[a]);
        if owner[a] == i {
          var d :| d in chains[i] && d.start == a;
          assert d in chains'[i];
        }
      }
    }
  }

  lemma OwnRemove(grants: map<Address, Grant>, owner: Owners, chains: seq<seq<Chunk>>, table: Address, i: nat, k: nat)
    requires Own(grants, owner, chains, table) && i < |chains| && k < |chains[i]| && ChunksApart(chains[i])
    ensures var p := chains[i][k].start;
            Own(grants - {p}, owner - {p}, chains[i := Without(chains[i], k)], table)
  {
    var p := chains[i][k].start;
    var chains' := chains[i := Without(chains[i], k)];
    WithoutFacts(chains[i], k);
    assert OwnedAs(grants, owner, chains[i][k], i);
    forall j, d | 0 <= j < |chains'| && d in chains'[j] ensures OwnedAs(grants - {p}, owner - {p}, d, j) {
      assert OwnedAs(grants, owner, d, j);
      if j == i {
        assert d.start in Starts(Without(chains[i], k));
      }
    }
    forall a | a in owner - {p} ensures Rightful(chains', table, a, (owner - {p})[a]) {
      assert Rightful(chains, table, a, owner[a]);
    }
  }

  lemma OwnClear(grants: map<Address, Grant>, owner: Owners, chains: seq<seq<Chunk>>, table: Address, i: nat)
    requires Own(grants, owner, chains, table) && i < |chains|
    ensures Own(grants - Starts(chains[i]), owner - Starts(chains[i]), chains[i := []], table)
    ensures Starts(chains[i]) <= owner.Keys
  {
    var gone := Starts(chains[i]);
    var chains' := chains[i := []];
    forall a | a in gone ensures a in owner && owner[a] == i {
      var c :| c in chains[i] && c.start == a;
      assert OwnedAs(grants, owner, c, i);
    }
    forall j, d | 0 <= j < |chains'| && d in chains'[j] ensures OwnedAs(grants - gone, owner - gone, d, j) {
      assert OwnedAs(grants, owner, d, j);
    }
    forall a | a in owner - gone ensures Rightful(chains', table, a, (owner - gone)[a]) {
      assert Rightful(chains, table, a, owner[a]);
    }
  }

  lemma OwnTable(grants: map<Address, Grant>, owner: Owners, chains: seq<seq<Chunk>>, table: Address)
    requires Own(grants, owner, chains, 0) && 0 !in grants && table !in grants && table != 0
    ensures Own(grants[table := Grant((|chains| - 1) * POOL_SIZE, POOL_ALIGN)], owner[table := |chains|], chains, table)
  {
    var grants' := grants[table := Grant((|chains| - 1) * POOL_SIZE, POOL_ALIGN)];
    var owner' := owner[table := |chains|];
    forall j, d | 0 <= j < |chains| && d in chains[j] ensures OwnedAs(grants', owner', d, j) {
      assert OwnedAs(grants, owner, d, j);
    }
    forall a | a in owner' ensures Rightful(chains, table, a, owner'[a]) {
      assert a == table || (Rightful(chains, 0, a, owner[a]) && a in grants);
    }
  }

  lemma OwnNoTable(grants: map<Address, Grant>, owner: Owners, chains: seq<seq<Chunk>>, table: Address)
    requires Own(grants, owner, chains, table) && table != 0
    ensures Own(grants - {table}, owner - {table}, chains, 0)
  {
    forall j, d | 0 <= j < |chains| && d in chains[j] ensures OwnedAs(grants - {table}, owner - {table}, d, j) {
      assert OwnedAs(grants, owner, d, j);
    }
    forall a | a in owner - {table} ensures Rightful(chains, 0, a, (owner - {table})[a]) {
      assert Rightful(chains, table, a, owner[a]);
    }
  }

  lemma OwnNothing(grants: map<Address, Grant>, owner: Owners, chains: seq<seq<Chunk>>)
    requires Own(grants, owner, chains, 0) && 0 !in grants && forall i :: 0 <= i < |chains| ==> chains[i] == []
    ensures owner == map[]
  {
    assert forall a :: a !in owner;
  }

  // ----- Blocks lent out -----

  /** The chunk made for an ad hoc request. */
  ghost predicate MadeFor(c: Chunk, r: Request)
  {
    c.capacity == RoundUp(r.bytes, FOOTER_ALIGN) && c.align == RaisedAlign(r.align) && Multiple(c.start, c.align) && c.start != 0
  }

  ghost predicate LentBy(plan: Plan, r: Request, i: nat) { ValidRequest(r) && PoolIndexOf(plan, r) == i }

  /** The live blocks are the blocks the size classes have in use and the chunks of the ad hoc pool. */
  ghost predicate Lent(plan: Plan, live: map<Address, Request>, adhoc: seq<Chunk>, useds: seq<set<Address>>)
  {
    && |useds| == plan.numPools
    && (forall i, p :: 0 <= i < |useds| && p in useds[i] ==> p in live && LentBy(plan, live[p], i))
    && (forall c :: c in adhoc ==> c.start in live && LentBy(plan, live[c.start], plan.numPools) && MadeFor(c, live[c.start]))
    && (forall p :: p in live ==> LentFrom(plan, live[p], p, adhoc, useds))
  }

  ghost predicate LentFrom(plan: Plan, r: Request, p: Address, adhoc: seq<Chunk>, useds: seq<set<Address>>)
    requires |useds| == plan.numPools
  {
    var i := PoolIndexOf(plan, r);
    ValidRequest(r) && i <= plan.numPools && if i == plan.numPools then p in Starts(adhoc) else p in useds[i]
  }

  lemma LendBlock(plan: Plan, live: map<Address, Request>, adhoc: seq<Chunk>, useds: seq<set<Address>>, i: nat, p: Address, r: Request)
    requires plan.Sound() && Lent(plan, live, adhoc, useds) && LentBy(plan, r, i) && i < |useds| && p !in live
    ensures Lent(plan, live[p := r], adhoc, useds[i := useds[i] + {p}])
  {
    var live', useds' := live[p := r], useds[i := useds[i] + {p}];
    forall q | q in live' ensures LentFrom(plan, live'[q], q, adhoc, useds') {
      assert q == p || LentFrom(plan, live[q], q, adhoc, useds);
    }
  }

  lemma LendChunk(plan: Plan, live: map<Address, Request>, adhoc: seq<Chunk>, useds: seq<set<Address>>, c: Chunk, r: Request)
    requires plan.Sound() && Lent(plan, live, adhoc, useds) && LentBy(plan, r, plan.numPools) && MadeFor(c, r) && c.start !in live
    ensures Lent(plan, live[c.start := r], [c] + adhoc, useds)
  {
    var live', adhoc' := live[c.start := r], [c] + adhoc;
    assert forall d :: d in adhoc' <==> d == c || d in adhoc;
    assert Starts(adhoc') == Starts(adhoc) + {c.start};
    forall q | q in live' ensures LentFrom(plan, live'[q], q, adhoc', useds) {
      assert q == c.start || LentFrom(plan, live[q], q, adhoc, useds);
    }
  }

  lemma ReturnBlock(plan: Plan, live: map<Address, Request>, adhoc: seq<Chunk>, useds: seq<set<Address>>, i: nat, p: Address)
    requires plan.Sound() && Lent(plan, live, adhoc, useds) && i < |useds| && p in useds[i]
    ensures Lent(plan, live - {p}, adhoc, useds[i := useds[i] - {p}])
  {
    var live', useds' := live - {p}, useds[i := useds[i] - {p}];
    assert LentBy(plan, live[p], i);
    forall c | c in adhoc ensures c.start in live' {
      assert LentBy(plan, live[c.start], plan.numPools);
    }
    forall j, q | 0 <= j < |useds'| && q in useds'[j] ensures q in live' && LentBy(plan, live'[q], j) {
      assert LentBy(plan, live[q], j);
    }
    forall q | q in live' ensures LentFrom(plan, live'[q], q, adhoc, useds') {
      assert LentFrom(plan, live[q], q, adhoc, useds);
    }
  }

  lemma ReturnChunk(plan: Plan, live: map<Address, Request>, adhoc: seq<Chunk>, useds: seq<set<Address>>, k: nat)
    requires plan.Sound() && Lent(plan, live, adhoc, useds) && ChunksApart(adhoc) && k < |adhoc|
    ensures Lent(plan, live - {adhoc[k].start}, Without(adhoc, k), useds)
  {
    var p := adhoc[k].start;
    var live', adhoc' := live - {p}, Without(adhoc, k);
    WithoutFacts(adhoc, k);
    assert adhoc[k] in adhoc;
    assert LentBy(plan, live[p], plan.numPools);
    forall c | c in adhoc' ensures c.start in live' {
      assert c.start in Starts(adhoc');
    }
    forall j, q | 0 <= j < |useds| && q in useds[j] ensures q in live' {
      assert LentBy(plan, live[q], j);
    }
    forall q | q in live' ensures LentFrom(plan, live'[q], q, adhoc', useds) {
      assert LentFrom(plan, live[q], q, adhoc, useds);
    }
  }

  // ----- Where the blocks lie -----

  /** The chunks of every class are cut into blocks of its size, each either vacant or in use. */
  ghost predicate Laid(plan: Plan, chains: seq<seq<Chunk>>, vacants: seq<seq<Address>>, useds: seq<set<Address>>)
  {
    && |chains| == plan.numPools + 1 && |vacants| == |useds| == plan.numPools
    && (forall i :: 0 <= i < |chains| ==> ChunksApart(chains[i]))
    && (forall i :: 0 <= i < |useds| ==> ClassLaid(plan, i, chains[i], vacants[i], useds[i]))
  }

  ghost predicate ClassLaid(plan: Plan, i: nat, chain: seq<Chunk>, vacant: seq<Address>, used: set<Address>)
  {
    && Partitioned(chain, plan.BlockSize(i), vacant, used)
    && forall c :: c in chain ==> WellCut(c, plan.BlockSize(i), plan.limits.maxAlign)
  }

  /** A live block lies in a chunk of its class, below the footer, as large and as aligned as asked. */
  ghost predicate InChunk(c: Chunk, p: Address, r: Request)
  {
    c.start <= p && p + r.bytes <= c.Foot() && p < c.Foot() + FOOTER_SIZE && Multiple(p, r.align) && p != 0
  }

  lemma LiveBlockInChunk(plan: Plan, live: map<Address, Request>, chains: seq<seq<Chunk>>, vacants: seq<seq<Address>>,
                         useds: seq<set<Address>>, p: Address)
    returns (i: nat, c: Chunk)
    requires plan.Sound() && Laid(plan, chains, vacants, useds) && p in live
    requires Lent(plan, live, chains[plan.numPools], useds)
    ensures i < |chains| && i == PoolIndexOf(plan, live[p]) && c in chains[i] && InChunk(c, p, live[p])
    ensures if i == plan.numPools then p == c.start else p in useds[i] && p in Blocks(chains[i], plan.BlockSize(i))
  {
    i := PoolIndexOf(plan, live[p]);
    var n := plan.numPools;
    assert LentFrom(plan, live[p], p, chains[n], useds);
    if i == n {
      c :| c in chains[n] && c.start == p;
      assert MadeFor(c, live[p]);
      RaisedAligned(live[p].align, p);
    } else {
      assert ClassLaid(plan, i, chains[i], vacants[i], useds[i]);
      c := ChunkOf(chains[i], plan.BlockSize(i), p);
      PoolIndexFits(plan, live[p]);
      BlockAligned(plan, live[p], i, c.start, p);
    }
  }

  lemma ChunksOfResourceApart(grants: map<Address, Grant>, owner: Owners, chains: seq<seq<Chunk>>, table: Address,
                              i: nat, c: Chunk, j: nat, d: Chunk)
    requires Own(grants, owner, chains, table) && GrantsApart(grants)
    requires i < |chains| && j < |chains| && c in chains[i] && d in chains[j]
    requires forall k :: 0 <= k < |chains| ==> ChunksApart(chains[k])
    ensures (i == j && c == d) || Apart(c.start, c.Size(), d.start, d.Size())
  {
    assert OwnedAs(grants, owner, c, i);
    assert OwnedAs(grants, owner, d, j);
    assert ApartIn(grants, c.start, d.start);
    if i == j && c != d {
      MembersApart(chains[i], c, d);
    }
  }

  /** Live blocks do not overlap, and no two share an address even when empty. */
  lemma LiveBlocksApart(plan: Plan, grants: map<Address, Grant>, owner: Owners, table: Address, live: map<Address, Request>,
                        chains: seq<seq<Chunk>>, vacants: seq<seq<Address>>, useds: seq<set<Address>>, p: Address, q: Address)
    requires plan.Sound() && Laid(plan, chains, vacants, useds)
    requires Own(grants, owner, chains, table) && GrantsApart(grants)
    requires Lent(plan, live, chains[plan.numPools], useds)
    requires p in live && q in live && p != q
    ensures Apart(p, live[p].bytes, q, live[q].bytes)
  {
    var i, c := LiveBlockInChunk(plan, live, chains, vacants, useds, p);
    var j, d := LiveBlockInChunk(plan, live, chains, vacants, useds, q);
    ChunksOfResourceApart(grants, owner, chains, table, i, c, j, d);
    if i == j && c == d {
      PoolIndexFits(plan, live[p]);
      PoolIndexFits(plan, live[q]);
      BlocksApart(chains[i], plan.BlockSize(i), p, q);
    }
  }

  /** A block that is not in use is not live. */
  lemma VacantNotLive(plan: Plan, grants: map<Address, Grant>, owner: Owners, table: Address, live: map<Address, Request>,
                      chains: seq<seq<Chunk>>, vacants: seq<seq<Address>>, useds: seq<set<Address>>, i: nat, p: Address)
    requires plan.Sound() && Laid(plan, chains, vacants, useds)
    requires Own(grants, owner, chains, table) && GrantsApart(grants)
    requires Lent(plan, live, chains[plan.numPools], useds)
    requires i < plan.numPools && p in vacants[i]
    ensures p !in live
  {
    assert ClassLaid(plan, i, chains[i], vacants[i], useds[i]);
    var c := ChunkOf(chains[i], plan.BlockSize(i), p);
    if p in live {
      var j, d := LiveBlockInChunk(plan, live, chains, vacants, useds, p);
      ChunksOfResourceApart(grants, owner, chains, table, i, c, j, d);
      assert false;
    }
  }

  lemma GrantedApart(grants: map<Address, Grant>, grants': map<Address, Grant>, p: Address)
    requires GrantsApart(grants') && p in grants' && p !in grants && grants' == grants[p := grants'[p]]
    ensures forall q :: q in grants ==> Apart(q, grants[q].size, p, grants'[p].size)
  {
    forall q | q in grants ensures Apart(q, grants[q].size, p, grants'[p].size) {
      assert q in grants' && grants'[q] == grants[q];
      assert ApartIn(grants', p, q);
    }
  }

  /** Nor is an address that upstream has not granted a chunk at. */
  lemma FreshNotLive(plan: Plan, grants: map<Address, Grant>, owner: Owners, table: Address, live: map<Address, Request>,
                     chains: seq<seq<Chunk>>, vacants: seq<seq<Address>>, useds: seq<set<Address>>, p: Address, size: nat)
    requires plan.Sound() && Laid(plan, chains, vacants, useds)
    requires Own(grants, owner, chains, table)
    requires Lent(plan, live, chains[plan.numPools], useds)
    requires size > 0 && forall q :: q in grants ==> Apart(q, grants[q].size, p, size)
    ensures p !in live
  {
    if p in live {
      var j, d := LiveBlockInChunk(plan, live, chains, vacants, useds, p);
      assert false;
    }
  }

  // ----- The books of a pool resource -----

  /** Chunks, idle blocks and blocks in use of every class, the blocks lent out, the owners of the
      upstream blocks held, and the table of pools (0 before it is made). */
  datatype Books = Books(
    chains: seq<seq<Chunk>>, vacants: seq<seq<Address>>, useds: seq<set<Address>>,
    live: map<Address, Request>, owner: Owners, table: Address)

  ghost predicate Booked(plan: Plan, grants: map<Address, Grant>, b: Books)
  {
    && plan.Sound() && Laid(plan, b.chains, b.vacants, b.useds)
    && Own(grants, b.owner, b.chains, b.table)
    && Lent(plan, b.live, b.chains[plan.numPools], b.useds)
  }

  lemma BlankBooked(plan: Plan, grants: map<Address, Grant>)
    requires plan.Sound()
    ensures Booked(plan, grants, Blank(plan))
  {
  }

  lemma BookTable(plan: Plan, grants: map<Address, Grant>, b: Books, t: Address)
    requires Booked(plan, grants, b) && b.table == 0 && 0 !in grants && t !in grants && t != 0
    ensures Booked(plan, grants[t := Grant(plan.numPools * POOL_SIZE, POOL_ALIGN)],
                   b.(table := t, owner := b.owner[t := plan.numPools + 1]))
  {
    OwnTable(grants, b.owner, b.chains, t);
  }

  ghost function Blank(plan: Plan): Books
  {
    Books(seq(plan.numPools + 1, i => []), seq(plan.numPools, i => []), seq(plan.numPools, i => {}), map[], map[], 0)
  }

  ghost function WithAdhocChunk(plan: Plan, b: Books, c: Chunk, r: Request): Books
    requires |b.chains| == plan.numPools + 1
  {
    var n := plan.numPools;
    b.(chains := b.chains[n := [c] + b.chains[n]], owner := b.owner[c.start := n], live := b.live[c.start := r])
  }

  lemma BookAdhocChunk(plan: Plan, grants: map<Address, Grant>, grants': map<Address, Grant>, b: Books, c: Chunk, r: Request)
    requires Booked(plan, grants, b) && GrantsApart(grants')
    requires c.start !in grants && grants' == grants[c.start := c.AsGrant()]
    requires ChunksApart([c] + b.chains[plan.numPools]) && MadeFor(c, r) && LentBy(plan, r, plan.numPools)
    ensures c.start !in b.live && Booked(plan, grants', WithAdhocChunk(plan, b, c, r))
  {
    GrantedApart(grants, grants', c.start);
    FreshNotLive(plan, grants, b.owner, b.table, b.live, b.chains, b.vacants, b.useds, c.start, c.Size());
    OwnAdd(grants, b.owner, b.chains, b.table, plan.numPools, c);
    LendChunk(plan, b.live, b.chains[plan.numPools], b.useds, c, r);
  }

  ghost function WithoutAdhocChunk(plan: Plan, b: Books, k: nat): Books
    requires |b.chains| == plan.numPools + 1 && k < |b.chains[plan.numPools]|
  {
    var n := plan.numPools;
    var p := b.chains[n][k].start;
    b.(chains := b.chains[n := Without(b.chains[n], k)], owner := b.owner - {p}, live := b.live - {p})
  }

  lemma UnbookAdhocChunk(plan: Plan, grants: map<Address, Grant>, b: Books, k: nat)
    requires Booked(plan, grants, b) && k < |b.chains[plan.numPools]|
    ensures Booked(plan, grants - {b.chains[plan.numPools][k].start}, WithoutAdhocChunk(plan, b, k))
  {
    OwnRemove(grants, b.owner, b.chains, b.table, plan.numPools, k);
    ReturnChunk(plan, b.live, b.chains[plan.numPools], b.useds, k);
    WithoutFacts(b.chains[plan.numPools], k);
  }

  /** The books after class i lent p to request r: its vacancies are `vacant` now. */
  ghost function WithBlock(b: Books, i: nat, vacant: seq<Address>, p: Address, r: Request): Books
    requires i < |b.vacants| && i < |b.useds|
  {
    b.(vacants := b.vacants[i := vacant], useds := b.useds[i := b.useds[i] + {p}], live := b.live[p := r])
  }

  lemma BookVacancy(plan: Plan, grants: map<Address, Grant>, b: Books, i: nat, vacant: seq<Address>, p: Address, r: Request)
    requires Booked(plan, grants, b) && GrantsApart(grants) && i < plan.numPools && LentBy(plan, r, i)
    requires b.vacants[i] == [p] + vacant && ClassLaid(plan, i, b.chains[i], vacant, b.useds[i] + {p})
    ensures p !in b.live && Booked(plan, grants, WithBlock(b, i, vacant, p, r))
  {
    VacantNotLive(plan, grants, b.owner, b.table, b.live, b.chains, b.vacants, b.useds, i, p);
    LendBlock(plan, b.live, b.chains[plan.numPools], b.useds, i, p, r);
  }

  ghost function WithChunk(b: Books, i: nat, c: Chunk): Books
    requires i < |b.chains|
  {
    b.(chains := b.chains[i := [c] + b.chains[i]], owner := b.owner[c.start := i])
  }

  lemma BookNewChunk(plan: Plan, grants: map<Address, Grant>, grants': map<Address, Grant>, b: Books,
                     i: nat, c: Chunk, vacant: seq<Address>, r: Request)
    requires Booked(plan, grants, b) && GrantsApart(grants') && i < plan.numPools && LentBy(plan, r, i)
    requires c.start !in grants && grants' == grants[c.start := c.AsGrant()]
    requires ChunksApart([c] + b.chains[i]) && ClassLaid(plan, i, [c] + b.chains[i], vacant, b.useds[i] + {c.start})
    ensures c.start !in b.live && Booked(plan, grants', WithBlock(WithChunk(b, i, c), i, vacant, c.start, r))
  {
    GrantedApart(grants, grants', c.start);
    FreshNotLive(plan, grants, b.owner, b.table, b.live, b.chains, b.vacants, b.useds, c.start, c.Size());
    OwnAdd(grants, b.owner, b.chains, b.table, i, c);
    LendBlock(plan, b.live, b.chains[plan.numPools], b.useds, i, c.start, r);
  }

  ghost function WithoutBlock(b: Books, i: nat, p: Address): Books
    requires i < |b.vacants| && i < |b.useds|
  {
    b.(vacants := b.vacants[i := [p] + b.vacants[i]], useds := b.useds[i := b.useds[i] - {p}], live := b.live - {p})
  }

  lemma UnbookBlock(plan: Plan, grants: map<Address, Grant>, b: Books, i: nat, p: Address)
    requires Booked(plan, grants, b) && i < plan.numPools && p in b.useds[i]
    requires ClassLaid(plan, i, b.chains[i], [p] + b.vacants[i], b.useds[i] - {p})
    ensures Booked(plan, grants, WithoutBlock(b, i, p))
  {
    ReturnBlock(plan, b.live, b.chains[plan.numPools], b.useds, i, p);
  }
}
