/** Addresses, alignment, and the upstream `memory_resource` the pools and buffers draw on. */
module Upstream {
  import opened Arithmetic

  type Address = nat          // 0 is the null pointer

  const FOOTER_SIZE := 24     // sizeof and alignof of a chunk footer: two pointers and a size
  const FOOTER_ALIGN := 8

  // ----- The upstream resource -----

  datatype Grant = Grant(size: nat, align: nat)

  /** The address ranges [p, p + m) and [q, q + n) have nothing in common. */
  predicate Apart(p: Address, m: nat, q: Address, n: nat) { p + m <= q || q + n <= p }

  ghost predicate GrantsApart(grants: map<Address, Grant>)
  {
    forall p, q :: ApartIn(grants, p, q)
  }

  ghost predicate ApartIn(grants: map<Address, Grant>, p: Address, q: Address)
  {
    p in grants && q in grants && p != q ==> Apart(p, grants[p].size, q, grants[q].size)
  }

  /** Some other resource: it hands out fresh aligned memory, and may only be given back what it
      handed out, with the same pointer, size and alignment. */
  class Resource {
    var grants: map<Address, Grant>   // outstanding, whoever holds them
    var top: Address

    ghost predicate Valid()
      reads this
    {
      && GrantsApart(grants)
      && forall p :: p in grants ==> 0 < p && p + grants[p].size <= top && Multiple(p, grants[p].align)
    }

    constructor ()
      ensures Valid() && grants == map[]
    {
      grants, top := map[], 1;
    }

    method Allocate(size: nat, align: nat) returns (p: Address)
      requires Valid() && size > 0 && align > 0
      modifies this
      ensures Valid() && p !in old(grants) && grants == old(grants)[p := Grant(size, align)]
      ensures 0 < p && Multiple(p, align)
      ensures forall q :: q in old(grants) ==> Apart(q, old(grants)[q].size, p, size)
    {
      p := RoundUp(top + 1, align);
      ghost var before := grants;
      grants := grants[p := Grant(size, align)];
      top := p + size;
      forall q, r ensures ApartIn(grants, q, r) {
        assert ApartIn(before, q, r);
      }
    }

    method Deallocate(p: Address, size: nat, align: nat)
      requires Valid() && p in grants && grants[p] == Grant(size, align)
      modifies this
      ensures Valid() && grants == old(grants) - {p}
    {
      ghost var before := grants;
      grants := grants - {p};
      forall q, r ensures ApartIn(grants, q, r) {
        assert ApartIn(before, q, r);
      }
    }
  }
}
