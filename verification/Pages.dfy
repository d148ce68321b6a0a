/** The pool of free pages of `kernel/mem.c`. */
module Pages {
  import opened Sequences

  const PAGE_SIZE: nat := 4096

  /** The page an address lies in: `addr & ~(PAGE_SIZE - 1)` */
  function PageOf(addr: nat): nat { addr - addr % PAGE_SIZE }

  predicate IsPage(p: nat) { p > 0 && p % PAGE_SIZE == 0 }

  /** `free_pages` as the list of page addresses, and the counter of pages handed out. */
  class PagePool {
    var free: seq<nat>
    var taken: int

    ghost predicate Valid()
      reads this
    {
      Distinct(free) && forall p :: p in free ==> IsPage(p)
    }

    /** `kinit`: the pages from `first` on, each put in front of the list. */
    constructor (first: nat, n: nat)
      requires IsPage(first)
      ensures Valid() && taken == 0 && |free| == n
      ensures forall p: nat :: p in free <==> IsPage(p) && first <= p < first + n * PAGE_SIZE
    {
      var list, current: nat := [], first;
      var i := 0;
      while i < n
        invariant 0 <= i <= n && |list| == i && current == first + i * PAGE_SIZE
        invariant forall k :: 0 <= k < i ==> list[k] == first + (i - 1 - k) * PAGE_SIZE
      {
        list := [current] + list;
        current := current + PAGE_SIZE;
        i := i + 1;
      }
      PoolRange(list, first, n);
      free, taken := list, 0;
    }

    /** `kalloc_page` */
    method Take() returns (p: nat)
      requires Valid()
      modifies this
      ensures Valid() && taken == old(taken) + 1
      ensures old(free) == [] ==> p == 0 && free == []
      ensures old(free) != [] ==> p == old(free)[0] && free == old(free)[1..] && IsPage(p) && p !in free
    {
      taken := taken + 1;
      if free == [] { return 0; }
      p := free[0];
      DistinctDrop(free, 0);
      assert free[..0] + free[1..] == free[1..];
      free := free[1..];
    }

    /** `kfree_page` */
    method Give(p: nat)
      requires Valid() && IsPage(p) && p !in free
      modifies this
      ensures Valid() && free == [p] + old(free) && taken == old(taken) - 1
    {
      free := [p] + free;
      taken := taken - 1;
    }
  }

  lemma PoolRange(list: seq<nat>, first: nat, n: nat)
    requires IsPage(first) && |list| == n && forall k :: 0 <= k < n ==> list[k] == first + (n - 1 - k) * PAGE_SIZE
    ensures Distinct(list) && forall p: nat :: p in list <==> IsPage(p) && first <= p < first + n * PAGE_SIZE
  {
    forall p: nat | IsPage(p) && first <= p < first + n * PAGE_SIZE ensures p in list {
      var k := (p - first) / PAGE_SIZE;
      assert list[n - 1 - k] == p;
    }
  }
}
