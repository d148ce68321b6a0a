/** `kalloc` and `kfree` of `kernel/mem.c` for requests of at most 2040 bytes. */
module SlabAllocator {
  import opened Pages
  import opened Sequences
  import opened SlabModel
  import opened SlabSteps

  /** `allocators[]` (free lists and head flags), and the headers at the start of the slab pages. */
  class Allocators {
    const pool: PagePool
    var lists: seq<seq<nat>>
    var heads: seq<bool>
    var bsize: map<nat, nat>
    var count: map<nat, nat>
    ghost var carved: map<nat, nat>
    ghost var live: map<nat, nat>

    ghost function State(): Slab
      reads this
    {
      Slab(lists, heads, bsize, count, carved, live)
    }

    /** The allocator is in order, and no slab page is in the pool. */
    ghost predicate Valid()
      reads this, pool
    {
      pool.Valid() && Inv(State()) && forall p :: p in pool.free ==> p !in bsize
    }

    /** `init_allocators` */
    constructor (pool: PagePool)
      requires pool.Valid()
      ensures Valid() && this.pool == pool && live == map[] && bsize == map[] && count == map[]
      ensures |lists| == |heads| == NUM_ALLOCATORS
      ensures forall i :: 0 <= i < NUM_ALLOCATORS ==> lists[i] == [] && !heads[i]
    {
      this.pool := pool;
      lists, heads := seq(NUM_ALLOCATORS, _ => []), seq(NUM_ALLOCATORS, _ => false);
      bsize, count, carved, live := map[], map[], map[], map[];
    }

    /** `get_allocator_index` */
    method IndexFor(size: nat) returns (index: nat)
      ensures index < NUM_ALLOCATORS && (size <= SIZES[30] ==> ClassFor(size, index))
      ensures size <= MAX_REQUEST ==> index < 30 && ClassFor(size, index)
    {
      hide SIZES;
      LastSizes();
      index := 0;
      var current := SIZES[0];
      while current < size && index < NUM_ALLOCATORS - 1
        invariant 0 <= index < NUM_ALLOCATORS && current == SIZES[index]
        invariant forall j :: 0 <= j < index ==> SIZES[j] < size
        decreases NUM_ALLOCATORS - index
      {
        index := index + 1;
        current := SIZES[index];
      }
    }

    /** The page of block `x` is one of class `i`. */
    predicate OfClass(i: nat, x: nat)
      reads this
    {
      i < |SIZES| && PageOf(x) in bsize && bsize[PageOf(x)] == SIZES[i]
    }

    /** The header of page `p` counts one block less. */
    twostate predicate OneLess(p: nat)
      reads this
    {
      p in old(count) && p in count && count[p] + 1 == old(count)[p] && count == old(count)[p := count[p]]
    }

    /** Block `x` leaves the list of its class and is handed out. */
    method HandOut(i: nat, x: nat, l: seq<nat>, size: nat)
      requires Valid() && i < 30 && x in lists[i] && size <= SIZES[i] && Distinct(l)
      requires forall b :: b in l <==> b in lists[i] && b != x
      requires (l != [] && l[0] == lists[i][0]) || AllCarved(State(), i)
      modifies `lists, `count, `live
      ensures Valid() && x !in old(live) && live == old(live)[x := size] && lists == old(lists)[i := l]
      ensures OfClass(i, x) && OneLess(PageOf(x))
    {
      hide Inv, PageOf, SIZES, AllCarved, Distinct;
      InvShape(State());
      ListedBlock(State(), i, x);
      TakenKeeps(State(), i, x, l, size);
      var page := PageOf(x);
      lists := lists[i := l];
      count := count[page := count[page] - 1];
      live := live[x := size];
    }

    /** Lines 150-174: the second block of the list. */
    method TakeSecond(i: nat, size: nat) returns (x: nat)
      requires Valid() && i < 30 && |lists[i]| >= 2 && size <= SIZES[i]
      modifies `lists, `count, `live
      ensures Valid() && x !in old(live) && live == old(live)[x := size] && OfClass(i, x)
      ensures var l := old(lists)[i]; x == l[1] && lists == old(lists)[i := [l[0]] + l[2..]]
      ensures OneLess(PageOf(x))
    {
      hide PageOf, SIZES;
      var l := lists[i];
      x := l[1];
      assert l[..1] == [l[0]];
      ListDistinct(State(), i);
      DistinctDrop(l, 1);
      HandOut(i, x, [l[0]] + l[2..], size);
    }

    /** Lines 176-206: the only block of the list; if its page has blocks not carved yet, the next one
        takes its place. */
    method TakeOnly(i: nat, size: nat) returns (x: nat)
      requires Valid() && i < 30 && |lists[i]| == 1 && size <= SIZES[i]
      modifies `lists, `count, `live, `carved
      ensures Valid() && x !in old(live) && live == old(live)[x := size] && x == old(lists)[i][0] && OfClass(i, x)
      ensures OneLess(PageOf(x))
      ensures lists == old(lists)[i := if old(count)[PageOf(x)] > 1 then [x + SIZES[i]] else []]
    {
      hide Inv, Blk, Total, Carved, AllCarved, PageOf, SIZES;
      InvShape(State());
      SizeFacts(i);
      x := lists[i][0];
      assert lists[i] == [x];
      LastBlock(State(), i, x);
      var page := PageOf(x);
      var next := x + SIZES[i];
      if heads[i] && count[page] > 1 && next % PAGE_SIZE + SIZES[i] <= PAGE_SIZE {
        CarveKeeps(State(), i, x);
        carved := carved[page := carved[page] + 1];
        lists := lists[i := [next, x]];
        assert State() == Carve(old(State()), i, x, next);
        ListDistinct(State(), i);
        HandOut(i, x, [next], size);
        assert lists == old(lists)[i := [next]];
      } else {
        HandOut(i, x, [], size);
      }
    }

    /** Lines 210-234: a new page; its first block is handed out, the second one is listed. */
    method TakeFromPage(i: nat, page: nat, size: nat) returns (x: nat)
      requires Valid() && i < 30 && lists[i] == [] && size <= SIZES[i] && IsPage(page) && page !in bsize
          && page !in pool.free
      modifies `lists, `heads, `count, `live, `carved, `bsize
      ensures Valid() && x !in old(live) && live == old(live)[x := size] && bsize == old(bsize)[page := SIZES[i]]
      ensures x == page + 8 && lists == old(lists)[i := [x + SIZES[i]]] && heads == old(heads)[i := true]
      ensures OfClass(i, x) && PageOf(x) == page && page in count
          && count[page] + 1 == Total(SIZES[i]) && count == old(count)[page := count[page]]
    {
      hide Inv, Total, Carved, SIZES, Usable, PageOf, IsPage;
      InvShape(State());
      OpenKeeps(State(), i, page);
      FirstBlocks(i, page);
      SizeFacts(i);
      x := page + 8;
      var next := x + SIZES[i];
      bsize := bsize[page := SIZES[i]];
      count := count[page := Total(SIZES[i])];
      carved := carved[page := 2];
      heads := heads[i := true];
      lists := lists[i := [next, x]];
      assert State() == Open(old(State()), i, page);
      ListDistinct(State(), i);
      HandOut(i, x, [next], size);
      assert lists == old(lists)[i := [next]];
    }

    /** Block `x` came from the list of class `i`. */
    twostate predicate Reused(i: nat, x: nat)
      requires |lists| == |old(lists)| == |SIZES| && i < |SIZES|
      reads this
    {
      var l := old(lists)[i];
      && bsize == old(bsize) && heads == old(heads) && OneLess(PageOf(x))
      && if |l| >= 2 then x == l[1] && lists[i] == [l[0]] + l[2..]
         else l == [x] && lists[i] == if old(count)[PageOf(x)] > 1 then [x + SIZES[i]] else []
    }

    /** Block `x` is the first one of a page that joined class `i`. */
    twostate predicate Opened(i: nat, x: nat)
      requires |lists| == |old(lists)| == |old(heads)| == |SIZES| && i < |SIZES|
      reads this, pool
    {
      && old(pool.free) != []
      && var page := old(pool.free)[0];
         && x == page + 8 && bsize == old(bsize)[page := SIZES[i]] && lists[i] == [x + SIZES[i]]
         && heads == old(heads)[i := true] && page in count && count[page] + 1 == Total(SIZES[i])
         && count == old(count)[page := count[page]]
    }

    /** `kalloc`: a fresh block of the least class that is large enough for `size` bytes, or 0 if that takes a page
        and there is none.  It is the second of the list, or the only one, whose successor is then listed
        if its page is not used up, or the first block of the first free page. */
    method Kalloc(size: nat) returns (x: nat)
      requires Valid() && size <= MAX_REQUEST
      modifies this, pool
      ensures Valid()
      ensures x == 0 ==> live == old(live) && bsize == old(bsize) && old(pool.free) == []
      ensures x != 0 ==> x !in old(live) && live == old(live)[x := size]
      ensures |lists| == |old(lists)| == |old(heads)| == NUM_ALLOCATORS
      ensures forall i: nat :: ClassFor(size, i) ==>
                pool.free == if old(lists)[i] == [] && old(pool.free) != [] then old(pool.free)[1..] else old(pool.free)
      ensures forall i: nat :: ClassFor(size, i) ==>
                && (x == 0 <==> old(lists)[i] == [] && old(pool.free) == [])
                && pool.taken == old(pool.taken) + if old(lists)[i] == [] then 1 else 0
      ensures forall i: nat :: ClassFor(size, i) && x != 0 ==>
                && OfClass(i, x) && lists == old(lists)[i := lists[i]]
                && if old(lists)[i] == [] then Opened(i, x) else Reused(i, x)
      ensures x == 0 ==> lists == old(lists) && heads == old(heads) && count == old(count)
    {
      hide Inv, Blk, Carved, PageOf, SIZES, Total;
      InvShape(State());
      var i := IndexFor(size);
      OneClass(size, i);
      ClassBelow(size);
      ghost var all := lists;
      if lists[i] != [] {
        if |lists[i]| >= 2 {
          x := TakeSecond(i, size);
        } else {
          x := TakeOnly(i, size);
        }
      } else {
        var page := pool.Take();
        if page == 0 { return 0; }
        x := TakeFromPage(i, page, size);
      }
      LiveNotNull(State(), x);
    }

    /** Lines 257-270: the block goes back to the list of its class, behind the head. */
    method PutBack(i: nat, x: nat)
      requires Valid() && i < 30 && x in live && PageOf(x) in bsize && bsize[PageOf(x)] == SIZES[i]
      modifies `lists, `heads, `count, `live
      ensures Valid() && live == old(live) - {x}
      ensures lists == old(lists)[i := Listed(old(lists)[i], x)]
      ensures heads == if old(lists)[i] == [] then old(heads)[i := false] else old(heads)
      ensures PageOf(x) in old(count) && count == old(count)[PageOf(x) := old(count)[PageOf(x)] + 1]
    {
      hide Inv, PageOf, SIZES, Freed;
      InvShape(State());
      FreedKeeps(State(), i, x);
      FreedIs(State(), i, x);
      var page := PageOf(x);
      if lists[i] != [] {
        lists := lists[i := [lists[i][0], x] + lists[i][1..]];
      } else {
        heads := heads[i := false];
        lists := lists[i := [x]];
      }
      count := count[page := count[page] + 1];
      live := live - {x};
    }

    /** Lines 278-302: unlink every block of the page. */
    method UnlinkPage(i: nat, page: nat)
      requires i < |lists|
      modifies `lists
      ensures lists == old(lists)[i := Unlink(old(lists)[i], page)]
    {
      hide PageOf;
      ghost var l := lists[i];
      var k := 0;
      assert l[..0] == [];
      while k < |lists[i]|
        invariant |lists| == |old(lists)| && lists == old(lists)[i := lists[i]] && k <= |lists[i]|
        invariant Unlink(l, page) == lists[i][..k] + Unlink(lists[i][k..], page)
        decreases |lists[i]| - k
      {
        UnlinkAt(lists[i], page, k);
        if PageOf(lists[i][k]) == page {
          lists := lists[i := lists[i][..k] + lists[i][k + 1..]];
        } else {
          k := k + 1;
        }
      }
      assert lists[i][..k] == lists[i] && lists[i][k..] == [];
      assert lists[i] == Unlink(l, page);
    }

    /** Lines 278-306: unlink the blocks of the page, then give it back. */
    method ReleasePage(i: nat, page: nat)
      requires Valid() && i < 30 && page in bsize && bsize[page] == SIZES[i] && LiveIn(live, page) == {}
      modifies `lists, `bsize, `count, `carved, pool
      ensures Valid() && bsize == old(bsize) - {page} && pool.free == [page] + old(pool.free)
          && pool.taken == old(pool.taken) - 1 && lists == old(lists)[i := Unlink(old(lists)[i], page)]
          && count == old(count) - {page}
    {
      ReleasedKeeps(State(), i, page);
      InvShape(State());
      hide Inv, Total, Carved;
      UnlinkPage(i, page);
      bsize, count, carved := bsize - {page}, count - {page}, carved - {page};
      assert State() == Released(old(State()), i, page);
      pool.Give(page);
    }

    /** Line 274: the page is given back if its header counts all its blocks. */
    method PageIfFree(i: nat, page: nat)
      requires Valid() && i < 30 && page in bsize && bsize[page] == SIZES[i]
      modifies `lists, `bsize, `count, `carved, pool
      ensures Valid()
      ensures LiveIn(live, page) == {} ==>
                && bsize == old(bsize) - {page} && pool.free == [page] + old(pool.free)
                && pool.taken == old(pool.taken) - 1 && lists == old(lists)[i := Unlink(old(lists)[i], page)]
                && count == old(count) - {page}
      ensures LiveIn(live, page) != {} ==>
                && bsize == old(bsize) && pool.free == old(pool.free) && pool.taken == old(pool.taken)
                && lists == old(lists) && count == old(count)
    {
      hide Inv, PageOf, Total, LiveIn;
      HeaderCounts(State(), i, page);
      if count[page] == Total(bsize[page]) {
        ReleasePage(i, page);
      }
    }

    /** Block `x` went behind the head of the list of its class `i`, and the header counts it, unless
        the page was given back; then the list is rid of its blocks. */
    twostate predicate PutInClass(i: nat, x: nat)
      reads this, pool
    {
      var p := PageOf(x);
      && i < |SIZES| && i < |old(lists)| && i < |old(heads)| && p in old(bsize) && old(bsize)[p] == SIZES[i]
      && p in old(count) && var l := Listed(old(lists)[i], x);
      && heads == (if old(lists)[i] == [] then old(heads)[i := false] else old(heads))
      && if LiveIn(live, p) == {} then
           && bsize == old(bsize) - {p} && pool.free == [p] + old(pool.free) && pool.taken == old(pool.taken) - 1
           && lists == old(lists)[i := Unlink(l, p)] && count == old(count) - {p}
         else
           lists == old(lists)[i := l] && count == old(count)[p := old(count)[p] + 1]
    }

    /** `kfree` of a live block; its page goes back to the pool exactly if no block of it is live. */
    method Kfree(x: nat)
      requires Valid() && (x == 0 || x in live)
      modifies this, pool
      ensures Valid() && live == old(live) - {x}
      ensures x == 0 || LiveIn(live, PageOf(x)) != {} ==>
          bsize == old(bsize) && pool.free == old(pool.free) && pool.taken == old(pool.taken)
      ensures x == 0 ==> lists == old(lists) && heads == old(heads) && count == old(count)
      ensures x != 0 ==> exists i :: 0 <= i < 30 && PutInClass(i, x)
    {
      hide Inv, Carved, PageOf, Total, LiveIn, SIZES, Usable, ClassFor;
      if x == 0 {
        NullNotLive(State());
        return;
      }
      LivePage(State(), x);
      InvShape(State());
      var page := PageOf(x);
      if bsize[page] > 2040 { return; }
      var i := IndexFor(bsize[page]);
      OwnClass(bsize[page], i);
      PutBack(i, x);
      PageIfFree(i, page);
      assert PutInClass(i, x);
    }
  }

  /** `kfree` on the lists, the heads, the headers and the live blocks. */
  lemma FreedIs(s: Slab, i: nat, b: nat)
    requires i < |s.lists| == |s.heads| && PageOf(b) in s.count
    ensures var l := s.lists[i];
            Freed(s, i, b) == Slab(s.lists[i := if l != [] then [l[0], b] + l[1..] else [b]],
                                   if l != [] then s.heads else s.heads[i := false], s.bsize,
                                   s.count[PageOf(b) := s.count[PageOf(b)] + 1], s.carved, s.live - {b})
  {
  }

  lemma LastSizes()
    ensures |SIZES| == NUM_ALLOCATORS && SIZES[29] == MAX_REQUEST < SIZES[30]
  {
  }

  lemma ClassBelow(size: nat)
    ensures forall i: nat :: ClassFor(size, i) ==> i < NUM_ALLOCATORS == |SIZES|
  {
  }

  lemma OneClass(size: nat, i: nat)
    requires ClassFor(size, i)
    ensures forall j: nat :: ClassFor(size, j) ==> j == i
  {
  }

  lemma LiveNotNull(s: Slab, x: nat)
    requires Inv(s) && x in s.live
    ensures x != 0
  {
    LiveSafe(s, x, x);
  }

  lemma NullNotLive(s: Slab)
    requires Inv(s)
    ensures s.live - {0} == s.live
  {
    if 0 in s.live { LiveNotNull(s, 0); }
  }

  lemma LivePage(s: Slab, x: nat)
    requires Inv(s) && x in s.live
    ensures PageOf(x) in s.bsize && Usable(s.bsize[PageOf(x)]) && s.bsize[PageOf(x)] <= MAX_REQUEST
  {
    UsableFacts(s.bsize[PageOf(x)]);
    assert Carved(s.bsize, s.carved, x);
  }

  /** The size of a class leads back to the class. */
  lemma OwnClass(bs: nat, i: nat)
    requires Usable(bs) && ClassFor(bs, i)
    ensures i < 30 && SIZES[i] == bs && bs <= MAX_REQUEST
  {
    var j :| 0 <= j < 30 && SIZES[j] == bs;
    UsableFacts(bs);
    if i < j { SizesGrow(i, j); }
  }

  lemma HeaderCounts(s: Slab, i: nat, p: nat)
    requires Inv(s) && i < 30 && p in s.bsize && s.bsize[p] == SIZES[i]
    ensures p in s.count && s.count[p] + |LiveIn(s.live, p)| == Total(SIZES[i])
    ensures s.count[p] == Total(SIZES[i]) <==> LiveIn(s.live, p) == {}
  {
    assert ClassOk(s, i);
  }

  lemma UnlinkAt(l: seq<nat>, p: nat, k: nat)
    requires k < |l|
    ensures PageOf(l[k]) == p ==>
              l[..k] + Unlink(l[k..], p) == (l[..k] + l[k + 1..])[..k] + Unlink((l[..k] + l[k + 1..])[k..], p)
    ensures PageOf(l[k]) != p ==> l[..k] + Unlink(l[k..], p) == l[..k + 1] + Unlink(l[k + 1..], p)
  {
    assert l[k..][1..] == l[k + 1..];
    var m := l[..k] + l[k + 1..];
    assert m[..k] == l[..k] && m[k..] == l[k + 1..];
  }
}
