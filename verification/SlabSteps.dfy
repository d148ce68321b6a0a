/** The five state changes that `kalloc` and `kfree` are made of keep the allocator in order. */
module SlabSteps {
  import opened Pages
  import opened Sequences
  import opened SlabModel

  /** Nothing but page `p` and its blocks differs. */
  ghost predicate SameBeyond(s: Slab, t: Slab, p: nat) {
    && (forall q :: q != p ==> (q in s.bsize <==> q in t.bsize))
    && (forall q :: q != p && q in s.bsize && q in s.count && q in s.carved ==>
          q in t.count && q in t.carved && t.bsize[q] == s.bsize[q] && t.count[q] == s.count[q]
            && t.carved[q] == s.carved[q])
    && (forall b: nat :: PageOf(b) != p ==> (b in s.live <==> b in t.live))
    && (forall b: nat :: PageOf(b) != p && b in s.live ==> t.live[b] == s.live[b])
  }

  ghost predicate SameMembers(l: seq<nat>, m: seq<nat>, p: nat) {
    forall b: nat :: PageOf(b) != p ==> (b in l <==> b in m)
  }

  lemma PageElsewhere(s: Slab, t: Slab, i: nat, p: nat, q: nat)
    requires Inv(s) && SameBeyond(s, t, p) && i < 30 && q != p && q in t.bsize && t.bsize[q] == SIZES[i]
    requires |t.lists| == NUM_ALLOCATORS && SameMembers(s.lists[i], t.lists[i], p)
    ensures q in s.bsize && s.bsize[q] == SIZES[i] && q in t.count && q in t.carved
    ensures PageOk(q, SIZES[i], t.count[q], t.carved[q], t.lists[i], t.live)
  {
    hide PageOf, Blk, Total, OpenOk, ListOk;
    assert ClassOk(s, i);
    assert LiveIn(s.live, q) == LiveIn(t.live, q);
    forall k | 0 <= k < t.carved[q]
      ensures Blk(q, SIZES[i], k) in t.lists[i] <==> Blk(q, SIZES[i], k) !in t.live
    {
      BlkPage(q, SIZES[i], k);
    }
  }

  lemma ListElsewhere(s: Slab, t: Slab, i: nat, p: nat)
    requires Inv(s) && SameBeyond(s, t, p) && i < 30 && |t.lists| == NUM_ALLOCATORS && t.lists[i] == s.lists[i]
    requires p in s.bsize ==> s.bsize[p] != SIZES[i]
    ensures ListOk(t, i)
  {
    hide PageOf, Blk;
    assert ClassOk(s, i);
    forall b | b in t.lists[i]
      ensures Carved(t.bsize, t.carved, b) && PageOf(b) in t.bsize && t.bsize[PageOf(b)] == SIZES[i] && b !in t.live
    {
      assert Carved(s.bsize, s.carved, b);
      assert PageOf(b) != p;
    }
  }

  /** The change concerns page `p` of class `i` only. */
  ghost predicate Local(s: Slab, t: Slab, i: nat, p: nat) {
    && i < 30 && Shape(s) && Shape(t) && |SIZES| == NUM_ALLOCATORS && SameBeyond(s, t, p)
    && (forall j :: 0 <= j < 30 && j != i ==> t.lists[j] == s.lists[j] && t.heads[j] == s.heads[j])
    && SameMembers(s.lists[i], t.lists[i], p)
    && (p in s.bsize ==> s.bsize[p] == SIZES[i]) && (p in t.bsize ==> t.bsize[p] == SIZES[i])
  }

  /** What is left to show after a local change. */
  ghost predicate PageSettled(t: Slab, i: nat, p: nat)
    requires i < 30 && Shape(t) && |SIZES| == NUM_ALLOCATORS
  {
    && ListOk(t, i)
    && (p in t.bsize ==>
          && PageOk(p, SIZES[i], t.count[p], t.carved[p], t.lists[i], t.live)
          && OpenOk(p, SIZES[i], t.carved[p], t.lists[i], t.heads[i]))
    && (forall q :: q in t.bsize && q != p && t.bsize[q] == SIZES[i] ==>
          OpenOk(q, SIZES[i], t.carved[q], t.lists[i], t.heads[i]))
    && (forall b :: b in t.live && PageOf(b) == p ==> Carved(t.bsize, t.carved, b) && t.live[b] <= SIZES[i])
  }

  lemma LocalKeeps(s: Slab, t: Slab, i: nat, p: nat)
    requires Inv(s) && Local(s, t, i, p) && PageSettled(t, i, p)
    ensures Inv(t)
  {
    hide PageOf, Blk, Total, PageOk, OpenOk, ListOk, Carved;
    forall j | 0 <= j < 30 ensures ClassOk(t, j) {
      OtherClass(s, t, i, j, p);
    }
    LocalLive(s, t, i, p);
  }

  lemma LocalLive(s: Slab, t: Slab, i: nat, p: nat)
    requires Inv(s) && Local(s, t, i, p) && PageSettled(t, i, p)
    ensures LiveOk(t)
  {
    hide PageOf, Blk, Total, PageOk, OpenOk, ListOk;
    forall b | b in t.live ensures Carved(t.bsize, t.carved, b) && t.live[b] <= t.bsize[PageOf(b)] {
      if PageOf(b) != p { assert Carved(s.bsize, s.carved, b); }
    }
  }

  lemma OtherClass(s: Slab, t: Slab, i: nat, j: nat, p: nat)
    requires Inv(s) && Local(s, t, i, p) && PageSettled(t, i, p) && j < 30
    ensures ClassOk(t, j)
  {
    hide PageOf, Blk, Total, PageOk, OpenOk, ListOk, Carved;
    assert ClassOk(s, j);
    if j != i {
      if i < j { SizesGrow(i, j); } else { SizesGrow(j, i); }
      ListElsewhere(s, t, j, p);
    }
    forall q | q in t.bsize && t.bsize[q] == SIZES[j]
      ensures q in t.count && q in t.carved
      ensures PageOk(q, SIZES[j], t.count[q], t.carved[q], t.lists[j], t.live)
      ensures OpenOk(q, SIZES[j], t.carved[q], t.lists[j], t.heads[j])
    {
      if q != p { PageElsewhere(s, t, j, p, q); }
    }
  }

  // ---------- taking a block off the list ----------

  /** Block `x` leaves the list of class `i`, which becomes `l`, for a request of `size` bytes. */
  function Taken(s: Slab, i: nat, x: nat, l: seq<nat>, size: nat): Slab
    requires i < |s.lists| && PageOf(x) in s.count && s.count[PageOf(x)] > 0
  {
    s.(lists := s.lists[i := l], count := s.count[PageOf(x) := s.count[PageOf(x)] - 1], live := s.live[x := size])
  }

  ghost predicate AllCarved(s: Slab, i: nat) {
    i < |SIZES| && forall q :: q in s.bsize && s.bsize[q] == SIZES[i] ==>
        q in s.carved && s.carved[q] >= Total(SIZES[i])
  }

  lemma TakenKeeps(s: Slab, i: nat, x: nat, l: seq<nat>, size: nat)
    requires Inv(s) && i < 30 && x in s.lists[i] && size <= SIZES[i] && Distinct(l)
    requires forall b :: b in l <==> b in s.lists[i] && b != x
    requires (l != [] && l[0] == s.lists[i][0]) || AllCarved(s, i)
    ensures PageOf(x) in s.count && s.count[PageOf(x)] > 0 && x !in s.live && Inv(Taken(s, i, x, l, size))
  {
    hide PageOf, Blk, Total, Carved, SIZES, Usable, Distinct;
    var p := PageOf(x);
    ListedBlock(s, i, x);
    CountIs(s, i, p);
    CarvedBound(s, x);
    assert x in ListedIn(s.lists[i], p);
    var t := Taken(s, i, x, l, size);
    TakenPage(s, i, x, l, size);
    TakenList(s, i, x, l, size);
    TakenOpen(s, i, x, l, size);
    hide PageOk, OpenOk, ListOk;
    assert Local(s, t, i, p) by { hide Inv; }
    forall b | b in t.live && PageOf(b) == p ensures Carved(t.bsize, t.carved, b) && t.live[b] <= SIZES[i] {
      if b != x { assert b in s.live; }
    }
    LocalKeeps(s, t, i, p);
  }

  lemma ListedBlock(s: Slab, i: nat, x: nat)
    requires Inv(s) && i < 30 && x in s.lists[i]
    ensures PageOf(x) in s.bsize && s.bsize[PageOf(x)] == SIZES[i] && PageOf(x) in s.count && x !in s.live
    ensures Carved(s.bsize, s.carved, x)
  {
    assert ClassOk(s, i);
  }

  lemma TakenPage(s: Slab, i: nat, x: nat, l: seq<nat>, size: nat)
    requires Inv(s) && i < 30 && x in s.lists[i] && PageOf(x) in s.count && s.count[PageOf(x)] > 0
    requires forall b :: b in l <==> b in s.lists[i] && b != x
    ensures var t, p := Taken(s, i, x, l, size), PageOf(x);
            p in t.carved && PageOk(p, SIZES[i], t.count[p], t.carved[p], l, t.live)
  {
    hide PageOf, Blk, Total, OpenOk;
    var p := PageOf(x);
    ListedBlock(s, i, x);
    assert ClassOk(s, i);
    var t := Taken(s, i, x, l, size);
    assert LiveIn(t.live, p) == LiveIn(s.live, p) + {x};
    assert x !in LiveIn(s.live, p);
  }

  lemma TakenList(s: Slab, i: nat, x: nat, l: seq<nat>, size: nat)
    requires Inv(s) && i < 30 && x in s.lists[i] && PageOf(x) in s.count && s.count[PageOf(x)] > 0 && Distinct(l)
    requires forall b :: b in l <==> b in s.lists[i] && b != x
    ensures ListOk(Taken(s, i, x, l, size), i)
  {
    hide PageOf, Blk, Total, OpenOk, PageOk, Carved;
    assert ClassOk(s, i);
  }

  lemma TakenOpen(s: Slab, i: nat, x: nat, l: seq<nat>, size: nat)
    requires Inv(s) && i < 30 && x in s.lists[i] && PageOf(x) in s.count && s.count[PageOf(x)] > 0
    requires (l != [] && l[0] == s.lists[i][0]) || AllCarved(s, i)
    ensures var t := Taken(s, i, x, l, size);
            forall q :: q in t.bsize && t.bsize[q] == SIZES[i] ==> OpenOk(q, SIZES[i], t.carved[q], l, t.heads[i])
  {
    hide PageOf, Blk, Total, PageOk, ListOk;
    assert ClassOk(s, i);
  }

  // ---------- carving the next block ----------

  /** The list has a single block left.  Its page has uncarved blocks exactly if the header counts more
      than that block; then the block is the last carved one, and the next one fits the page. */
  lemma LastBlock(s: Slab, i: nat, x: nat)
    requires Inv(s) && i < 30 && s.lists[i] == [x]
    ensures var p := PageOf(x);
            && p in s.count && p in s.carved && 0 < s.carved[p]
            && (s.count[p] <= 1 ==> AllCarved(s, i))
            && (s.count[p] > 1 ==>
                  && s.heads[i] && s.carved[p] < Total(SIZES[i]) && x == Blk(p, SIZES[i], s.carved[p] - 1)
                  && x + SIZES[i] == Blk(p, SIZES[i], s.carved[p])
                    && (x + SIZES[i]) % PAGE_SIZE + SIZES[i] <= PAGE_SIZE)
  {
    hide PageOf, Blk, Total, PageOk, ListOk, OpenOk, ClassOk, LiveOk, AllCarved;
    var p, bs := PageOf(x), SIZES[i];
    ListedBlock(s, i, x);
    CountIs(s, i, p);
    assert ListedIn(s.lists[i], p) == {x};
    CarvedAtLeast(s, i, p);
    if s.carved[p] < Total(bs) {
      OneOpenPage(s, i, p, p);
      OpenHead(s, i, p);
      BlkNext(p, bs, s.carved[p]);
    } else {
      NoOpenPage(s, i);
    }
  }

  /** If the page of the head of the list is fully carved, so are all pages of the class. */
  lemma NoOpenPage(s: Slab, i: nat)
    requires Inv(s) && i < 30 && s.lists[i] != []
    requires PageOf(s.lists[i][0]) in s.carved && s.carved[PageOf(s.lists[i][0])] >= Total(SIZES[i])
    ensures AllCarved(s, i)
  {
    hide PageOf, Blk, Total, ClassOk, LiveOk;
    forall q | q in s.bsize && s.bsize[q] == SIZES[i] ensures q in s.carved && s.carved[q] >= Total(SIZES[i]) {
      CarvedAtLeast(s, i, q);
      if s.carved[q] < Total(SIZES[i]) { OpenIsFirst(s, i, q); }
    }
  }

  lemma OpenHead(s: Slab, i: nat, q: nat)
    requires Inv(s) && i < 30 && q in s.bsize && s.bsize[q] == SIZES[i] && q in s.carved
        && s.carved[q] < Total(SIZES[i])
    ensures i < |s.heads| && s.heads[i]
  {
    assert ClassOk(s, i);
    CarvedAtLeast(s, i, q);
  }

  lemma OpenIsFirst(s: Slab, i: nat, q: nat)
    requires Inv(s) && i < 30 && q in s.bsize && s.bsize[q] == SIZES[i] && q in s.carved
        && s.carved[q] < Total(SIZES[i])
    ensures s.lists[i] != [] && PageOf(s.lists[i][0]) == q
  {
    hide PageOf, Blk, Total, ClassOk, LiveOk;
    OneOpenPage(s, i, q, q);
    CarvedAtLeast(s, i, q);
    BlkPage(q, SIZES[i], s.carved[q] - 1);
  }

  lemma BlkNext(p: nat, bs: nat, k: nat)
    requires IsPage(p) && Usable(bs) && 0 < k < Total(bs)
    ensures Blk(p, bs, k - 1) + bs == Blk(p, bs, k) && Blk(p, bs, k) % PAGE_SIZE + bs <= PAGE_SIZE
  {
    BlkPage(p, bs, k);
    assert k * bs == (k - 1) * bs + bs;
  }

  /** The block after `x` is carved and put in front of it. */
  function Carve(s: Slab, i: nat, x: nat, next: nat): Slab
    requires i < |s.lists| && PageOf(x) in s.carved
  {
    s.(lists := s.lists[i := [next, x]], carved := s.carved[PageOf(x) := s.carved[PageOf(x)] + 1])
  }

  lemma CarveKeeps(s: Slab, i: nat, x: nat)
    requires Inv(s) && i < 30 && s.lists[i] == [x] && PageOf(x) in s.count && s.count[PageOf(x)] > 1
    ensures PageOf(x) in s.carved && Inv(Carve(s, i, x, x + SIZES[i])) && x + SIZES[i] !in s.live
  {
    hide PageOf, Blk, Total, ListOk, Carved, OpenOk, PageOk, ClassOk, SIZES, Usable;
    var p, bs, next := PageOf(x), SIZES[i], x + SIZES[i];
    LastBlock(s, i, x);
    ListedBlock(s, i, x);
    var t := Carve(s, i, x, next);
    CarveFresh(s, i, p, next);
    CarveThis(s, i, x, next);
    CarveList(s, i, x, next);
    CarveOthers(s, i, x, next);
    assert Local(s, t, i, p) by { hide Inv; }
    LocalKeeps(s, t, i, p);
  }

  lemma CarvedMore(s: Slab, p: nat, n: nat, b: nat)
    requires Carved(s.bsize, s.carved, b) && p in s.carved && s.carved[p] <= n
    ensures Carved(s.bsize, s.carved[p := n], b)
  {
  }

  /** A block that is not carved yet is neither listed nor live. */
  lemma CarveFresh(s: Slab, i: nat, p: nat, b: nat)
    requires Inv(s) && i < 30 && p in s.bsize && s.bsize[p] == SIZES[i] && p in s.carved
    requires s.carved[p] < Total(SIZES[i]) && b == Blk(p, SIZES[i], s.carved[p])
    ensures PageOf(b) == p && b !in s.lists[i] && b !in s.live
  {
    hide PageOf, Blk, Total, OpenOk, PageOk;
    var n := s.carved[p];
    CarvedAtLeast(s, i, p);
    BlkPage(p, SIZES[i], n);
    UsableFacts(SIZES[i]);
    forall k | 0 <= k < n ensures Blk(p, SIZES[i], k) != b { BlkApart(p, SIZES[i], k, n); }
    assert ClassOk(s, i);
    assert !Carved(s.bsize, s.carved, b);
  }

  lemma CarveThis(s: Slab, i: nat, x: nat, next: nat)
    requires Inv(s) && i < 30 && s.lists[i] == [x] && PageOf(x) in s.count && s.count[PageOf(x)] > 1
    requires PageOf(x) in s.carved && next !in s.lists[i] && next !in s.live && PageOf(next) == PageOf(x)
    requires s.carved[PageOf(x)] < Total(SIZES[i]) && s.heads[i]
        && next == Blk(PageOf(x), SIZES[i], s.carved[PageOf(x)])
    ensures var t, p := Carve(s, i, x, next), PageOf(x);
            && p in t.bsize && t.bsize[p] == SIZES[i]
            && PageOk(p, SIZES[i], t.count[p], t.carved[p], t.lists[i], t.live)
            && OpenOk(p, SIZES[i], t.carved[p], t.lists[i], t.heads[i])
  {
    hide PageOf, Blk, Total, Carved, LiveOk, PageOk, OpenOk;
    var p, bs := PageOf(x), SIZES[i];
    ListedBlock(s, i, x);
    assert ClassOk(s, i);
    PageGrows(p, bs, s.count[p], s.carved[p], x, next, s.live);
  }

  /** One more block of a page is carved and listed. */
  lemma PageGrows(p: nat, bs: nat, count: nat, n: nat, x: nat, next: nat, live: map<nat, nat>)
    requires PageOk(p, bs, count, n, [x], live) && n < Total(bs) && next == Blk(p, bs, n) && next != x && next !in live
    ensures PageOk(p, bs, count, n + 1, [next, x], live) && OpenOk(p, bs, n + 1, [next, x], true)
  {
    hide Blk, Total, LiveIn;
    forall k | 0 <= k < n ensures Blk(p, bs, k) != next { assert Blk(p, bs, k) in [x] || Blk(p, bs, k) in live; }
  }

  lemma CarveList(s: Slab, i: nat, x: nat, next: nat)
    requires Inv(s) && i < 30 && s.lists[i] == [x] && PageOf(x) in s.carved && PageOf(x) in s.bsize
    requires next !in s.lists[i] && next !in s.live && PageOf(next) == PageOf(x)
    requires next == Blk(PageOf(x), SIZES[i], s.carved[PageOf(x)])
    ensures ListOk(Carve(s, i, x, next), i)
  {
    hide PageOf, Blk, Total, PageOk, OpenOk, LiveOk;
    var p := PageOf(x);
    assert ClassOk(s, i);
    ListedBlock(s, i, x);
    var t := Carve(s, i, x, next);
    assert Carved(t.bsize, t.carved, next);
    CarvedMore(s, p, s.carved[p] + 1, x);
  }

  lemma CarveOthers(s: Slab, i: nat, x: nat, next: nat)
    requires Inv(s) && i < 30 && s.lists[i] == [x] && PageOf(x) in s.carved
    requires PageOf(x) in s.bsize && s.bsize[PageOf(x)] == SIZES[i]
    ensures var t, p := Carve(s, i, x, next), PageOf(x);
            && (forall q :: q in t.bsize && q != p && t.bsize[q] == SIZES[i] ==>
                  OpenOk(q, SIZES[i], t.carved[q], t.lists[i], t.heads[i]))
            && (forall b :: b in t.live && PageOf(b) == p ==> Carved(t.bsize, t.carved, b) && t.live[b] <= SIZES[i])
  {
    hide PageOf, Blk, Total, ListOk, PageOk, ClassOk;
    var p, bs := PageOf(x), SIZES[i];
    var t := Carve(s, i, x, next);
    forall q | q in t.bsize && q != p && t.bsize[q] == bs ensures OpenOk(q, bs, t.carved[q], t.lists[i], t.heads[i]) {
      CarvedAtLeast(s, i, q);
      if s.carved[q] < Total(bs) { OpenIsFirst(s, i, q); }
    }
    forall b | b in t.live && PageOf(b) == p ensures Carved(t.bsize, t.carved, b) && t.live[b] <= bs {
      assert Carved(s.bsize, s.carved, b);
      CarvedMore(s, p, s.carved[p] + 1, b);
    }
  }

  // ---------- a new page ----------

  /** Page `p` joins class `i` with two blocks carved. */
  function Open(s: Slab, i: nat, p: nat): Slab
    requires i < |s.lists| == |s.heads| && i < |SIZES|
  {
    var bs := SIZES[i];
    s.(lists := s.lists[i := [Blk(p, bs, 1), Blk(p, bs, 0)]], heads := s.heads[i := true], bsize := s.bsize[p := bs],
       count := s.count[p := Total(bs)], carved := s.carved[p := 2])
  }

  lemma OpenKeeps(s: Slab, i: nat, p: nat)
    requires Inv(s) && i < 30 && s.lists[i] == [] && IsPage(p) && p !in s.bsize
    ensures Inv(Open(s, i, p)) && Blk(p, SIZES[i], 0) !in s.live && Blk(p, SIZES[i], 1) !in s.live
    ensures PageOf(Blk(p, SIZES[i], 0)) == p
  {
    hide PageOf, Total, Blk, ListOk, PageOk, OpenOk, ClassOk, Carved, SIZES, Usable;
    var bs, t := SIZES[i], Open(s, i, p);
    SizeFacts(i);
    SizeUsable(i);
    FirstBlocks(i, p);
    NoneLive(s, p);
    OpenThis(s, i, p);
    EmptyIsFull(s, i);
    forall q | q in t.bsize && q != p && t.bsize[q] == bs ensures OpenOk(q, bs, t.carved[q], t.lists[i], t.heads[i]) {
      FullIsOk(q, bs, t.carved[q], t.lists[i], t.heads[i]);
    }
    assert Local(s, t, i, p) by { hide Inv; }
    LocalKeeps(s, t, i, p);
  }

  /** A class with an empty list has no page with uncarved blocks. */
  lemma EmptyIsFull(s: Slab, i: nat)
    requires Inv(s) && i < 30 && s.lists[i] == []
    ensures AllCarved(s, i)
  {
    hide PageOf, Blk, Total, LiveOk, ClassOk;
    forall q | q in s.bsize && s.bsize[q] == SIZES[i] ensures q in s.carved && s.carved[q] >= Total(SIZES[i]) {
      CarvedAtLeast(s, i, q);
      if s.carved[q] < Total(SIZES[i]) { OpenIsFirst(s, i, q); }
    }
  }

  lemma NoneLive(s: Slab, p: nat)
    requires LiveOk(s) && p !in s.bsize
    ensures LiveIn(s.live, p) == {}
  {
    hide Blk, PageOf;
    forall b | b in s.live ensures PageOf(b) != p { assert Carved(s.bsize, s.carved, b); }
  }

  lemma FullIsOk(p: nat, bs: nat, carved: nat, l: seq<nat>, head: bool)
    requires carved >= Total(bs)
    ensures OpenOk(p, bs, carved, l, head)
  {
  }

  lemma FirstBlocks(i: nat, p: nat)
    requires i < 30 && IsPage(p)
    ensures |SIZES| == NUM_ALLOCATORS
    ensures PageOf(Blk(p, SIZES[i], 0)) == p == PageOf(Blk(p, SIZES[i], 1))
        && Blk(p, SIZES[i], 0) != Blk(p, SIZES[i], 1)
  {
    hide PageOf, Total;
    SizeFacts(i);
    BlkPage(p, SIZES[i], 0);
    BlkPage(p, SIZES[i], 1);
  }

  lemma OpenThis(s: Slab, i: nat, p: nat)
    requires Shape(s) && LiveOk(s) && i < 30 && |SIZES| == NUM_ALLOCATORS && s.lists[i] == [] && IsPage(p)
        && p !in s.bsize
    requires Usable(SIZES[i]) && 2 <= Total(SIZES[i]) && LiveIn(s.live, p) == {}
    requires PageOf(Blk(p, SIZES[i], 0)) == p == PageOf(Blk(p, SIZES[i], 1))
        && Blk(p, SIZES[i], 0) != Blk(p, SIZES[i], 1)
    ensures var t := Open(s, i, p);
            && ListOk(t, i) && PageOk(p, SIZES[i], t.count[p], t.carved[p], t.lists[i], t.live)
            && OpenOk(p, SIZES[i], t.carved[p], t.lists[i], t.heads[i]) && forall b :: b in t.live ==> PageOf(b) != p
  {
    hide PageOf, Total, Blk, SIZES, Usable;
    var bs, t := SIZES[i], Open(s, i, p);
    assert Carved(t.bsize, t.carved, Blk(p, bs, 0)) && Carved(t.bsize, t.carved, Blk(p, bs, 1));
    assert forall b :: b in s.live ==> (PageOf(b) == p <==> b in LiveIn(s.live, p));
    forall k | 0 <= k < 2 ensures Blk(p, bs, k) in t.lists[i] && Blk(p, bs, k) !in t.live {}
  }

  // ---------- giving a block back ----------

  /** Second in the list, or alone in it. */
  function Listed(l: seq<nat>, b: nat): (r: seq<nat>)
    ensures l == [] ==> r == [b]
    ensures l != [] ==> |r| == |l| + 1 && r[0] == l[0] && r[1] == b && r[2..] == l[1..]
  {
    if l == [] then [b] else [l[0], b] + l[1..]
  }

  function Freed(s: Slab, i: nat, b: nat): Slab
    requires i < |s.lists| == |s.heads| && PageOf(b) in s.count
  {
    s.(lists := s.lists[i := Listed(s.lists[i], b)], heads := if s.lists[i] == [] then s.heads[i := false] else s.heads,
       count := s.count[PageOf(b) := s.count[PageOf(b)] + 1], live := s.live - {b})
  }

  lemma ListedMembers(l: seq<nat>, b: nat)
    requires Distinct(l) && b !in l
    ensures Distinct(Listed(l, b)) && forall c :: c in Listed(l, b) <==> c in l || c == b
  {
    if l != [] {
      var h, t := [l[0]], l[1..];
      assert l == h + t;
      DistinctParts(h, t);
      assert [l[0], b] == h + [b];
      DistinctParts(h, [b]);
      assert l[0] in l;
      DistinctParts(h + [b], t);
    }
  }

  lemma FreedKeeps(s: Slab, i: nat, b: nat)
    requires Inv(s) && i < 30 && b in s.live && PageOf(b) in s.bsize && s.bsize[PageOf(b)] == SIZES[i]
    ensures PageOf(b) in s.count && Inv(Freed(s, i, b))
  {
    hide PageOf, Blk, Total, SIZES, Usable, PageOk, OpenOk, ListOk, Carved, ClassOk;
    var p := PageOf(b);
    FreedBlock(s, i, b);
    var t := Freed(s, i, b);
    ListedMembers(s.lists[i], b);
    FreedPage(s, i, b);
    FreedOpen(s, i, b);
    FreedList(s, i, b);
    forall c | c in t.live && PageOf(c) == p ensures Carved(t.bsize, t.carved, c) && t.live[c] <= SIZES[i]
    {
      assert c in s.live;
    }
    assert Local(s, t, i, p) && PageSettled(t, i, p);
    LocalKeeps(s, t, i, p);
  }

  lemma FreedBlock(s: Slab, i: nat, b: nat)
    requires Inv(s) && i < 30 && b in s.live && PageOf(b) in s.bsize && s.bsize[PageOf(b)] == SIZES[i]
    ensures PageOf(b) in s.count && PageOf(b) in s.carved && b !in s.lists[i] && Distinct(s.lists[i])
  {
    hide PageOf, Blk, Total, SIZES, Usable, PageOk, OpenOk, Carved;
    assert ClassOk(s, i);
  }

  lemma FreedOpen(s: Slab, i: nat, b: nat)
    requires Inv(s) && i < 30 && b in s.live && PageOf(b) in s.bsize && s.bsize[PageOf(b)] == SIZES[i]
        && PageOf(b) in s.count
    ensures var t := Freed(s, i, b);
            forall q :: q in t.bsize && t.bsize[q] == SIZES[i] ==>
                q in t.carved && OpenOk(q, SIZES[i], t.carved[q], t.lists[i], t.heads[i])
  {
    hide PageOf, Blk, Total, SIZES, Usable, PageOk, ListOk, Carved;
    var t := Freed(s, i, b);
    assert ClassOk(s, i);
    forall q | q in t.bsize && t.bsize[q] == SIZES[i] ensures OpenOk(q, SIZES[i], t.carved[q], t.lists[i], t.heads[i]) {
      CarvedAtLeast(s, i, q);
    }
  }

  lemma FreedList(s: Slab, i: nat, b: nat)
    requires Inv(s) && i < 30 && b in s.live && PageOf(b) in s.bsize && s.bsize[PageOf(b)] == SIZES[i]
        && PageOf(b) in s.count
    requires Distinct(Listed(s.lists[i], b)) && forall c :: c in Listed(s.lists[i], b) <==> c in s.lists[i] || c == b
    ensures ListOk(Freed(s, i, b), i)
  {
    hide PageOf, Blk, Total, SIZES, Usable, PageOk, OpenOk, Carved, Listed, Distinct;
    assert ClassOk(s, i);
    assert Carved(s.bsize, s.carved, b);
  }

  lemma FreedPage(s: Slab, i: nat, b: nat)
    requires Inv(s) && i < 30 && b in s.live && PageOf(b) in s.bsize && s.bsize[PageOf(b)] == SIZES[i]
    requires b !in s.lists[i] && forall c :: c in Listed(s.lists[i], b) <==> c in s.lists[i] || c == b
    ensures var p := PageOf(b);
            && p in s.count && p in s.carved
            && var t := Freed(s, i, b);
               PageOk(p, SIZES[i], t.count[p], t.carved[p], t.lists[i], t.live)
  {
    hide PageOf, Blk, Total, OpenOk, ListOk, Carved, SIZES, Usable, Listed;
    var p := PageOf(b);
    assert ClassOk(s, i);
    var t := Freed(s, i, b);
    assert LiveIn(t.live, p) == LiveIn(s.live, p) - {b};
    assert b in LiveIn(s.live, p);
  }

  // ---------- giving a page back ----------

  /** The list without the blocks of page `p`. */
  function Unlink(l: seq<nat>, p: nat): seq<nat> {
    if l == [] then [] else if PageOf(l[0]) == p then Unlink(l[1..], p) else [l[0]] + Unlink(l[1..], p)
  }

  lemma {:induction false} UnlinkMembers(l: seq<nat>, p: nat)
    requires Distinct(l)
    ensures Distinct(Unlink(l, p)) && forall b :: b in Unlink(l, p) <==> b in l && PageOf(b) != p
  {
    hide PageOf;
    if l != [] {
      UnlinkMembers(l[1..], p);
      assert l == [l[0]] + l[1..];
    }
  }

  function Released(s: Slab, i: nat, p: nat): Slab
    requires i < |s.lists|
  {
    s.(lists := s.lists[i := Unlink(s.lists[i], p)], bsize := s.bsize - {p}, count := s.count - {p},
      carved := s.carved - {p})
  }

  lemma ReleasedList(s: Slab, i: nat, p: nat)
    requires Inv(s) && i < 30 && p in s.bsize
    ensures ListOk(Released(s, i, p), i)
  {
    hide PageOf, Blk, Total, PageOk, OpenOk, LiveOk, Unlink;
    assert ClassOk(s, i);
    UnlinkMembers(s.lists[i], p);
    var t := Released(s, i, p);
    forall b | b in t.lists[i] ensures Carved(t.bsize, t.carved, b) {
      assert Carved(s.bsize, s.carved, b);
    }
  }

  /** A page without live blocks can go back to the pool. */
  lemma ReleasedKeeps(s: Slab, i: nat, p: nat)
    requires Inv(s) && i < 30 && p in s.bsize && s.bsize[p] == SIZES[i] && LiveIn(s.live, p) == {}
    ensures Inv(Released(s, i, p))
  {
    hide PageOf, Blk, Total, PageOk, Unlink, OpenOk, ListOk, Carved, ClassOk;
    var bs, t := SIZES[i], Released(s, i, p);
    ReleasedList(s, i, p);
    ReleasedOpen(s, i, p);
    ListDistinct(s, i);
    UnlinkMembers(s.lists[i], p);
    assert forall b :: b in s.live ==> (PageOf(b) == p <==> b in LiveIn(s.live, p));
    assert Local(s, t, i, p) && PageSettled(t, i, p);
    LocalKeeps(s, t, i, p);
  }

  lemma InvShape(s: Slab)
    requires Inv(s)
    ensures Shape(s) && |SIZES| == NUM_ALLOCATORS
  {
  }

  lemma ListDistinct(s: Slab, i: nat)
    requires Inv(s) && i < 30
    ensures Distinct(s.lists[i])
  {
    assert ClassOk(s, i);
  }

  lemma ReleasedOpen(s: Slab, i: nat, p: nat)
    requires Inv(s) && i < 30 && p in s.bsize && s.bsize[p] == SIZES[i]
    ensures var t := Released(s, i, p);
            forall q :: q in t.bsize && q != p && t.bsize[q] == SIZES[i] ==>
              q in t.carved && OpenOk(q, SIZES[i], t.carved[q], t.lists[i], t.heads[i])
  {
    hide PageOf, Blk, Total, PageOk, ListOk, LiveOk;
    var bs, t := SIZES[i], Released(s, i, p);
    assert ClassOk(s, i);
    forall q | q in t.bsize && q != p && t.bsize[q] == bs
      ensures q in t.carved && OpenOk(q, bs, t.carved[q], t.lists[i], t.heads[i])
    {
      CarvedAtLeast(s, i, q);
      if s.carved[q] < Total(bs) { OpenIsFirst(s, i, q); }
    }
  }

  // ---------- the two guards of carving ----------

  /** The state in which all blocks of page `p` but the last one are live. */
  ghost function LastLeft(i: nat, p: nat): Slab
    requires i < 30 && |SIZES| == NUM_ALLOCATORS
  {
    var bs, n := SIZES[i], Total(SIZES[i]);
    var others := Blocks(p, bs, if n > 0 then n - 1 else 0);
    Slab(seq(NUM_ALLOCATORS, j => if j == i && n > 0 then [Blk(p, bs, n - 1)] else []),
      seq(NUM_ALLOCATORS, j => j == i),
        map[p := bs], map[p := 1], map[p := n], map b | b in others :: bs)
  }

  /** In this state the test of the offset alone would carve on into the next page, exactly in the two
      classes whose blocks fill a page to its end; the test of the count beside it does not. */
  lemma OffsetAlone(i: nat, p: nat)
    requires i < 30 && IsPage(p)
    ensures |SIZES| == NUM_ALLOCATORS && var s := LastLeft(i, p);
            && Inv(s) && |s.lists[i]| == 1 && s.heads[i] && s.count[p] == 1
            && var next := s.lists[i][0] + SIZES[i];
               && (next % PAGE_SIZE + SIZES[i] <= PAGE_SIZE <==> SIZES[i] in {8, 56})
               && (SIZES[i] in {8, 56} ==> PageOf(s.lists[i][0]) == p && next == p + PAGE_SIZE)
  {
    hide Inv, PageOf, Blk, Blocks, SIZES, Total, Usable;
    SizeFacts(i);
    LastLeftOk(i, p);
    BlkPage(p, SIZES[i], Total(SIZES[i]) - 1);
    BlkStep(p, SIZES[i], Total(SIZES[i]));
    FillsPage(i, p);
  }

  lemma BlkStep(p: nat, bs: nat, k: nat)
    requires k > 0
    ensures Blk(p, bs, k - 1) + bs == Blk(p, bs, k)
  {
    assert k * bs == (k - 1) * bs + bs;
  }

  /** Where a block after the last one of a page would be. */
  lemma FillsPage(i: nat, p: nat)
    requires i < 30 && IsPage(p)
    ensures |SIZES| == NUM_ALLOCATORS && var next := Blk(p, SIZES[i], Total(SIZES[i]));
            && (next % PAGE_SIZE + SIZES[i] <= PAGE_SIZE <==> SIZES[i] in {8, 56})
            && (SIZES[i] in {8, 56} ==> next == p + PAGE_SIZE)
  {
    SizeEnds(i);
    var o := 8 + Total(SIZES[i]) * SIZES[i];
    assert (p + o) % PAGE_SIZE == o % PAGE_SIZE;
  }

  lemma SizeEnds(i: nat)
    requires i < 30
    ensures |SIZES| == NUM_ALLOCATORS && var o := 8 + Total(SIZES[i]) * SIZES[i];
            && o <= PAGE_SIZE && (o == PAGE_SIZE <==> SIZES[i] in {8, 56})
              && (o < PAGE_SIZE ==> o + SIZES[i] > PAGE_SIZE)
  {
  }

  lemma LastLeftOk(i: nat, p: nat)
    requires i < 30 && IsPage(p)
    ensures |SIZES| == NUM_ALLOCATORS && Inv(LastLeft(i, p)) && Usable(SIZES[i]) && Total(SIZES[i]) >= 2
    ensures LastLeft(i, p).lists[i] == [Blk(p, SIZES[i], Total(SIZES[i]) - 1)]
  {
    hide PageOf, Blk, Total, SIZES, Blocks, PageOk, ListOk;
    SizeFacts(i);
    SizeUsable(i);
    var bs, n, s := SIZES[i], Total(SIZES[i]), LastLeft(i, p);
    forall b | b in s.live ensures Carved(s.bsize, s.carved, b) && s.live[b] <= s.bsize[PageOf(b)] {
      BlockOf(p, bs, n - 1, b);
    }
    LastLeftPage(i, p);
    LastLeftList(i, p);
    forall j | 0 <= j < 30 ensures ClassOk(s, j) {
      if j != i {
        if i < j { SizesGrow(i, j); } else { SizesGrow(j, i); }
        EmptyList(s, j);
      }
    }
  }

  lemma EmptyList(s: Slab, i: nat)
    requires i < |s.lists| && i < |SIZES| && s.lists[i] == []
    ensures ListOk(s, i)
  {
  }

  lemma SizeUsable(i: nat)
    requires i < 30
    ensures |SIZES| == NUM_ALLOCATORS && Usable(SIZES[i])
  {
    assert SIZES[i] == SIZES[..30][i];
  }

  lemma BlockOf(p: nat, bs: nat, n: nat, b: nat)
    requires IsPage(p) && Usable(bs) && n < Total(bs) && b in Blocks(p, bs, n)
    ensures PageOf(b) == p && Carved(map[p := bs], map[p := Total(bs)], b) && b != Blk(p, bs, n)
  {
    hide PageOf, Blk, Total;
    UsableFacts(bs);
    var k :| 0 <= k < n && b == Blk(p, bs, k);
    BlkPage(p, bs, k);
    BlkApart(p, bs, k, n);
    CarvedAt(map[p := bs], map[p := Total(bs)], p, bs, k);
  }

  lemma CarvedAt(bsize: map<nat, nat>, carved: map<nat, nat>, p: nat, bs: nat, k: nat)
    requires p in bsize && p in carved && bsize[p] == bs && k < carved[p] && PageOf(Blk(p, bs, k)) == p
    ensures Carved(bsize, carved, Blk(p, bs, k))
  {
    hide PageOf, Blk;
  }

  lemma LastLeftPage(i: nat, p: nat)
    requires i < 30 && IsPage(p) && |SIZES| == NUM_ALLOCATORS && Usable(SIZES[i]) && Total(SIZES[i]) >= 2
    ensures var s := LastLeft(i, p); PageOk(p, SIZES[i], s.count[p], s.carved[p], s.lists[i], s.live)
  {
    hide PageOf, Blk, Total, SIZES;
    var bs, n, s := SIZES[i], Total(SIZES[i]), LastLeft(i, p);
    UsableFacts(bs);
    BlocksCount(p, bs, n - 1);
    forall b | b in Blocks(p, bs, n - 1) ensures PageOf(b) == p && b != Blk(p, bs, n - 1) { BlockOf(p, bs, n - 1, b); }
    assert LiveIn(s.live, p) == Blocks(p, bs, n - 1);
  }

  lemma LastLeftList(i: nat, p: nat)
    requires i < 30 && IsPage(p) && |SIZES| == NUM_ALLOCATORS && Usable(SIZES[i]) && Total(SIZES[i]) >= 2
    ensures ListOk(LastLeft(i, p), i)
  {
    hide PageOf, Blk, Total, SIZES, Blocks;
    var bs, n, s := SIZES[i], Total(SIZES[i]), LastLeft(i, p);
    BlkPage(p, bs, n - 1);
    CarvedAt(s.bsize, s.carved, p, bs, n - 1);
    if Blk(p, bs, n - 1) in s.live { BlockOf(p, bs, n - 1, Blk(p, bs, n - 1)); }
  }
}
