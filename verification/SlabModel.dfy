/** The slab allocator as values: which blocks of which pages are live, listed or not carved yet. */
module SlabModel {
  import opened Pages
  import opened Sequences

  const NUM_ALLOCATORS: nat := 31
  const SIZES: seq<nat> := [8, 16, 24, 32, 40, 48, 56, 64, 72, 80, 88, 96, 104, 112, 120, 128, 136, 144, 152, 160,
    168, 200,
                            224, 256, 312, 384, 448, 512, 1016, 2040, 4080]
  const MAX_REQUEST: nat := 2040

  /** The class sizes in use: multiples of 8, growing, and whole pages of them fit behind an 8-byte
      header although the program divides the page behind a 4-byte one. */
  lemma SizeFacts(i: nat)
    requires i < 30
    ensures |SIZES| == NUM_ALLOCATORS && 8 <= SIZES[i] <= MAX_REQUEST && SIZES[i] % 8 == 0
    ensures 2 <= Total(SIZES[i]) && 8 + Total(SIZES[i]) * SIZES[i] <= PAGE_SIZE
  {
  }

  lemma SizesStep(i: nat)
    requires i < 30
    ensures |SIZES| == NUM_ALLOCATORS && SIZES[i] < SIZES[i + 1]
  {
  }

  lemma {:induction false} SizesGrow(i: nat, j: nat)
    requires i < j < NUM_ALLOCATORS
    ensures |SIZES| == NUM_ALLOCATORS && SIZES[i] < SIZES[j]
  {
    SizesStep(j - 1);
    if i < j - 1 { SizesGrow(i, j - 1); }
  }

  /** `(PAGE_SIZE - sizeof(Header)) / block_size` */
  function Total(bs: nat): nat { if bs == 0 then 0 else (PAGE_SIZE - 4) / bs }

  /** As many blocks as fit behind the header, and no more. */
  lemma TotalFits(bs: nat)
    requires bs > 0
    ensures Total(bs) * bs <= PAGE_SIZE - 4 < (Total(bs) + 1) * bs
  {
  }

  /** A new page always lists a second block; it fits the page exactly in the classes up to 2040. */
  lemma SecondBlockFits(p: nat, i: nat)
    requires IsPage(p) && i < NUM_ALLOCATORS
    ensures |SIZES| == NUM_ALLOCATORS
    ensures Blk(p, SIZES[i], 1) + SIZES[i] <= p + PAGE_SIZE <==> SIZES[i] <= MAX_REQUEST
  {
    if i < 30 { SizeFacts(i); }
  }

  /** A class size that is in use for requests of at most 2040 bytes. */
  predicate Usable(bs: nat) { bs in SIZES[..30] }

  lemma UsableFacts(bs: nat)
    requires Usable(bs)
    ensures 8 <= bs <= MAX_REQUEST && bs % 8 == 0 && 2 <= Total(bs) && 8 + Total(bs) * bs <= PAGE_SIZE
  {
    var i :| 0 <= i < 30 && SIZES[i] == bs;
    SizeFacts(i);
  }

  /** The class of a request: the least one whose blocks are large enough. */
  predicate ClassFor(size: nat, i: nat) {
    i < NUM_ALLOCATORS && |SIZES| == NUM_ALLOCATORS && size <= SIZES[i] && forall j :: 0 <= j < i ==> SIZES[j] < size
  }

  /** The `k`-th block of page `p`. */
  function Blk(p: nat, bs: nat, k: nat): nat { p + 8 + k * bs }

  lemma BlkPage(p: nat, bs: nat, k: nat)
    requires IsPage(p) && Usable(bs) && k < Total(bs)
    ensures PageOf(Blk(p, bs, k)) == p && Blk(p, bs, k) % 8 == 0
    ensures p + 8 <= Blk(p, bs, k) && Blk(p, bs, k) + bs <= p + PAGE_SIZE
  {
    hide Usable, Total, PageOf, IsPage;
    UsableFacts(bs);
    Times(k + 1, Total(bs), bs);
    assert (k + 1) * bs == k * bs + bs;
    EightTimes(k, bs);
    InPage(p, 8 + k * bs);
  }

  lemma InPage(p: nat, o: nat)
    requires IsPage(p) && o < PAGE_SIZE && o % 8 == 0
    ensures PageOf(p + o) == p && (p + o) % 8 == 0
  {
  }

  lemma Times(a: nat, b: nat, m: nat)
    requires a <= b
    ensures a * m <= b * m
  {
  }

  lemma EightTimes(k: nat, bs: nat)
    requires bs % 8 == 0
    ensures k * bs % 8 == 0
  {
    assert k * bs == k * (bs / 8) * 8;
  }

  lemma BlkApart(p: nat, bs: nat, j: nat, k: nat)
    requires bs > 0 && j < k
    ensures Blk(p, bs, j) + bs <= Blk(p, bs, k)
  {
    Times(j + 1, k, bs);
    assert (j + 1) * bs == j * bs + bs;
  }

  // ---------- the state ----------

  /** The lists and head flags per class, the page headers, how far each page is carved up, the
      live blocks with the sizes asked for, and the free pages. */
  datatype Slab = Slab(lists: seq<seq<nat>>, heads: seq<bool>, bsize: map<nat, nat>, count: map<nat, nat>,
                       carved: map<nat, nat>, live: map<nat, nat>)

  ghost function LiveIn(live: map<nat, nat>, p: nat): set<nat> { set b | b in live && PageOf(b) == p }

  ghost function ListedIn(l: seq<nat>, p: nat): set<nat> { set b | b in l && PageOf(b) == p }

  /** `b` is one of the blocks carved out of its page. */
  ghost predicate Carved(bsize: map<nat, nat>, carved: map<nat, nat>, b: nat) {
    var p := PageOf(b);
    p in bsize && p in carved && exists k :: 0 <= k < carved[p] && b == Blk(p, bsize[p], k)
  }

  /** Every carved block of the page is either listed or live, and the header counts the rest. */
  ghost predicate PageOk(p: nat, bs: nat, count: nat, carved: nat, l: seq<nat>, live: map<nat, nat>) {
    && IsPage(p) && Usable(bs) && 2 <= carved <= Total(bs) && count == Total(bs) - |LiveIn(live, p)|
    && forall k :: 0 <= k < carved ==> (Blk(p, bs, k) in l <==> Blk(p, bs, k) !in live)
  }

  /** A page with blocks not carved yet: its last carved block is the head of the list. */
  ghost predicate OpenOk(p: nat, bs: nat, carved: nat, l: seq<nat>, head: bool) {
    0 < carved < Total(bs) ==> head && l != [] && l[0] == Blk(p, bs, carved - 1)
  }

  ghost predicate ListOk(s: Slab, i: nat)
    requires i < |s.lists| && i < |SIZES|
  {
    var l := s.lists[i];
    && Distinct(l)
    && forall b :: b in l ==>
        Carved(s.bsize, s.carved, b) && PageOf(b) in s.bsize && s.bsize[PageOf(b)] == SIZES[i] && b !in s.live
  }

  /** Class `i` is in order. */
  ghost predicate ClassOk(s: Slab, i: nat)
    requires i < |s.lists| == |s.heads| && i < |SIZES|
  {
    && ListOk(s, i)
    && forall p :: p in s.bsize && s.bsize[p] == SIZES[i] ==>
         && p in s.count && p in s.carved
         && PageOk(p, SIZES[i], s.count[p], s.carved[p], s.lists[i], s.live)
         && OpenOk(p, SIZES[i], s.carved[p], s.lists[i], s.heads[i])
  }

  ghost predicate LiveOk(s: Slab) {
    forall b :: b in s.live ==> Carved(s.bsize, s.carved, b) && s.live[b] <= s.bsize[PageOf(b)]
  }

  ghost predicate Shape(s: Slab) {
    && |s.lists| == |s.heads| == NUM_ALLOCATORS && s.lists[30] == []
    && s.count.Keys == s.bsize.Keys == s.carved.Keys
    && (forall p :: p in s.bsize ==> IsPage(p) && Usable(s.bsize[p]))
  }

  ghost predicate Inv(s: Slab) {
    Shape(s) && LiveOk(s) && |SIZES| == NUM_ALLOCATORS && forall i :: 0 <= i < 30 ==> ClassOk(s, i)
  }

  // ---------- what the invariant promises ----------

  /** Live blocks are aligned, inside one page behind its header, as large as asked for, and do not
      overlap. */
  lemma LiveSafe(s: Slab, b: nat, c: nat)
    requires Inv(s) && b in s.live && c in s.live
    ensures b % 8 == 0 && PageOf(b) + 8 <= b && b + s.live[b] <= PageOf(b) + PAGE_SIZE && PageOf(b) in s.bsize
    ensures b != c ==> b + s.live[b] <= c || c + s.live[c] <= b
  {
    hide Blk, ClassOk, SIZES, Total, PageOf, Usable, IsPage;
    var j :| 0 <= j < s.carved[PageOf(b)] && b == Blk(PageOf(b), s.bsize[PageOf(b)], j);
    var k :| 0 <= k < s.carved[PageOf(c)] && c == Blk(PageOf(c), s.bsize[PageOf(c)], k);
    CarvedBound(s, b);
    CarvedBound(s, c);
    BlkPage(PageOf(b), s.bsize[PageOf(b)], j);
    BlkPage(PageOf(c), s.bsize[PageOf(c)], k);
    if PageOf(b) == PageOf(c) && b != c {
      UsableFacts(s.bsize[PageOf(b)]);
      if j < k {
        BlkApart(PageOf(b), s.bsize[PageOf(b)], j, k);
      } else {
        BlkApart(PageOf(b), s.bsize[PageOf(b)], k, j);
      }
    } else if b != c {
      PagesApart(PageOf(b), PageOf(c));
    }
  }

  lemma PagesApart(p: nat, q: nat)
    requires IsPage(p) && IsPage(q) && p != q
    ensures p + PAGE_SIZE <= q || q + PAGE_SIZE <= p
  {
  }

  lemma CarvedBound(s: Slab, b: nat)
    requires Inv(s) && PageOf(b) in s.bsize
    ensures PageOf(b) in s.carved && s.carved[PageOf(b)] <= Total(s.bsize[PageOf(b)]) && Usable(s.bsize[PageOf(b)])
        && IsPage(PageOf(b))
  {
    var p := PageOf(b);
    var i :| 0 <= i < 30 && SIZES[i] == s.bsize[p];
    assert ClassOk(s, i);
  }

  /** At most one page of a class has blocks that are neither listed nor live. */
  lemma OneOpenPage(s: Slab, i: nat, p: nat, q: nat)
    requires Inv(s) && i < 30 && p in s.bsize && q in s.bsize && s.bsize[p] == s.bsize[q] == SIZES[i]
    requires s.carved[p] < Total(SIZES[i]) && s.carved[q] < Total(SIZES[i])
    ensures p == q && s.lists[i] != [] && 0 < s.carved[p] && s.lists[i][0] == Blk(p, SIZES[i], s.carved[p] - 1)
  {
    hide Blk, Inv, SIZES, Total, PageOf;
    HeadOfOpen(s, i, p);
    HeadOfOpen(s, i, q);
  }

  lemma HeadOfOpen(s: Slab, i: nat, p: nat)
    requires Inv(s) && i < 30 && p in s.bsize && s.bsize[p] == SIZES[i] && s.carved[p] < Total(SIZES[i])
    ensures s.lists[i] != [] && 0 < s.carved[p] && s.lists[i][0] == Blk(p, SIZES[i], s.carved[p] - 1)
        && PageOf(s.lists[i][0]) == p
  {
    hide Blk, SIZES, Total, PageOf, PageOk, ListOk, LiveOk;
    assert ClassOk(s, i);
    CarvedAtLeast(s, i, p);
    BlkPage(p, SIZES[i], s.carved[p] - 1);
  }

  lemma CarvedAtLeast(s: Slab, i: nat, p: nat)
    requires Inv(s) && i < 30 && p in s.bsize && s.bsize[p] == SIZES[i]
    ensures 2 <= s.carved[p] <= Total(SIZES[i]) && IsPage(p) && Usable(SIZES[i])
  {
    assert ClassOk(s, i);
  }

  // ---------- counting ----------

  ghost function Blocks(p: nat, bs: nat, n: nat): set<nat> { set k | 0 <= k < n :: Blk(p, bs, k) }

  lemma {:induction false} BlocksCount(p: nat, bs: nat, n: nat)
    requires bs > 0
    ensures |Blocks(p, bs, n)| == n
  {
    if n == 0 {
      assert Blocks(p, bs, 0) == {};
    } else {
      BlocksCount(p, bs, n - 1);
      forall k | 0 <= k < n - 1 ensures Blk(p, bs, k) != Blk(p, bs, n - 1) { BlkApart(p, bs, k, n - 1); }
      assert Blocks(p, bs, n) == Blocks(p, bs, n - 1) + {Blk(p, bs, n - 1)};
    }
  }

  /** The header counts the listed blocks of the page and those not carved yet. */
  lemma CountIs(s: Slab, i: nat, p: nat)
    requires Inv(s) && i < 30 && p in s.bsize && s.bsize[p] == SIZES[i]
    ensures s.count[p] == |ListedIn(s.lists[i], p)| + Total(SIZES[i]) - s.carved[p]
  {
    hide Blk, OpenOk;
    var bs, n, l := SIZES[i], s.carved[p], s.lists[i];
    assert ClassOk(s, i);
    UsableFacts(bs);
    BlocksCount(p, bs, n);
    forall b ensures b in Blocks(p, bs, n) <==> b in LiveIn(s.live, p) || b in ListedIn(l, p) {
      if b in Blocks(p, bs, n) {
        var k :| 0 <= k < n && b == Blk(p, bs, k);
        BlkPage(p, bs, k);
      }
    }
    assert Blocks(p, bs, n) == LiveIn(s.live, p) + ListedIn(l, p);
    assert LiveIn(s.live, p) !! ListedIn(l, p);
  }
}
