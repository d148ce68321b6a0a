/** How many free blocks a write takes, and which blocks it has to log. */
module InodeRoom {
  import opened Bytes
  import opened Bitmap
  import opened InodeModel
  import opened InodeSteps
  import opened InodeGrowth

  // ---------- free blocks ----------

  ghost function FreeSet(g: Geometry, c: seq<Block>): set<nat> {
    set n | 0 <= n < g.numBlocks && !Marked(c, g.bitmapStart, n)
  }

  /** From `c` to `d` exactly `k` blocks were allocated. */
  ghost predicate Spent(g: Geometry, c: seq<Block>, d: seq<Block>, k: nat) {
    |FreeSet(g, c)| == |FreeSet(g, d)| + k
  }

  /** Fewer than `k` blocks are free. */
  ghost predicate Short(g: Geometry, c: seq<Block>, k: nat) { |FreeSet(g, c)| < k }

  ghost predicate Full(g: Geometry, c: seq<Block>) {
    forall m: nat :: m < g.numBlocks ==> Marked(c, g.bitmapStart, m)
  }

  lemma FullIsShort(g: Geometry, c: seq<Block>)
    ensures Full(g, c) <==> Short(g, c, 1)
  {
    hide Marked;
    if Full(g, c) {
      assert FreeSet(g, c) == {};
    } else {
      var n: nat :| n < g.numBlocks && !Marked(c, g.bitmapStart, n);
      assert n in FreeSet(g, c);
    }
  }

  lemma SpentOn(g: Geometry, c: seq<Block>, d: seq<Block>, z: seq<Block>, a: nat, b: nat)
    requires Spent(g, c, d, a)
    ensures Spent(g, d, z, b) ==> Spent(g, c, z, a + b)
    ensures Short(g, d, b) ==> Short(g, c, a + b)
  {
  }

  lemma SpentNothing(g: Geometry, c: seq<Block>, d: seq<Block>)
    requires forall n :: 0 <= n < g.numBlocks ==> (Marked(d, g.bitmapStart, n) <==> Marked(c, g.bitmapStart, n))
    ensures Spent(g, c, d, 0)
  {
    hide Marked;
    assert FreeSet(g, c) == FreeSet(g, d);
  }

  /** Allocating one free block. */
  lemma SpentOne(g: Geometry, c: seq<Block>, d: seq<Block>, n: nat)
    requires n < g.numBlocks && !Marked(c, g.bitmapStart, n)
    requires forall m :: 0 <= m < g.numBlocks ==> (Marked(d, g.bitmapStart, m) <==> m == n || Marked(c, g.bitmapStart,
        m))
    ensures Spent(g, c, d, 1)
  {
    hide Marked;
    assert n in FreeSet(g, c);
    assert FreeSet(g, d) == FreeSet(g, c) - {n};
  }

  lemma ShortMore(g: Geometry, c: seq<Block>, a: nat, b: nat)
    requires Short(g, c, a) && a <= b
    ensures Short(g, c, b)
  {
  }

  // ---------- the slots a write fills ----------

  function Gap(e: Dinode, c: seq<Block>, k: nat): nat
    requires |e.addrs| == INODE_NUM_DIRECT && k < INODE_MAX_BLOCKS
  {
    if Slot(e, c, k) == 0 then 1 else 0
  }

  /** The number of empty slots from `lo` up to `hi`. */
  function Gaps(e: Dinode, c: seq<Block>, lo: nat, hi: nat): nat
    requires |e.addrs| == INODE_NUM_DIRECT && hi <= INODE_MAX_BLOCKS
  {
    if hi <= lo then 0 else Gaps(e, c, lo, hi - 1) + Gap(e, c, hi - 1)
  }

  /** The blocks that mapping slot `k` allocates: the data block, and the indirect block. */
  function MapNeed(e: Dinode, c: seq<Block>, k: nat): nat
    requires |e.addrs| == INODE_NUM_DIRECT && k < INODE_MAX_BLOCKS
  {
    Gap(e, c, k) + if k >= INODE_NUM_DIRECT && e.indirect == 0 then 1 else 0
  }

  /** The blocks that writing `n` bytes at `offset` allocates. */
  function WriteNeed(e: Dinode, c: seq<Block>, offset: nat, n: nat): nat
    requires |e.addrs| == INODE_NUM_DIRECT && offset + n <= INODE_MAX_BYTES
  {
    var hi := BlocksFor(offset + n);
    if n == 0 then 0
    else Gaps(e, c, offset / BLOCK_SIZE, hi) + if hi > INODE_NUM_DIRECT && e.indirect == 0 then 1 else 0
  }

  /** The slots after such a write: those in its range are filled, the others are as before. */
  ghost predicate Filled(e: Dinode, c: seq<Block>, f: Dinode, d: seq<Block>, offset: nat, n: nat)
    requires |e.addrs| == INODE_NUM_DIRECT && |f.addrs| == INODE_NUM_DIRECT
  {
    && (forall k :: 0 <= k < INODE_MAX_BLOCKS && InRange(offset, n, k) ==> Slot(f, d, k) != 0)
    && (forall k :: 0 <= k < INODE_MAX_BLOCKS && !InRange(offset, n, k) ==> Slot(f, d, k) == Slot(e, c, k))
    && (f.indirect == e.indirect || (e.indirect == 0 && n > 0 && BlocksFor(offset + n) > INODE_NUM_DIRECT))
  }

  predicate InRange(offset: nat, n: nat, k: nat) {
    n > 0 && offset / BLOCK_SIZE <= k < BlocksFor(offset + n)
  }

  lemma FilledStart(e: Dinode, c: seq<Block>, f: Dinode, d: seq<Block>, offset: nat)
    requires |e.addrs| == INODE_NUM_DIRECT && |f.addrs| == INODE_NUM_DIRECT && f.indirect == e.indirect
    requires forall k :: 0 <= k < INODE_MAX_BLOCKS ==> Slot(f, d, k) == Slot(e, c, k)
    ensures Filled(e, c, f, d, offset, 0)
  {
  }

  lemma {:induction false} GapsSame(e: Dinode, c: seq<Block>, f: Dinode, d: seq<Block>, lo: nat, hi: nat)
    requires |e.addrs| == INODE_NUM_DIRECT && |f.addrs| == INODE_NUM_DIRECT && hi <= INODE_MAX_BLOCKS
    requires forall k :: lo <= k < hi ==> Slot(f, d, k) == Slot(e, c, k)
    ensures Gaps(f, d, lo, hi) == Gaps(e, c, lo, hi)
  {
    hide Slot;
    if lo < hi { GapsSame(e, c, f, d, lo, hi - 1); }
  }

  lemma {:induction false} GapsSplit(e: Dinode, c: seq<Block>, lo: nat, mid: nat, hi: nat)
    requires |e.addrs| == INODE_NUM_DIRECT && lo <= mid <= hi <= INODE_MAX_BLOCKS
    ensures Gaps(e, c, lo, hi) == Gaps(e, c, lo, mid) + Gaps(e, c, mid, hi)
  {
    hide Slot;
    if mid < hi { GapsSplit(e, c, lo, mid, hi - 1); }
  }

  /** What the second part of a write still needs, after the first. */
  lemma NeedThen(e: Dinode, c: seq<Block>, f: Dinode, d: seq<Block>, offset: nat, a: nat, b: nat)
    requires |e.addrs| == INODE_NUM_DIRECT && |f.addrs| == INODE_NUM_DIRECT && offset + a + b <= INODE_MAX_BYTES
    requires Filled(e, c, f, d, offset, a)
    ensures WriteNeed(e, c, offset, a + b) == WriteNeed(e, c, offset, a) + WriteNeed(f, d, offset + a, b)
  {
    hide Slot;
    if a > 0 && b > 0 {
      var lo, mid, hi := offset / BLOCK_SIZE, BlocksFor(offset + a), BlocksFor(offset + a + b);
      var mid2 := (offset + a) / BLOCK_SIZE;
      assert mid2 == mid || (mid2 == mid - 1 && mid2 >= lo);
      GapsSplit(e, c, lo, mid, hi);
      if mid2 < mid {
        GapsSplit(f, d, mid2, mid, hi);
        assert InRange(offset, a, mid2);
        assert Gaps(f, d, mid2, mid) == Gaps(f, d, mid2, mid2) + Gap(f, d, mid2);
      }
      forall k | mid <= k < hi ensures Slot(f, d, k) == Slot(e, c, k) { assert !InRange(offset, a, k); }
      GapsSame(e, c, f, d, mid, hi);
      if mid > INODE_NUM_DIRECT {
        assert InRange(offset, a, mid - 1);
        FilledIndirect(f, d, mid - 1);
      }
    } else if b > 0 {
      forall k | 0 <= k < INODE_MAX_BLOCKS ensures Slot(f, d, k) == Slot(e, c, k) { assert !InRange(offset, a, k); }
      GapsSame(e, c, f, d, offset / BLOCK_SIZE, BlocksFor(offset + b));
    }
  }

  lemma FilledIndirect(f: Dinode, d: seq<Block>, k: nat)
    requires |f.addrs| == INODE_NUM_DIRECT && INODE_NUM_DIRECT <= k < INODE_MAX_BLOCKS && Slot(f, d, k) != 0
    ensures f.indirect != 0
  {
  }

  /** A write inside one block. */
  lemma NeedInBlock(e: Dinode, c: seq<Block>, k: nat, o: nat, n: nat)
    requires |e.addrs| == INODE_NUM_DIRECT && k < INODE_MAX_BLOCKS && 0 < n && o + n <= BLOCK_SIZE
    ensures k * BLOCK_SIZE + o + n <= INODE_MAX_BYTES
    ensures WriteNeed(e, c, k * BLOCK_SIZE + o, n) == MapNeed(e, c, k)
  {
    hide Slot;
    assert (k * BLOCK_SIZE + o) / BLOCK_SIZE == k && BlocksFor(k * BLOCK_SIZE + o + n) == k + 1;
    assert Gaps(e, c, k, k + 1) == Gaps(e, c, k, k) + Gap(e, c, k);
  }

  lemma NeedGrows(e: Dinode, c: seq<Block>, offset: nat, a: nat, b: nat)
    requires |e.addrs| == INODE_NUM_DIRECT && offset + b <= INODE_MAX_BYTES && a <= b
    ensures WriteNeed(e, c, offset, a) <= WriteNeed(e, c, offset, b)
  {
    hide Slot;
    if a > 0 { GapsSplit(e, c, offset / BLOCK_SIZE, BlocksFor(offset + a), BlocksFor(offset + b)); }
  }

  /** One turn: slot `k` is mapped. */
  lemma FilledTurn(e: Dinode, c: seq<Block>, f: Dinode, d: seq<Block>, h: Dinode, z: seq<Block>, y: seq<Block>,
                   offset: nat, a: nat, k: nat, o: nat, n: nat)
    requires |e.addrs| == INODE_NUM_DIRECT && |f.addrs| == INODE_NUM_DIRECT && |h.addrs| == INODE_NUM_DIRECT
    requires offset + a == k * BLOCK_SIZE + o && 0 < n && o + n <= BLOCK_SIZE && k < INODE_MAX_BLOCKS
        && (a > 0 ==> o == 0)
    requires Filled(e, c, f, d, offset, a) && OtherSlots(f, d, h, z, k) && Slot(h, z, k) != 0
    requires (k < INODE_NUM_DIRECT || f.indirect != 0) ==> h.indirect == f.indirect
    requires forall j :: 0 <= j <= INDIRECT_SLOT ==> Slot(h, y, j) == Slot(h, z, j)
    ensures Filled(e, c, h, y, offset, a + n)
  {
    hide Slot;
    assert BlocksFor(offset + a + n) == k + 1 && (a > 0 ==> BlocksFor(offset + a) == k);
    forall j | 0 <= j < INODE_MAX_BLOCKS
      ensures if InRange(offset, a + n, j) then Slot(h, y, j) != 0 else Slot(h, y, j) == Slot(e, c, j)
    {
      assert InRange(offset, a + n, j) <==> j == k || InRange(offset, a, j);
    }
  }

  // ---------- the blocks that have to be logged ----------

  /** A growing file logs every block it gains, the bitmap block of each, and its indirect block when
      a word of that changes. */
  ghost predicate LogsNew(g: Geometry, e: Dinode, c: seq<Block>, f: Dinode, d: seq<Block>, foot: set<nat>)
    requires |e.addrs| == INODE_NUM_DIRECT && |f.addrs| == INODE_NUM_DIRECT
  {
    && (forall b :: b in Owned(f, d) && b !in Owned(e, c) ==> b in foot && MapNo(g.bitmapStart, b) in foot)
    && (forall k :: INODE_NUM_DIRECT <= k < INODE_MAX_BLOCKS && Slot(f, d, k) != Slot(e, c, k) ==> f.indirect in foot)
  }

  lemma LogsNothing(g: Geometry, e: Dinode, c: seq<Block>, f: Dinode, d: seq<Block>)
    requires |e.addrs| == INODE_NUM_DIRECT && |f.addrs| == INODE_NUM_DIRECT
    requires forall k :: 0 <= k <= INDIRECT_SLOT ==> Slot(f, d, k) == Slot(e, c, k)
    ensures LogsNew(g, e, c, f, d, {})
  {
    hide Slot;
    assert Owned(f, d) == Owned(e, c);
  }

  lemma PricedNothing(g: Geometry, e: Dinode, c: seq<Block>)
    requires |e.addrs| == INODE_NUM_DIRECT
    ensures Spent(g, c, c, 0) && LogsNew(g, e, c, e, c, {})
  {
    LogsNothing(g, e, c, e, c);
  }

  lemma LogsOn(g: Geometry, e: Dinode, c: seq<Block>, f: Dinode, d: seq<Block>, h: Dinode, z: seq<Block>,
               a: set<nat>, b: set<nat>)
    requires |e.addrs| == INODE_NUM_DIRECT && |f.addrs| == INODE_NUM_DIRECT && |h.addrs| == INODE_NUM_DIRECT
    requires LogsNew(g, e, c, f, d, a) && LogsNew(g, f, d, h, z, b)
    requires (e.indirect != 0 ==> f.indirect == e.indirect) && (f.indirect != 0 ==> h.indirect == f.indirect)
    ensures LogsNew(g, e, c, h, z, a + b)
  {
    hide MapNo, Owned;
  }

  /** The indirect block first, then slot `k`. */
  lemma PricedOn(g: Geometry, e: Dinode, c: seq<Block>, f: Dinode, d: seq<Block>, h: Dinode, z: seq<Block>, k: nat,
                 a: set<nat>, b: set<nat>)
    requires |e.addrs| == INODE_NUM_DIRECT && |f.addrs| == INODE_NUM_DIRECT && |h.addrs| == INODE_NUM_DIRECT
    requires INODE_NUM_DIRECT <= k < INODE_MAX_BLOCKS && Slot(f, d, k) == Slot(e, c, k)
    requires LogsNew(g, e, c, f, d, a) && LogsNew(g, f, d, h, z, b)
    requires (e.indirect != 0 ==> f.indirect == e.indirect) && (f.indirect != 0 ==> h.indirect == f.indirect)
    requires Spent(g, c, d, if e.indirect == 0 then 1 else 0) && Spent(g, d, z, Gap(f, d, k))
    ensures Spent(g, c, z, MapNeed(e, c, k)) && LogsNew(g, e, c, h, z, a + b)
  {
    hide LogsNew, Slot;
    LogsOn(g, e, c, f, d, h, z, a, b);
  }

  lemma ShortThen(g: Geometry, e: Dinode, c: seq<Block>, f: Dinode, d: seq<Block>, k: nat)
    requires |e.addrs| == INODE_NUM_DIRECT && |f.addrs| == INODE_NUM_DIRECT
    requires INODE_NUM_DIRECT <= k < INODE_MAX_BLOCKS && Slot(f, d, k) == Slot(e, c, k)
    requires Spent(g, c, d, if e.indirect == 0 then 1 else 0) && Short(g, d, Gap(f, d, k))
    ensures Short(g, c, MapNeed(e, c, k))
  {
  }

  lemma LogsMore(g: Geometry, e: Dinode, c: seq<Block>, f: Dinode, d: seq<Block>, y: seq<Block>, a: set<nat>,
      b: set<nat>)
    requires |e.addrs| == INODE_NUM_DIRECT && |f.addrs| == INODE_NUM_DIRECT && LogsNew(g, e, c, f, d, a) && a <= b
    requires forall k :: 0 <= k <= INDIRECT_SLOT ==> Slot(f, y, k) == Slot(f, d, k)
    ensures LogsNew(g, e, c, f, y, b)
  {
    hide MapNo, Slot;
    assert Owned(f, y) == Owned(f, d);
  }

  /** One block `n` entered in slot `k`. */
  lemma LogsOne(g: Geometry, e: Dinode, c: seq<Block>, f: Dinode, d: seq<Block>, k: nat, n: nat, foot: set<nat>)
    requires |e.addrs| == INODE_NUM_DIRECT && |f.addrs| == INODE_NUM_DIRECT && k <= INDIRECT_SLOT
    requires forall j :: 0 <= j <= INDIRECT_SLOT ==> Slot(f, d, j) == if j == k then n else Slot(e, c, j)
    requires n in foot && MapNo(g.bitmapStart, n) in foot && (INODE_NUM_DIRECT <= k < INODE_MAX_BLOCKS ==>
        f.indirect in foot)
    ensures LogsNew(g, e, c, f, d, foot)
  {
    hide MapNo, Slot;
    forall b | b in Owned(f, d) ensures b == n || b in Owned(e, c) {
      var j :| 0 <= j <= INDIRECT_SLOT && Slot(f, d, j) != 0 && Slot(f, d, j) == b;
      if j != k { assert Slot(e, c, j) == b; }
    }
  }

  /** A block allocated, entered in the inode, and the inode written back. */
  lemma AddedRoom(g: Geometry, no: nat, e: Dinode, c: seq<Block>, f: Dinode, d: seq<Block>, k: nat, n: nat,
      foot: set<nat>)
    requires |e.addrs| == INODE_NUM_DIRECT && |f.addrs| == INODE_NUM_DIRECT && no < g.numInodes
    requires (k < INODE_NUM_DIRECT || k == INDIRECT_SLOT) && Added(g, no, e, c, f, d, k, n)
    requires n < g.numBlocks && !Marked(c, g.bitmapStart, n) && n in foot && MapNo(g.bitmapStart, n) in foot
    ensures Spent(g, c, Synced(g, no, f, d), 1) && LogsNew(g, e, c, f, Synced(g, no, f, d), foot)
  {
    hide Marked, Slot, Synced, Evolves, OnDisk, SameBytes, MapNo, Spent, LogsNew, Owns, Geometry.Laid;
    SyncExtends(g, no, f, d);
    SyncedMarks(g, no, f, d);
    SpentOne(g, c, Synced(g, no, f, d), n);
    LogsOne(g, e, c, f, Synced(g, no, f, d), k, n, foot);
  }

  /** A block allocated and entered in the indirect block. */
  lemma WordRoom(g: Geometry, no: nat, e: Dinode, c: seq<Block>, j: nat, n: nat, foot: set<nat>)
    requires g.Laid(c) && Owns(g, e, c) && j < INODE_NUM_INDIRECT && e.indirect != 0 && no < g.numInodes
    requires Slot(e, c, INODE_NUM_DIRECT + j) == 0 && n < g.numBlocks && !Marked(c, g.bitmapStart, n)
    requires n in foot && MapNo(g.bitmapStart, n) in foot && e.indirect in foot
    ensures e.indirect < |c| && var d := AddWord(e, Took(c, g.bitmapStart, n), j, n);
            Spent(g, c, d, 1) && LogsNew(g, e, c, e, d, foot)
  {
    hide Marked, Slot, Evolves, OnDisk, SameBytes, MapNo, Spent, LogsNew, Took, AddWord, Owns, Geometry.Laid;
    WordAdded(g, no, e, c, j, n);
    var d := AddWord(e, Took(c, g.bitmapStart, n), j, n);
    OwnsShape(g, e, c);
    SpentOne(g, c, d, n);
    LogsOne(g, e, c, e, d, INODE_NUM_DIRECT + j, n, foot);
  }

  /** What a finished write has logged at least. */
  ghost predicate HasLogged(g: Geometry, no: nat, e: Dinode, c: seq<Block>, f: Dinode, d: seq<Block>, offset: nat,
      n: nat,
                         foot: set<nat>)
    requires |e.addrs| == INODE_NUM_DIRECT && |f.addrs| == INODE_NUM_DIRECT
  {
    && LogsNew(g, e, c, f, d, foot) && (f.size != e.size ==> g.InodeBlock(no) in foot)
    && (forall k :: 0 <= k < INODE_MAX_BLOCKS && InRange(offset, n, k) ==> Slot(f, d, k) in foot)
  }

  lemma LoggedStart(g: Geometry, no: nat, e: Dinode, c: seq<Block>, f: Dinode, d: seq<Block>, offset: nat,
      foot: set<nat>)
    requires |e.addrs| == INODE_NUM_DIRECT && |f.addrs| == INODE_NUM_DIRECT
        && (f.size != e.size ==> g.InodeBlock(no) in foot)
    requires forall k :: 0 <= k <= INDIRECT_SLOT ==> Slot(f, d, k) == Slot(e, c, k)
    ensures HasLogged(g, no, e, c, f, d, offset, 0, foot)
  {
    hide Slot;
    LogsNothing(g, e, c, f, d);
    LogsMore(g, e, c, f, d, d, {}, foot);
  }

  lemma LoggedTurn(g: Geometry, no: nat, e: Dinode, c: seq<Block>, f: Dinode, d: seq<Block>, h: Dinode, z: seq<Block>,
                   y: seq<Block>, offset: nat, a: nat, k: nat, o: nat, n: nat, foot: set<nat>, all: set<nat>)
    requires |e.addrs| == INODE_NUM_DIRECT && |f.addrs| == INODE_NUM_DIRECT && |h.addrs| == INODE_NUM_DIRECT
    requires offset + a == k * BLOCK_SIZE + o && 0 < n && o + n <= BLOCK_SIZE && k < INODE_MAX_BLOCKS
        && (a > 0 ==> o == 0)
    requires HasLogged(g, no, e, c, f, d, offset, a, foot) && h.size == f.size && OtherSlots(f, d, h, z, k)
    requires LogsNew(g, f, d, h, z, all) && Slot(h, z, k) in all && (f.indirect != 0 ==> h.indirect == f.indirect)
    requires e.indirect != 0 ==> f.indirect == e.indirect
    requires forall j :: 0 <= j <= INDIRECT_SLOT ==> Slot(h, y, j) == Slot(h, z, j)
    ensures HasLogged(g, no, e, c, h, y, offset, a + n, foot + all)
  {
    hide Slot, LogsNew;
    LogsOn(g, e, c, f, d, h, z, foot, all);
    LogsMore(g, e, c, h, z, y, foot + all, foot + all);
    assert BlocksFor(offset + a + n) == k + 1 && (a > 0 ==> BlocksFor(offset + a) == k);
    forall j | 0 <= j < INODE_MAX_BLOCKS && InRange(offset, a + n, j) ensures Slot(h, y, j) in foot + all {
      assert j == k || InRange(offset, a, j);
    }
  }
}
