/** Giving all blocks of a file back. */
module InodeClear {
  import opened Bytes
  import opened Bitmap
  import opened Wal
  import opened InodeModel
  import opened InodeSteps
  import opened LogBudget
  import opened Sequences

  /** The order in which `inode_clear` frees the slots: the indirect words, the indirect block, the
      direct blocks. */
  function SlotAt(i: nat): (k: nat)
    requires i <= INDIRECT_SLOT
    ensures k <= INDIRECT_SLOT
  {
    if i < INODE_NUM_INDIRECT then INODE_NUM_DIRECT + i
    else if i == INODE_NUM_INDIRECT then INDIRECT_SLOT
    else i - INODE_NUM_INDIRECT - 1
  }

  /** The blocks in the first `i` slots of that order. */
  function Part(e: Dinode, c: seq<Block>, i: nat): set<nat>
    requires |e.addrs| == INODE_NUM_DIRECT && i <= INDIRECT_SLOT + 1
  {
    set j | 0 <= j < i && Slot(e, c, SlotAt(j)) != 0 :: Slot(e, c, SlotAt(j))
  }

  lemma PartNext(e: Dinode, c: seq<Block>, i: nat)
    requires |e.addrs| == INODE_NUM_DIRECT && i <= INDIRECT_SLOT
    ensures Part(e, c, i + 1) == Part(e, c, i) + (if Slot(e, c, SlotAt(i)) == 0 then {} else {Slot(e, c, SlotAt(i))})
  {
    hide Slot, SlotAt;
  }

  lemma PartAll(e: Dinode, c: seq<Block>)
    requires |e.addrs| == INODE_NUM_DIRECT
    ensures Part(e, c, INDIRECT_SLOT + 1) == Owned(e, c)
  {
    hide Slot;
    forall b ensures b in Owned(e, c) <==> b in Part(e, c, INDIRECT_SLOT + 1) {
      if b in Owned(e, c) {
        var k :| 0 <= k <= INDIRECT_SLOT && Slot(e, c, k) != 0 && Slot(e, c, k) == b;
        var i := if k == INDIRECT_SLOT then INODE_NUM_INDIRECT
                 else if k >= INODE_NUM_DIRECT then k - INODE_NUM_DIRECT else k + INODE_NUM_INDIRECT + 1;
        assert SlotAt(i) == k;
      }
    }
  }

  /** A block of a later slot was not freed before. */
  lemma PartNew(g: Geometry, e: Dinode, c: seq<Block>, i: nat)
    requires Owns(g, e, c) && i <= INDIRECT_SLOT && Slot(e, c, SlotAt(i)) != 0
    ensures |e.addrs| == INODE_NUM_DIRECT && Slot(e, c, SlotAt(i)) !in Part(e, c, i) && g.Data(c, Slot(e, c, SlotAt(i)))
  {
    hide Slot, Marked;
    forall j | 0 <= j < i && Slot(e, c, SlotAt(j)) != 0 ensures Slot(e, c, SlotAt(j)) != Slot(e, c, SlotAt(i)) {
      assert SlotAt(j) != SlotAt(i);
    }
  }

  /** Part of the bitmap. */
  ghost predicate IsMap(g: Geometry, b: nat) { exists n :: 0 <= n < g.numBlocks && b == MapNo(g.bitmapStart, n) }

  /** Exactly the marks of `freed` are gone, and only bitmap blocks changed. */
  ghost predicate Freed(g: Geometry, c: seq<Block>, d: seq<Block>, freed: set<nat>) {
    && |d| == |c| && g.Laid(d)
    && (forall n :: 0 <= n < g.numBlocks ==> (Marked(d, g.bitmapStart, n) <==>
        Marked(c, g.bitmapStart, n) && n !in freed))
    && (forall b: nat :: b < |c| && d[b] != c[b] ==> IsMap(g, b))
  }

  lemma FreedStart(g: Geometry, c: seq<Block>)
    requires g.Laid(c)
    ensures Freed(g, c, c, {})
  {
  }

  lemma FreedOn(g: Geometry, c: seq<Block>, d: seq<Block>, freed: set<nat>, n: nat)
    requires g.Laid(c) && Freed(g, c, d, freed) && n < g.numBlocks && !g.Meta(n)
    ensures MapNo(g.bitmapStart, n) < |d| && !InLog(g.logStart, MapNo(g.bitmapStart, n))
    ensures Freed(g, c, Gave(d, g.bitmapStart, n), freed + {n})
  {
    hide Marked, PutBit;
    var z := Gave(d, g.bitmapStart, n);
    forall m | 0 <= m < g.numBlocks ensures Marked(z, g.bitmapStart, m) <==> Marked(d, g.bitmapStart, m) && m != n {
      assert MapNo(g.bitmapStart, m) < |d|;
      MarkChanges(d, g.bitmapStart, n, false, m);
    }
    forall b | 0 <= b < g.numBlocks && g.Meta(b) ensures Marked(z, g.bitmapStart, b) {}
  }

  lemma FreedLaid(g: Geometry, c: seq<Block>, d: seq<Block>, freed: set<nat>, n: nat)
    requires g.Laid(c) && Freed(g, c, d, freed) && n < g.numBlocks && !g.Meta(n)
    ensures g.Laid(Gave(d, g.bitmapStart, n))
  {
    FreedOn(g, c, d, freed, n);
  }

  /** The slots of the file read the same while its blocks are being freed. */
  lemma FreedSlots(g: Geometry, e: Dinode, c: seq<Block>, d: seq<Block>, freed: set<nat>)
    requires g.Laid(c) && Owns(g, e, c) && Freed(g, c, d, freed)
    ensures |e.addrs| == INODE_NUM_DIRECT && (forall k :: 0 <= k <= INDIRECT_SLOT ==> Slot(e, d, k) == Slot(e, c, k))
    ensures e.indirect != 0 ==> e.indirect < |c| && d[e.indirect] == c[e.indirect]
  {
    hide Marked;
    if e.indirect != 0 {
      assert Slot(e, c, INDIRECT_SLOT) == e.indirect;
      assert g.Data(c, e.indirect);
      assert IsMap(g, e.indirect) ==> g.Meta(e.indirect);
    }
    SlotsSame(e, c, d);
  }

  /** The empty file. */
  function Emptied(e: Dinode): (f: Dinode)
    ensures |f.addrs| == INODE_NUM_DIRECT
  {
    e.(size := 0, addrs := seq(INODE_NUM_DIRECT, _ => 0), indirect := 0)
  }

  /** What `inode_clear` does: exactly the blocks of the file are unmarked, nothing but the bitmap
      and this inode changes on disk. */
  ghost predicate Cleared(g: Geometry, no: nat, e: Dinode, c: seq<Block>, f: Dinode, d: seq<Block>)
    requires |e.addrs| == INODE_NUM_DIRECT && |f.addrs| == INODE_NUM_DIRECT
  {
    && f == Emptied(e) && g.Laid(d) && Sound(g, f, d) && Owned(f, d) == {} && OnDisk(g, d, no) == f && |d| == |c|
    && (forall n :: 0 <= n < g.numBlocks ==>
          (Marked(d, g.bitmapStart, n) <==> Marked(c, g.bitmapStart, n) && n !in Owned(e, c)))
    && (forall b: nat :: b < |c| && d[b] != c[b] ==> IsMap(g, b) || b == g.InodeBlock(no))
    && (forall m :: 0 <= m < g.numInodes && m != no ==> OnDisk(g, d, m) == OnDisk(g, c, m))
  }

  /** The file is empty, in memory and on disk, and its inode otherwise as it was but for the type; exactly its
      blocks are free now, and the other inodes are as they were. */
  ghost predicate Erased(g: Geometry, no: nat, kind: nat, e: Dinode, c: seq<Block>, f: Dinode, d: seq<Block>) {
    && |e.addrs| == INODE_NUM_DIRECT
    && f == Dinode(kind, e.major, e.minor, e.links, 0, [0, 0, 0, 0, 0, 0, 0, 0, 0, 0, 0, 0], 0)
    && OnDisk(g, d, no) == f && |d| == |c|
    && (forall m :: 0 <= m < g.numInodes && m != no ==> OnDisk(g, d, m) == OnDisk(g, c, m))
    && forall n :: 0 <= n < g.numBlocks ==>
         (Marked(d, g.bitmapStart, n) <==> Marked(c, g.bitmapStart, n) && n !in Owned(e, c))
  }

  lemma ErasedAs(g: Geometry, no: nat, kind: nat, e: Dinode, c: seq<Block>, f: Dinode, d: seq<Block>)
    requires |e.addrs| == INODE_NUM_DIRECT && |f.addrs| == INODE_NUM_DIRECT
    requires Cleared(g, no, e.(kind := kind), c, f, d)
    ensures Erased(g, no, kind, e, c, f, d)
  {
    hide Geometry.Laid, Sound, OnDisk, Marked, Word;
    forall k | 0 <= k <= INDIRECT_SLOT ensures Slot(e.(kind := kind), c, k) == Slot(e, c, k) {}
    hide Slot;
    assert Owned(e.(kind := kind), c) == Owned(e, c);
  }

  lemma ClearedSynced(g: Geometry, no: nat, e: Dinode, c: seq<Block>, f: Dinode, d: seq<Block>)
    requires g.Laid(c) && Owns(g, e, c) && Freed(g, c, d, Owned(e, c)) && f == Emptied(e) && no < g.numInodes
    ensures Cleared(g, no, e, c, f, Synced(g, no, f, d))
  {
    hide Marked, OnDisk, Synced;
    forall k | 0 <= k <= INDIRECT_SLOT ensures Slot(f, d, k) == 0 {}
    assert Encodable(f) by { assert Pow256(4) > 0; }
    SyncStep(g, no, f, d);
    SyncedSame(g, no, f, d);
    hide Slot;
    var z := Synced(g, no, f, d);
    forall m | 0 <= m < g.numInodes && m != no ensures OnDisk(g, z, m) == OnDisk(g, c, m) {
      MetaBlock(g, c, m);
      assert !IsMap(g, g.InodeBlock(m));
      SameOnDisk(g, c, d, m);
    }
  }

  lemma SyncedSame(g: Geometry, no: nat, e: Dinode, c: seq<Block>)
    requires g.Laid(c) && no < g.numInodes && |e.addrs| == INODE_NUM_DIRECT
    ensures var d := Synced(g, no, e, c);
            && (forall n :: 0 <= n < g.numBlocks ==> (Marked(d, g.bitmapStart, n) <==> Marked(c, g.bitmapStart, n)))
            && (forall b :: 0 <= b < |c| && b != g.InodeBlock(no) ==> d[b] == c[b])
  {
    hide Bit, PutEntry;
    MetaBlock(g, c, no);
  }

  /** The other files keep their blocks and bytes. */
  lemma ClearedOthers(g: Geometry, no: nat, e: Dinode, c: seq<Block>, f: Dinode, d: seq<Block>, o: Dinode)
    requires g.Laid(c) && no < g.numInodes && |e.addrs| == INODE_NUM_DIRECT && |f.addrs| == INODE_NUM_DIRECT
    requires Cleared(g, no, e, c, f, d) && Sound(g, o, c) && Owned(o, c) !! Owned(e, c)
    ensures Sound(g, o, d) && FileBytes(o, d) == FileBytes(o, c) && Owned(o, d) == Owned(o, c)
  {
    hide Marked, OnDisk;
    forall k | 0 <= k <= INDIRECT_SLOT && Slot(o, c, k) != 0
      ensures Slot(o, c, k) < |c| && d[Slot(o, c, k)] == c[Slot(o, c, k)] && g.Data(d, Slot(o, c, k))
    {
      var b := Slot(o, c, k);
      assert g.Data(c, b) && b in Owned(o, c);
      assert IsMap(g, b) ==> g.Meta(b);
    }
    assert Slot(o, c, INDIRECT_SLOT) == o.indirect;
    SlotsSame(o, c, d);
    hide Slot;
    assert Owned(o, d) == Owned(o, c);
    forall i | 0 <= i < o.size ensures ByteAt(o, d, i) == ByteAt(o, c, i) {
      assert i / BLOCK_SIZE < BlocksFor(o.size);
    }
  }

  /** The bitmap blocks that freeing `bs` touches. */
  function MapsOf(g: Geometry, bs: set<nat>): set<nat> { set b | b in bs :: MapNo(g.bitmapStart, b) }

  lemma MapsOfNext(g: Geometry, bs: set<nat>, b: nat)
    ensures MapsOf(g, bs + {b}) == MapsOf(g, bs) + {MapNo(g.bitmapStart, b)}
  {
  }

  /** A larger footprint exceeds whatever a smaller one does. */
  lemma ExceedsMore(rm: nat, num: nat, pins: set<nat>, a: set<nat>, b: set<nat>)
    requires Exceeds(rm, num, pins, a) && a <= b
    ensures Exceeds(rm, num, pins, b)
  {
    Subset(a - pins, b - pins);
  }

  lemma PartOfAll(g: Geometry, e: Dinode, c: seq<Block>, i: nat)
    requires |e.addrs| == INODE_NUM_DIRECT && i <= INDIRECT_SLOT + 1
    ensures MapsOf(g, Part(e, c, i)) <= MapsOf(g, Owned(e, c))
  {
    hide Slot, SlotAt;
    PartAll(e, c);
  }

  lemma PartEmpty(g: Geometry, e: Dinode, c: seq<Block>)
    requires |e.addrs| == INODE_NUM_DIRECT
    ensures Part(e, c, 0) == {} && MapsOf(g, {}) == {}
    ensures e.indirect == 0 ==> Part(e, c, INODE_NUM_INDIRECT + 1) == {}
  {
  }

  lemma ClearedOwns(g: Geometry, no: nat, e: Dinode, c: seq<Block>, f: Dinode, d: seq<Block>)
    requires |e.addrs| == INODE_NUM_DIRECT && |f.addrs| == INODE_NUM_DIRECT && Cleared(g, no, e, c, f, d)
    ensures Owns(g, f, d) && Sound(g, f, d) && f == Emptied(e)
  {
  }

  /** Writing the cleared inode back once more changes nothing about it. */
  lemma ClearedAgain(g: Geometry, no: nat, e: Dinode, c: seq<Block>, f: Dinode, d: seq<Block>)
    requires g.Laid(c) && |e.addrs| == INODE_NUM_DIRECT && |f.addrs| == INODE_NUM_DIRECT && no < g.numInodes
    requires Cleared(g, no, e, c, f, d)
    ensures Cleared(g, no, e, c, f, Synced(g, no, f, d))
  {
    hide Marked, OnDisk, Synced, Slot;
    SyncStep(g, no, f, d);
    SyncedSame(g, no, f, d);
  }
}
