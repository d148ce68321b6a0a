/** How a file grows: the relation that every step of `inode_map` and `inode_write` keeps. */
module InodeGrowth {
  import opened Bytes
  import opened Bitmap
  import opened Wal
  import opened InodeModel
  import opened InodeSteps

  /** Blocks are only added: what was mapped stays mapped, every newly marked block belongs to the
      file, and an up-to-date inode on disk stays up to date. */
  ghost predicate Extends(g: Geometry, no: nat, e: Dinode, c: seq<Block>, f: Dinode, d: seq<Block>)
    requires |e.addrs| == INODE_NUM_DIRECT && |f.addrs| == INODE_NUM_DIRECT
  {
    && g.Laid(d) && Owns(g, f, d) && Evolves(g, no, e, c, f, d)
    && f == e.(size := f.size, addrs := f.addrs, indirect := f.indirect)
    && (forall k :: 0 <= k <= INDIRECT_SLOT && Slot(e, c, k) != 0 ==> Slot(f, d, k) == Slot(e, c, k))
    && (forall n :: 0 <= n < g.numBlocks ==>
          (Marked(d, g.bitmapStart, n) <==> Marked(c, g.bitmapStart, n) || n in Owned(f, d)))
    && (OnDisk(g, c, no) == e ==> OnDisk(g, d, no) == f)
  }

  /** Every byte in a mapped block is as before. */
  ghost predicate SameBytes(e: Dinode, c: seq<Block>, f: Dinode, d: seq<Block>)
    requires |e.addrs| == INODE_NUM_DIRECT && |f.addrs| == INODE_NUM_DIRECT
  {
    forall i :: 0 <= i < INODE_MAX_BYTES && Slot(e, c, i / BLOCK_SIZE) != 0 ==> ByteAt(f, d, i) == ByteAt(e, c, i)
  }

  /** Data slots other than `k` are as before; so is the indirect block if `k` is a direct slot. */
  ghost predicate OtherSlots(e: Dinode, c: seq<Block>, f: Dinode, d: seq<Block>, k: nat)
    requires |e.addrs| == INODE_NUM_DIRECT && |f.addrs| == INODE_NUM_DIRECT
  {
    forall j :: 0 <= j <= INDIRECT_SLOT && j != k && (j < INODE_MAX_BLOCKS || k < INODE_NUM_DIRECT) ==>
      Slot(f, d, j) == Slot(e, c, j)
  }

  lemma ExtendsStart(g: Geometry, no: nat, e: Dinode, c: seq<Block>)
    requires g.Laid(c) && Owns(g, e, c)
    ensures Extends(g, no, e, c, e, c)
  {
    hide Marked;
    forall n | n in Owned(e, c) ensures n < g.numBlocks && Marked(c, g.bitmapStart, n) {
      var k :| 0 <= k <= INDIRECT_SLOT && Slot(e, c, k) != 0 && Slot(e, c, k) == n;
      assert g.Data(c, n);
    }
  }

  lemma ExtendsOn(g: Geometry, no: nat, e: Dinode, c: seq<Block>, f: Dinode, d: seq<Block>, h: Dinode, z: seq<Block>)
    requires |e.addrs| == INODE_NUM_DIRECT && |f.addrs| == INODE_NUM_DIRECT && |h.addrs| == INODE_NUM_DIRECT
    requires Extends(g, no, e, c, f, d) && Extends(g, no, f, d, h, z)
    ensures Extends(g, no, e, c, h, z)
  {
    hide Marked, OnDisk, Slot, Geometry.Laid, Owns, Evolves;
    EvolvesOn(g, no, e, c, f, d, h, z);
    forall n | n in Owned(f, d) ensures n in Owned(h, z) {
      var k :| 0 <= k <= INDIRECT_SLOT && Slot(f, d, k) != 0 && Slot(f, d, k) == n;
      assert Slot(h, z, k) == n;
    }
  }

  lemma SameBytesOn(e: Dinode, c: seq<Block>, f: Dinode, d: seq<Block>, h: Dinode, z: seq<Block>)
    requires |e.addrs| == INODE_NUM_DIRECT && |f.addrs| == INODE_NUM_DIRECT && |h.addrs| == INODE_NUM_DIRECT
    requires forall k :: 0 <= k <= INDIRECT_SLOT && Slot(e, c, k) != 0 ==> Slot(f, d, k) == Slot(e, c, k)
    requires SameBytes(e, c, f, d) && SameBytes(f, d, h, z)
    ensures SameBytes(e, c, h, z)
  {
    hide Slot, ByteAt;
  }

  /** `inode_sync` writes nothing but the inode. */
  lemma SyncExtends(g: Geometry, no: nat, e: Dinode, c: seq<Block>)
    requires g.Laid(c) && Owns(g, e, c) && no < g.numInodes
    ensures var d := Synced(g, no, e, c);
            && Extends(g, no, e, c, e, d) && OnDisk(g, d, no) == e && SameBytes(e, c, e, d)
            && forall k :: 0 <= k <= INDIRECT_SLOT ==> Slot(e, d, k) == Slot(e, c, k)
  {
    hide Marked, OnDisk, Slot, Synced, ByteAt;
    var d := Synced(g, no, e, c);
    SyncStep(g, no, e, c);
    KeepsFile(g, e, c, d);
    ExtendsStart(g, no, e, c);
    SyncedMarks(g, no, e, c);
    assert Owned(e, d) == Owned(e, c);
  }

  lemma SyncedMarks(g: Geometry, no: nat, e: Dinode, c: seq<Block>)
    requires g.Laid(c) && no < g.numInodes && |e.addrs| == INODE_NUM_DIRECT
    ensures forall n :: 0 <= n < g.numBlocks ==>
              (Marked(Synced(g, no, e, c), g.bitmapStart, n) <==> Marked(c, g.bitmapStart, n))
  {
    hide Bit, PutEntry;
    MetaBlock(g, c, no);
  }

  /** The two ways to add a block to the inode itself: to a direct slot, or as the indirect block. */
  function PutSlot(e: Dinode, k: nat, n: nat): Dinode
    requires k < |e.addrs| || k == INDIRECT_SLOT
  {
    if k == INDIRECT_SLOT then e.(indirect := n) else AddDirect(e, k, n)
  }

  function AddDirect(e: Dinode, i: nat, n: nat): Dinode
    requires i < |e.addrs|
  {
    e.(addrs := e.addrs[i := n])
  }

  function AddWord(e: Dinode, c: seq<Block>, j: nat, n: nat): seq<Block>
    requires j < INODE_NUM_INDIRECT && e.indirect < |c|
  {
    c[e.indirect := PutWord(c[e.indirect], j, n)]
  }

  /** A block was added to the file, and nothing else was mapped. */
  ghost predicate Added(g: Geometry, no: nat, e: Dinode, c: seq<Block>, f: Dinode, d: seq<Block>, k: nat, n: nat)
    requires |e.addrs| == INODE_NUM_DIRECT && |f.addrs| == INODE_NUM_DIRECT && k <= INDIRECT_SLOT
  {
    && g.Laid(d) && Owns(g, f, d) && Evolves(g, no, e, c, f, d) && SameBytes(e, c, f, d) && f.size == e.size
    && (forall j :: 0 <= j <= INDIRECT_SLOT ==> Slot(f, d, j) == if j == k then n else Slot(e, c, j))
    && (forall m :: 0 <= m < g.numBlocks ==> (Marked(d, g.bitmapStart, m) <==> m == n || Marked(c, g.bitmapStart, m)))
  }

  lemma DirectAdded(g: Geometry, no: nat, e: Dinode, c: seq<Block>, i: nat, n: nat)
    requires g.Laid(c) && Owns(g, e, c) && i < INODE_NUM_DIRECT && Slot(e, c, i) == 0
    requires n < g.numBlocks && !Marked(c, g.bitmapStart, n)
    ensures Added(g, no, e, c, AddDirect(e, i, n), Took(c, g.bitmapStart, n), i, n) && n != 0
  {
    hide Marked, OnDisk, Slot, ByteAt, Took;
    var d, f := Took(c, g.bitmapStart, n), AddDirect(e, i, n);
    AllocStep(g, no, e, c, n);
    DirectStep(g, e, d, i, n);
    AddedHere(g, no, e, c, f, d, i, n);
  }

  lemma IndirectAdded(g: Geometry, no: nat, e: Dinode, c: seq<Block>, n: nat)
    requires g.Laid(c) && Owns(g, e, c) && e.indirect == 0
    requires n < g.numBlocks && !Marked(c, g.bitmapStart, n)
    ensures Added(g, no, e, c, e.(indirect := n), Took(c, g.bitmapStart, n), INDIRECT_SLOT, n) && n != 0
  {
    hide Marked, OnDisk, Slot, ByteAt, Took;
    var d, f := Took(c, g.bitmapStart, n), e.(indirect := n);
    AllocStep(g, no, e, c, n);
    IndirectStep(g, e, d, n);
    AddedHere(g, no, e, c, f, d, INDIRECT_SLOT, n);
  }

  /** Common end of the two cases where the disk changes by the allocation only. */
  lemma AddedHere(g: Geometry, no: nat, e: Dinode, c: seq<Block>, f: Dinode, d: seq<Block>, k: nat, n: nat)
    requires |f.addrs| == INODE_NUM_DIRECT && Owns(g, e, c) && Owns(g, e, d) && Evolves(g, no, e, c, e, d)
        && Keeps(e, c, d)
    requires k <= INDIRECT_SLOT && Slot(e, c, k) == 0 && n < g.numBlocks && !Marked(c, g.bitmapStart, n)
    requires Owned(f, d) == Owned(e, d) + {n} && g.Laid(d) && Owns(g, f, d) && f.size == e.size
    requires forall j :: 0 <= j <= INDIRECT_SLOT ==> Slot(f, d, j) == if j == k then n else Slot(e, c, j)
    requires forall m :: 0 <= m < g.numBlocks ==> (Marked(d, g.bitmapStart, m) <==> m == n || Marked(c, g.bitmapStart,
        m))
    ensures Added(g, no, e, c, f, d, k, n)
  {
    hide Marked, OnDisk, Slot, Owned;
    forall i | 0 <= i < INODE_MAX_BYTES && Slot(e, c, i / BLOCK_SIZE) != 0 ensures ByteAt(f, d, i) == ByteAt(e, c, i) {
      assert g.Data(c, Slot(e, c, i / BLOCK_SIZE));
    }
  }

  lemma WordAdded(g: Geometry, no: nat, e: Dinode, c: seq<Block>, j: nat, n: nat)
    requires g.Laid(c) && Owns(g, e, c) && j < INODE_NUM_INDIRECT && e.indirect != 0
    requires Slot(e, c, INODE_NUM_DIRECT + j) == 0 && n < g.numBlocks && !Marked(c, g.bitmapStart, n)
    requires no < g.numInodes
    ensures e.indirect < |c|
    ensures var d := AddWord(e, Took(c, g.bitmapStart, n), j, n);
            && Added(g, no, e, c, e, d, INODE_NUM_DIRECT + j, n) && n != 0 && OnDisk(g, d, no) == OnDisk(g, c, no)
  {
    hide Marked, OnDisk, ByteAt, Took, Word, PutWord;
    assert Slot(e, c, INDIRECT_SLOT) == e.indirect && g.Data(c, e.indirect);
    var t := Took(c, g.bitmapStart, n);
    var d := AddWord(e, t, j, n);
    AllocStep(g, no, e, c, n);
    AllocOnDisk(g, no, e, c, n);
    WordStep(g, no, e, t, j, n);
    WordMarks(g, e, t, j, n);
    WordEvolves(g, no, e, c, t, d, n);
    WordBytes(g, e, c, t, d);
  }

  lemma AllocOnDisk(g: Geometry, no: nat, e: Dinode, c: seq<Block>, n: nat)
    requires g.Laid(c) && Owns(g, e, c) && n < g.numBlocks && !Marked(c, g.bitmapStart, n)
    ensures forall m :: 0 <= m < g.numInodes ==> OnDisk(g, Took(c, g.bitmapStart, n), m) == OnDisk(g, c, m)
  {
    hide Marked, OnDisk, Owns;
    AllocStep(g, g.numInodes, e, c, n);
  }

  lemma WordMarks(g: Geometry, e: Dinode, c: seq<Block>, j: nat, n: nat)
    requires g.Laid(c) && Owns(g, e, c) && j < INODE_NUM_INDIRECT && e.indirect != 0 && e.indirect < |c|
    ensures forall m :: 0 <= m < g.numBlocks ==>
              (Marked(AddWord(e, c, j, n), g.bitmapStart, m) <==> Marked(c, g.bitmapStart, m))
  {
    hide Bit, PutWord;
    assert Slot(e, c, INDIRECT_SLOT) == e.indirect && g.Data(c, e.indirect);
    forall m | 0 <= m < g.numBlocks ensures MapNo(g.bitmapStart, m) != e.indirect
    {
      assert g.Meta(MapNo(g.bitmapStart, m));
    }
  }

  lemma WordEvolves(g: Geometry, no: nat, e: Dinode, c: seq<Block>, t: seq<Block>, d: seq<Block>, n: nat)
    requires Owns(g, e, c) && Evolves(g, no, e, c, e, t) && e.indirect != 0 && e.indirect < |c| && |d| == |t|
    requires forall b :: 0 <= b < |d| && b != e.indirect ==> d[b] == t[b]
    requires Owned(e, d) == Owned(e, t) + {n} && n < g.numBlocks && !Marked(c, g.bitmapStart, n) && MarksGrow(g, t, d)
    requires forall m :: 0 <= m < g.numInodes ==> OnDisk(g, d, m) == OnDisk(g, t, m)
    ensures Evolves(g, no, e, c, e, d)
  {
    hide Marked, OnDisk;
    assert Slot(e, c, INDIRECT_SLOT) == e.indirect;
    assert e.indirect in Owned(e, c);
    hide Owned;
  }

  lemma WordBytes(g: Geometry, e: Dinode, c: seq<Block>, t: seq<Block>, d: seq<Block>)
    requires Owns(g, e, c) && Keeps(e, c, t) && e.indirect != 0 && |d| == |t| && g.numBlocks <= |c|
    requires forall b :: 0 <= b < |d| && b != e.indirect ==> d[b] == t[b]
    requires forall k :: 0 <= k < INODE_MAX_BLOCKS && Slot(e, c, k) != 0 ==> Slot(e, d, k) == Slot(e, c, k)
    ensures SameBytes(e, c, e, d)
  {
    hide Word, Marked;
    assert Slot(e, c, INDIRECT_SLOT) == e.indirect;
    forall i | 0 <= i < INODE_MAX_BYTES && Slot(e, c, i / BLOCK_SIZE) != 0 ensures ByteAt(e, d, i) == ByteAt(e, c, i) {
      var k := i / BLOCK_SIZE;
      assert g.Data(c, Slot(e, c, k)) && Slot(e, c, k) != Slot(e, c, INDIRECT_SLOT);
    }
  }

  /** An added block makes the file extend, once the inode on disk says so. */
  lemma AddedExtends(g: Geometry, no: nat, e: Dinode, c: seq<Block>, f: Dinode, d: seq<Block>, k: nat, n: nat)
    requires |e.addrs| == INODE_NUM_DIRECT && |f.addrs| == INODE_NUM_DIRECT && k <= INDIRECT_SLOT
    requires Owns(g, e, c) && Added(g, no, e, c, f, d, k, n) && Slot(e, c, k) == 0 && n < g.numBlocks && n != 0
    requires f == e.(addrs := f.addrs, indirect := f.indirect) && (OnDisk(g, c, no) == e ==> OnDisk(g, d, no) == f)
    ensures Extends(g, no, e, c, f, d) && OtherSlots(e, c, f, d, k)
  {
    hide Marked, OnDisk, Slot;
    assert Slot(f, d, k) == n;
    forall m | 0 <= m < g.numBlocks
      ensures Marked(d, g.bitmapStart, m) <==> Marked(c, g.bitmapStart, m) || m in Owned(f, d)
    {
      if m in Owned(f, d) {
        var j :| 0 <= j <= INDIRECT_SLOT && Slot(f, d, j) != 0 && Slot(f, d, j) == m;
        if j != k { assert g.Data(c, Slot(e, c, j)); }
      }
    }
  }

  lemma DirectSlot(e: Dinode, c: seq<Block>, k: nat)
    requires |e.addrs| == INODE_NUM_DIRECT && k < INODE_NUM_DIRECT
    ensures Slot(e, c, k) == e.addrs[k]
  {
  }

  lemma AddedSlot(g: Geometry, no: nat, e: Dinode, c: seq<Block>, f: Dinode, d: seq<Block>, k: nat, n: nat)
    requires |e.addrs| == INODE_NUM_DIRECT && |f.addrs| == INODE_NUM_DIRECT && k <= INDIRECT_SLOT
    requires Added(g, no, e, c, f, d, k, n)
    ensures g.Laid(d) && Owns(g, f, d) && Slot(f, d, k) == n
  {
  }

  /** Allocating a block, entering it in the inode and writing the inode back. */
  lemma AddedSynced(g: Geometry, no: nat, e: Dinode, c: seq<Block>, f: Dinode, d: seq<Block>, z: seq<Block>, k: nat,
      n: nat)
    requires |e.addrs| == INODE_NUM_DIRECT && |f.addrs| == INODE_NUM_DIRECT && k <= INDIRECT_SLOT && no < g.numInodes
    requires Owns(g, e, c) && Added(g, no, e, c, f, d, k, n) && Slot(e, c, k) == 0 && n < g.numBlocks && n != 0
    requires f == e.(addrs := f.addrs, indirect := f.indirect) && z == Synced(g, no, f, d)
    ensures Extends(g, no, e, c, f, z) && OtherSlots(e, c, f, z, k) && SameBytes(e, c, f, z) && Slot(f, z, k) == n
    ensures OnDisk(g, z, no) == f
  {
    hide Marked, OnDisk, Slot, Synced, ByteAt, Geometry.Laid, Owns, Evolves;
    SyncExtends(g, no, f, d);
    EvolvesOn(g, no, e, c, f, d, f, z);
    forall b ensures b in Owned(f, z) <==> b in Owned(f, d) {}
    assert Added(g, no, e, c, f, z, k, n) by {
      SyncedMarks(g, no, f, d);
    }
    AddedExtends(g, no, e, c, f, z, k, n);
  }

  lemma InodeAdded(g: Geometry, no: nat, e: Dinode, c: seq<Block>, k: nat, n: nat)
    requires g.Laid(c) && Owns(g, e, c) && (k < INODE_NUM_DIRECT || k == INDIRECT_SLOT) && Slot(e, c, k) == 0
    requires n < g.numBlocks && !Marked(c, g.bitmapStart, n)
    ensures n != 0 && var f := PutSlot(e, k, n);
            |f.addrs| == INODE_NUM_DIRECT && Added(g, no, e, c, f, Took(c, g.bitmapStart, n), k, n)
  {
    if k < INODE_NUM_DIRECT {
      DirectAdded(g, no, e, c, k, n);
    } else {
      IndirectAdded(g, no, e, c, n);
    }
  }

  lemma OwnsShape(g: Geometry, e: Dinode, c: seq<Block>)
    requires Owns(g, e, c)
    ensures |e.addrs| == INODE_NUM_DIRECT && Slot(e, c, INDIRECT_SLOT) == e.indirect
  {
  }

  lemma ExtendsShape(g: Geometry, no: nat, e: Dinode, c: seq<Block>, f: Dinode, d: seq<Block>)
    requires |e.addrs| == INODE_NUM_DIRECT && |f.addrs| == INODE_NUM_DIRECT && Extends(g, no, e, c, f, d)
    ensures g.Laid(d) && Owns(g, f, d) && Slot(f, d, INDIRECT_SLOT) == f.indirect
        && Slot(e, c, INDIRECT_SLOT) == e.indirect
    ensures (e.indirect != 0 ==> f.indirect == e.indirect) && f.kind == e.kind
  {
  }

  lemma SameStart(e: Dinode, c: seq<Block>, k: nat)
    requires |e.addrs| == INODE_NUM_DIRECT
    ensures SameBytes(e, c, e, c) && OtherSlots(e, c, e, c, k)
  {
  }

  lemma IndirectBlock(g: Geometry, e: Dinode, c: seq<Block>, j: nat)
    requires g.Laid(c) && Owns(g, e, c) && j < INODE_NUM_INDIRECT && e.indirect != 0
    ensures |e.addrs| == INODE_NUM_DIRECT && e.indirect < |c| && g.Data(c, e.indirect) && !InLog(g.logStart, e.indirect)
    ensures Slot(e, c, INODE_NUM_DIRECT + j) == Word(c[e.indirect], j)
  {
    hide Word, Marked;
    assert Slot(e, c, INDIRECT_SLOT) == e.indirect;
  }

  /** `addrs[j] = cache->alloc(ctx)`, with the indirect block as it was before the allocation. */
  lemma AddWordIs(g: Geometry, e: Dinode, c: seq<Block>, j: nat, n: nat)
    requires g.Laid(c) && Owns(g, e, c) && e.indirect != 0 && n < g.numBlocks && !Marked(c, g.bitmapStart, n)
    requires j < INODE_NUM_INDIRECT
    ensures e.indirect < |c| && var t := Took(c, g.bitmapStart, n);
            AddWord(e, t, j, n) == t[e.indirect := PutWord(c[e.indirect], j, n)]
  {
    hide PutWord, Word, Took, Marked;
    IndirectBlock(g, e, c, j);
    AllocStep(g, 0, e, c, n);
    assert Slot(e, c, INDIRECT_SLOT) == e.indirect;
  }

  lemma WordExtends(g: Geometry, no: nat, e: Dinode, c: seq<Block>, j: nat, n: nat)
    requires g.Laid(c) && Owns(g, e, c) && j < INODE_NUM_INDIRECT && e.indirect != 0 && no < g.numInodes
    requires Slot(e, c, INODE_NUM_DIRECT + j) == 0 && n < g.numBlocks && !Marked(c, g.bitmapStart, n)
    ensures e.indirect < |c| && |e.addrs| == INODE_NUM_DIRECT && n != 0
    ensures var d := AddWord(e, Took(c, g.bitmapStart, n), j, n);
            && Extends(g, no, e, c, e, d) && SameBytes(e, c, e, d) && OtherSlots(e, c, e, d, INODE_NUM_DIRECT + j)
            && g.Laid(d) && Slot(e, d, INODE_NUM_DIRECT + j) == n
  {
    hide Slot, Marked, Took, Geometry.Laid, Evolves, OnDisk, SameBytes, Extends, OtherSlots, AddWord;
    WordAdded(g, no, e, c, j, n);
    var d := AddWord(e, Took(c, g.bitmapStart, n), j, n);
    AddedSlot(g, no, e, c, e, d, INODE_NUM_DIRECT + j, n);
    hide Added, Owns;
    AddedExtends(g, no, e, c, e, d, INODE_NUM_DIRECT + j, n);
    AddedBytes(g, no, e, c, e, d, INODE_NUM_DIRECT + j, n);
  }

  lemma AddedBytes(g: Geometry, no: nat, e: Dinode, c: seq<Block>, f: Dinode, d: seq<Block>, k: nat, n: nat)
    requires |e.addrs| == INODE_NUM_DIRECT && |f.addrs| == INODE_NUM_DIRECT && k <= INDIRECT_SLOT
    requires Added(g, no, e, c, f, d, k, n)
    ensures SameBytes(e, c, f, d)
  {
  }

  lemma OtherSlot(e: Dinode, c: seq<Block>, f: Dinode, d: seq<Block>, k: nat, j: nat)
    requires |e.addrs| == INODE_NUM_DIRECT && |f.addrs| == INODE_NUM_DIRECT
    requires OtherSlots(e, c, f, d, k) && j < INODE_MAX_BLOCKS && j != k
    ensures Slot(f, d, j) == Slot(e, c, j)
  {
  }

  /** The indirect block first, then the data block. */
  lemma MappedOn(g: Geometry, no: nat, e: Dinode, c: seq<Block>, f: Dinode, d: seq<Block>, h: Dinode, z: seq<Block>,
      k: nat)
    requires |e.addrs| == INODE_NUM_DIRECT && |f.addrs| == INODE_NUM_DIRECT && |h.addrs| == INODE_NUM_DIRECT
    requires Extends(g, no, e, c, f, d) && SameBytes(e, c, f, d) && OtherSlots(e, c, f, d, INDIRECT_SLOT)
    requires Extends(g, no, f, d, h, z) && SameBytes(f, d, h, z) && OtherSlots(f, d, h, z, k) && k >= INODE_NUM_DIRECT
    ensures Extends(g, no, e, c, h, z) && SameBytes(e, c, h, z) && OtherSlots(e, c, h, z, k)
  {
    hide Slot, Marked, Evolves, OnDisk, SameBytes, Owns;
    ExtendsOn(g, no, e, c, f, d, h, z);
    SameBytesOn(e, c, f, d, h, z);
  }
}
