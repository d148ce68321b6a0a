/** What the single steps of the inode layer do to a file, and to the files of others. */
module InodeSteps {
  import opened Bytes
  import opened Bitmap
  import opened Wal
  import opened InodeModel

  /** All blocks of the file read the same. */
  ghost predicate Keeps(e: Dinode, c: seq<Block>, d: seq<Block>)
    requires |e.addrs| == INODE_NUM_DIRECT
  {
    |c| == |d| && forall k :: 0 <= k <= INDIRECT_SLOT && Slot(e, c, k) != 0 && Slot(e, c, k) < |c| ==>
      d[Slot(e, c, k)] == c[Slot(e, c, k)]
  }

  ghost predicate MarksGrow(g: Geometry, c: seq<Block>, d: seq<Block>) {
    |c| == |d| && forall n :: 0 <= n < g.numBlocks && Marked(c, g.bitmapStart, n) ==> Marked(d, g.bitmapStart, n)
  }

  lemma SlotsSame(e: Dinode, c: seq<Block>, d: seq<Block>)
    requires |e.addrs| == INODE_NUM_DIRECT && |c| == |d| && (0 < e.indirect < |c| ==> c[e.indirect] == d[e.indirect])
    ensures forall k :: 0 <= k <= INDIRECT_SLOT ==> Slot(e, d, k) == Slot(e, c, k)
  {
  }

  /** An untouched file stays as it is. */
  lemma KeepsFile(g: Geometry, e: Dinode, c: seq<Block>, d: seq<Block>)
    requires Owns(g, e, c) && Keeps(e, c, d) && MarksGrow(g, c, d)
    ensures Owns(g, e, d) && (forall k :: 0 <= k <= INDIRECT_SLOT ==> Slot(e, d, k) == Slot(e, c, k))
    ensures forall i :: 0 <= i < INODE_MAX_BYTES && Slot(e, c, i / BLOCK_SIZE) != 0 ==>
        ByteAt(e, d, i) == ByteAt(e, c, i)
  {
    hide Marked;
    assert Slot(e, c, INDIRECT_SLOT) == e.indirect;
    SlotsSame(e, c, d);
    forall k | 0 <= k <= INDIRECT_SLOT && Slot(e, d, k) != 0 ensures g.Data(d, Slot(e, d, k)) {
      assert g.Data(c, Slot(e, c, k));
    }
  }

  // ---------- changes that may touch others ----------

  /** Only metadata, blocks that were free, and blocks of this file change; the file may gain
      blocks that were free; other inodes on disk stay. */
  ghost predicate Evolves(g: Geometry, no: nat, e: Dinode, c: seq<Block>, f: Dinode, d: seq<Block>)
    requires |e.addrs| == INODE_NUM_DIRECT && |f.addrs| == INODE_NUM_DIRECT
  {
    && MarksGrow(g, c, d)
    && (forall b :: 0 <= b < |c| && d[b] != c[b] ==>
          g.Meta(b) || (b < g.numBlocks && !Marked(c, g.bitmapStart, b)) || b in Owned(e, c))
    && (forall b :: b in Owned(f, d) ==> b in Owned(e, c) || (b < g.numBlocks && !Marked(c, g.bitmapStart, b)))
    && (forall m :: 0 <= m < g.numInodes && m != no ==> OnDisk(g, d, m) == OnDisk(g, c, m))
  }

  /** The inode as its block on disk (or in the cache) has it. */
  function OnDisk(g: Geometry, c: seq<Block>, no: nat): Dinode {
    if g.InodeBlock(no) < |c| then EntryAt(c[g.InodeBlock(no)], no) else Dinode(0, 0, 0, 0, 0, seq(12, _ => 0), 0)
  }

  lemma EvolvesOn(g: Geometry, no: nat, e: Dinode, c: seq<Block>, f: Dinode, d: seq<Block>, h: Dinode, z: seq<Block>)
    requires |e.addrs| == INODE_NUM_DIRECT && |f.addrs| == INODE_NUM_DIRECT && |h.addrs| == INODE_NUM_DIRECT
    requires Evolves(g, no, e, c, f, d) && Evolves(g, no, f, d, h, z)
    ensures Evolves(g, no, e, c, h, z)
  {
    hide Marked, Owned, OnDisk;
    forall b | 0 <= b < |c| && z[b] != c[b]
      ensures g.Meta(b) || (b < g.numBlocks && !Marked(c, g.bitmapStart, b)) || b in Owned(e, c)
    {
      if d[b] == c[b] { assert z[b] != d[b]; }
    }
  }

  /** Another file, disjoint from this one, is unaffected and stays disjoint. */
  lemma OthersSafe(g: Geometry, no: nat, e: Dinode, c: seq<Block>, f: Dinode, d: seq<Block>, o: Dinode)
    requires Owns(g, e, c) && |f.addrs| == INODE_NUM_DIRECT && Evolves(g, no, e, c, f, d)
    requires Sound(g, o, c) && Owned(o, c) !! Owned(e, c)
    ensures Sound(g, o, d) && FileBytes(o, d) == FileBytes(o, c)
    ensures Owned(o, d) == Owned(o, c) && Owned(o, d) !! Owned(f, d)
  {
    hide Marked;
    forall k | 0 <= k <= INDIRECT_SLOT && Slot(o, c, k) != 0
      ensures Slot(o, c, k) < |c| ==> d[Slot(o, c, k)] == c[Slot(o, c, k)]
    {
      assert g.Data(c, Slot(o, c, k)) && Slot(o, c, k) in Owned(o, c);
    }
    assert Keeps(o, c, d);
    KeepsFile(g, o, c, d);
    assert Owned(o, d) == Owned(o, c);
    forall i | 0 <= i < o.size ensures ByteAt(o, d, i) == ByteAt(o, c, i) {
      assert i / BLOCK_SIZE < BlocksFor(o.size);
    }
    forall b | b in Owned(o, d) ensures b !in Owned(f, d) {
      var k :| 0 <= k <= INDIRECT_SLOT && Slot(o, c, k) != 0 && Slot(o, c, k) == b;
      assert g.Data(c, b);
    }
  }

  // ---------- the steps ----------

  /** `inode_sync` with `do_write`. */
  function Synced(g: Geometry, no: nat, e: Dinode, c: seq<Block>): (d: seq<Block>)
    requires |e.addrs| == INODE_NUM_DIRECT
    ensures |d| == |c|
  {
    var b := g.InodeBlock(no);
    if b < |c| then c[b := PutEntry(c[b], no, e)] else c
  }

  lemma MetaBlock(g: Geometry, c: seq<Block>, no: nat)
    requires g.Laid(c) && no < g.numInodes
    ensures g.InodeBlock(no) < |c| && g.Meta(g.InodeBlock(no)) && !InLog(g.logStart, g.InodeBlock(no))
    ensures forall n :: 0 <= n < g.numBlocks ==> MapNo(g.bitmapStart, n) != g.InodeBlock(no)
  {
  }

  /** A write to a block that is not part of the bitmap changes no mark. */
  lemma MarksSame(g: Geometry, c: seq<Block>, b: nat, data: Block)
    requires b < |c| && g.Laid(c) && forall n :: 0 <= n < g.numBlocks ==> MapNo(g.bitmapStart, n) != b
    ensures MarksGrow(g, c, c[b := data]) && g.Laid(c[b := data])
  {
    hide Bit;
    var d := c[b := data];
    forall n | 0 <= n < g.numBlocks ensures Marked(d, g.bitmapStart, n) <==> Marked(c, g.bitmapStart, n) {
      assert MapNo(g.bitmapStart, n) != b;
    }
  }

  /** Writing an inode back: it is on disk then, the others are as they were, and so is every other block. */
  lemma SyncedDisk(g: Geometry, no: nat, e: Dinode, c: seq<Block>)
    requires Encodable(e) && g.InodeBlock(no) < |c|
    ensures var d := Synced(g, no, e, c);
            && OnDisk(g, d, no) == e && (forall m: nat :: m != no ==> OnDisk(g, d, m) == OnDisk(g, c, m))
            && forall b: nat :: b < |c| && b != g.InodeBlock(no) ==> d[b] == c[b]
  {
    hide PutEntry, EntryAt;
    var b := g.InodeBlock(no);
    EntryPut(c[b], no, e, no);
    forall m: nat | m != no ensures OnDisk(g, Synced(g, no, e, c), m) == OnDisk(g, c, m) {
      EntryPut(c[b], no, e, m);
    }
  }

  /** A new inode is in order and owns no block. */
  lemma NewSound(g: Geometry, kind: nat, c: seq<Block>)
    requires kind < 0x1_0000
    ensures Sound(g, NewInode(kind), c) && Owned(NewInode(kind), c) == {}
  {
    assert Pow256(2) == 65536;
    assert Pow256(4) > 0;
    forall k | 0 <= k <= INDIRECT_SLOT ensures Slot(NewInode(kind), c, k) == 0 {}
  }

  lemma SyncStep(g: Geometry, no: nat, e: Dinode, c: seq<Block>)
    requires g.Laid(c) && Owns(g, e, c) && no < g.numInodes
    ensures var d := Synced(g, no, e, c);
            && g.Laid(d) && Keeps(e, c, d) && Owns(g, e, d) && Evolves(g, no, e, c, e, d) && OnDisk(g, d, no) == e
    ensures forall k :: 0 <= k <= INDIRECT_SLOT ==> Slot(e, Synced(g, no, e, c), k) == Slot(e, c, k)
  {
    hide Marked, PutEntry, EntryAt;
    MetaBlock(g, c, no);
    var b := g.InodeBlock(no);
    MarksSame(g, c, b, PutEntry(c[b], no, e));
    var d := Synced(g, no, e, c);
    forall k | 0 <= k <= INDIRECT_SLOT && Slot(e, c, k) != 0 ensures d[Slot(e, c, k)] == c[Slot(e, c, k)] {
      assert g.Data(c, Slot(e, c, k));
    }
    KeepsFile(g, e, c, d);
    EntryPut(c[b], no, e, no);
    forall m | 0 <= m < g.numInodes && m != no ensures OnDisk(g, d, m) == OnDisk(g, c, m) {
      OtherEntry(g, c, no, e, m);
    }
  }

  lemma OtherEntry(g: Geometry, c: seq<Block>, no: nat, e: Dinode, m: nat)
    requires Encodable(e) && g.InodeBlock(no) < |c| && m != no
    ensures OnDisk(g, Synced(g, no, e, c), m) == OnDisk(g, c, m)
  {
    hide PutEntry, EntryAt;
    EntryPut(c[g.InodeBlock(no)], no, e, m);
  }

  /** `cache_alloc` seen from a file: a fresh zeroed data block, nothing of the file touched. */
  lemma AllocStep(g: Geometry, no: nat, e: Dinode, c: seq<Block>, n: nat)
    requires g.Laid(c) && Owns(g, e, c) && n < g.numBlocks && !Marked(c, g.bitmapStart, n)
    ensures var d := Took(c, g.bitmapStart, n);
            && g.Laid(d) && Keeps(e, c, d) && Owns(g, e, d) && Evolves(g, no, e, c, e, d)
            && g.Data(d, n) && d[n] == ZeroBlock() && n !in Owned(e, d) && 0 < n < Pow256(4)
            && (forall m :: 0 <= m < g.numBlocks ==> (Marked(d, g.bitmapStart, m) <==> m == n || Marked(c,
              g.bitmapStart, m)))
    ensures forall k :: 0 <= k <= INDIRECT_SLOT ==> Slot(e, Took(c, g.bitmapStart, n), k) == Slot(e, c, k)
  {
    hide Marked, Bit, PutBit, OnDisk;
    var d, z := Took(c, g.bitmapStart, n), MapNo(g.bitmapStart, n);
    assert !g.Meta(n);
    assert g.Meta(z);
    forall m | 0 <= m < g.numBlocks ensures Marked(d, g.bitmapStart, m) <==> m == n || Marked(c, g.bitmapStart, m) {
      assert g.Meta(MapNo(g.bitmapStart, m));
      MarkChanges(c, g.bitmapStart, n, true, m);
      SameMarkAt(c[z := PutBit(c[z], n % BIT_PER_BLOCK, true)], d, g.bitmapStart, m);
    }
    forall k | 0 <= k <= INDIRECT_SLOT && Slot(e, c, k) != 0 ensures d[Slot(e, c, k)] == c[Slot(e, c, k)] {
      assert g.Data(c, Slot(e, c, k));
    }
    KeepsFile(g, e, c, d);
    forall m | 0 <= m < g.numInodes && m != no ensures OnDisk(g, d, m) == OnDisk(g, c, m) {
      MetaBlock(g, c, m);
      assert d[g.InodeBlock(m)] == c[g.InodeBlock(m)];
      SameOnDisk(g, c, d, m);
    }
  }

  lemma SameMarkAt(c: seq<Block>, e: seq<Block>, bm: nat, m: nat)
    requires |c| == |e| && (MapNo(bm, m) < |c| ==> c[MapNo(bm, m)] == e[MapNo(bm, m)])
    ensures Marked(c, bm, m) <==> Marked(e, bm, m)
  {
  }

  lemma SameOnDisk(g: Geometry, c: seq<Block>, d: seq<Block>, m: nat)
    requires |c| == |d| && (g.InodeBlock(m) < |c| ==> c[g.InodeBlock(m)] == d[g.InodeBlock(m)])
    ensures OnDisk(g, c, m) == OnDisk(g, d, m)
  {
  }

  /** A fresh zeroed block, in no slot of the file. */
  ghost predicate Fresh(g: Geometry, e: Dinode, c: seq<Block>, n: nat)
    requires |e.addrs| == INODE_NUM_DIRECT
  {
    g.numBlocks <= |c| && g.Data(c, n) && c[n] == ZeroBlock() && n !in Owned(e, c) && 0 < n < Pow256(4)
  }

  /** `addrs[i] = n` */
  lemma DirectStep(g: Geometry, e: Dinode, c: seq<Block>, i: nat, n: nat)
    requires Owns(g, e, c) && i < INODE_NUM_DIRECT && Slot(e, c, i) == 0 && Fresh(g, e, c, n)
    ensures var f := e.(addrs := e.addrs[i := n]);
            && Owns(g, f, c) && Owned(f, c) == Owned(e, c) + {n}
            && forall k :: 0 <= k <= INDIRECT_SLOT ==> Slot(f, c, k) == if k == i then n else Slot(e, c, k)
  {
    hide Word;
    var f := e.(addrs := e.addrs[i := n]);
    forall k | 0 <= k <= INDIRECT_SLOT ensures Slot(f, c, k) == if k == i then n else Slot(e, c, k) {}
    OneMoreSlot(g, e, c, f, c, i, n);
  }

  /** Filling exactly one empty slot with a fresh block keeps ownership. */
  lemma OneMoreSlot(g: Geometry, e: Dinode, c: seq<Block>, f: Dinode, d: seq<Block>, i: nat, n: nat)
    requires Owns(g, e, c) && Encodable(f) && i <= INDIRECT_SLOT && Slot(e, c, i) == 0 && n !in Owned(e, c) && n != 0
    requires forall k :: 0 <= k <= INDIRECT_SLOT ==> Slot(f, d, k) == if k == i then n else Slot(e, c, k)
    requires g.Data(d, n) && forall b :: g.Data(c, b) ==> g.Data(d, b)
    ensures Owns(g, f, d) && Owned(f, d) == Owned(e, c) + {n}
  {
    hide Slot;
    forall k | 0 <= k <= INDIRECT_SLOT && Slot(f, d, k) != 0 ensures g.Data(d, Slot(f, d, k)) {
      if k != i { assert g.Data(c, Slot(e, c, k)); }
    }
    forall j, k | 0 <= j < k <= INDIRECT_SLOT && Slot(f, d, j) != 0 ensures Slot(f, d, j) != Slot(f, d, k) {
      if j == i {
        if Slot(e, c, k) != 0 { assert Slot(e, c, k) in Owned(e, c); }
      } else if k == i {
        assert Slot(e, c, j) in Owned(e, c);
      }
    }
    forall b ensures b in Owned(f, d) <==> b in Owned(e, c) + {n} {
      if b in Owned(e, c) {
        var k :| 0 <= k <= INDIRECT_SLOT && Slot(e, c, k) != 0 && Slot(e, c, k) == b;
        assert k != i && Slot(f, d, k) == b;
      }
      assert Slot(f, d, i) == n;
    }
  }

  /** `indirect = n`: an indirect block of zeros adds no data block. */
  lemma IndirectStep(g: Geometry, e: Dinode, c: seq<Block>, n: nat)
    requires Owns(g, e, c) && e.indirect == 0 && Fresh(g, e, c, n)
    ensures var f := e.(indirect := n);
            && Owns(g, f, c) && Owned(f, c) == Owned(e, c) + {n}
            && forall k :: 0 <= k <= INDIRECT_SLOT ==> Slot(f, c, k) == if k == INDIRECT_SLOT then n else Slot(e, c, k)
  {
    hide Word;
    var f := e.(indirect := n);
    forall k | 0 <= k <= INDIRECT_SLOT ensures Slot(f, c, k) == if k == INDIRECT_SLOT then n else Slot(e, c, k) {
      if INODE_NUM_DIRECT <= k < INDIRECT_SLOT { WordZero(k - INODE_NUM_DIRECT); }
    }
    OneMoreSlot(g, e, c, f, c, INDIRECT_SLOT, n);
  }

  /** A data block is neither metadata nor marked by a write to another data block. */
  lemma DataWrite(g: Geometry, no: nat, e: Dinode, c: seq<Block>, k: nat, data: Block)
    requires g.Laid(c) && Owns(g, e, c) && k <= INDIRECT_SLOT && Slot(e, c, k) != 0
    ensures var b := Slot(e, c, k);
            && b < |c| && !g.Meta(b) && !InLog(g.logStart, b) && MarksGrow(g, c, c[b := data]) && g.Laid(c[b := data])
            && (forall m: nat :: g.Data(c, m) ==> g.Data(c[b := data], m))
            && (forall m :: 0 <= m < g.numInodes ==> OnDisk(g, c[b := data], m) == OnDisk(g, c, m))
            && (forall j :: 0 <= j <= INDIRECT_SLOT && j != k && Slot(e, c, j) != 0 ==> Slot(e, c, j) != b)
  {
    hide Marked, OnDisk;
    var b := Slot(e, c, k);
    assert g.Data(c, b);
    forall n | 0 <= n < g.numBlocks ensures MapNo(g.bitmapStart, n) != b { assert g.Meta(MapNo(g.bitmapStart, n)); }
    MarksSame(g, c, b, data);
    forall m | 0 <= m < g.numInodes ensures OnDisk(g, c[b := data], m) == OnDisk(g, c, m) {
      MetaBlock(g, c, m);
      SameOnDisk(g, c, c[b := data], m);
    }
  }

  /** `addrs[j] = n` in the indirect block. */
  lemma WordStep(g: Geometry, no: nat, e: Dinode, c: seq<Block>, j: nat, n: nat)
    requires g.Laid(c) && Owns(g, e, c) && j < INODE_NUM_INDIRECT && e.indirect != 0 && e.indirect < |c|
    requires Slot(e, c, INODE_NUM_DIRECT + j) == 0 && Fresh(g, e, c, n)
    ensures var d := c[e.indirect := PutWord(c[e.indirect], j, n)];
            && g.Laid(d) && MarksGrow(g, c, d) && Owns(g, e, d) && Owned(e, d) == Owned(e, c) + {n}
            && (forall k :: 0 <= k <= INDIRECT_SLOT ==> Slot(e, d, k) == if k == INODE_NUM_DIRECT + j then n
              else Slot(e, c, k))
            && (forall m :: 0 <= m < g.numInodes ==> OnDisk(g, d, m) == OnDisk(g, c, m))
  {
    hide Marked, OnDisk, Word, PutWord;
    var d := c[e.indirect := PutWord(c[e.indirect], j, n)];
    assert Slot(e, c, INDIRECT_SLOT) == e.indirect;
    DataWrite(g, no, e, c, INDIRECT_SLOT, PutWord(c[e.indirect], j, n));
    forall k | 0 <= k <= INDIRECT_SLOT ensures Slot(e, d, k) == if k == INODE_NUM_DIRECT + j then n else Slot(e, c, k) {
      if INODE_NUM_DIRECT <= k < INDIRECT_SLOT { WordPut(c[e.indirect], j, n, k - INODE_NUM_DIRECT); }
    }
    OneMoreSlot(g, e, c, e, d, INODE_NUM_DIRECT + j, n);
  }

  /** Part of a block overwritten. */
  function Patch(b: Block, o: nat, data: seq<byte>): Block
    requires o + |data| <= BLOCK_SIZE
  {
    b[..o] + data + b[o + |data|..]
  }

  /** `memcpy` into the data block of slot `k`: exactly these bytes of the file change. */
  lemma PatchStep(g: Geometry, no: nat, e: Dinode, c: seq<Block>, k: nat, o: nat, data: seq<byte>)
    requires g.Laid(c) && Owns(g, e, c) && k < INODE_MAX_BLOCKS && Slot(e, c, k) != 0 && o + |data| <= BLOCK_SIZE
    ensures var b := Slot(e, c, k);
            && b < |c| && !InLog(g.logStart, b)
            && var d := c[b := Patch(c[b], o, data)];
               && g.Laid(d) && Owns(g, e, d) && Evolves(g, no, e, c, e, d)
               && (forall j :: 0 <= j <= INDIRECT_SLOT ==> Slot(e, d, j) == Slot(e, c, j))
               && (forall i :: 0 <= i < INODE_MAX_BYTES && Slot(e, c, i / BLOCK_SIZE) != 0 ==>
                     ByteAt(e, d, i) == var p := i - k * BLOCK_SIZE - o;
                                        if 0 <= p < |data| then data[p] else ByteAt(e, c, i))
  {
    hide Marked, OnDisk, Word, Patch;
    var b := Slot(e, c, k);
    assert g.Data(c, b);
    var d := c[b := Patch(c[b], o, data)];
    DataWrite(g, no, e, c, k, Patch(c[b], o, data));
    assert e.indirect == Slot(e, c, INDIRECT_SLOT);
    SlotsSame(e, c, d);
    forall j | 0 <= j <= INDIRECT_SLOT && Slot(e, d, j) != 0 ensures g.Data(d, Slot(e, d, j)) {
      assert g.Data(c, Slot(e, c, j));
    }
    assert b in Owned(e, c);
    assert Owned(e, d) == Owned(e, c);
    forall i | 0 <= i < INODE_MAX_BYTES && Slot(e, c, i / BLOCK_SIZE) != 0
      ensures ByteAt(e, d, i) == var p := i - k * BLOCK_SIZE - o; if 0 <= p < |data| then data[p] else ByteAt(e, c, i)
    {
      PatchAt(c[b], o, data, i % BLOCK_SIZE);
      assert g.Data(c, Slot(e, c, i / BLOCK_SIZE));
      if i / BLOCK_SIZE != k { assert Slot(e, c, i / BLOCK_SIZE) != b; }
    }
  }

  lemma PatchAt(b: Block, o: nat, data: seq<byte>, i: nat)
    requires o + |data| <= BLOCK_SIZE && i < BLOCK_SIZE
    ensures Patch(b, o, data)[i] == if o <= i < o + |data| then data[i - o] else b[i]
  {
  }
}
