/** Reading and writing a run of bytes of a file, block by block. */
module InodeData {
  import opened Bytes
  import opened Sequences
  import opened Bitmap
  import opened Wal
  import opened InodeModel
  import opened InodeSteps
  import opened InodeGrowth

  function Min(a: nat, b: nat): nat { if a < b then a else b }

  // ---------- reading ----------

  /** One turn of the read loop: the bytes from `i` to the end of its block, or to `end`. */
  lemma ReadPiece(g: Geometry, e: Dinode, c: seq<Block>, offset: nat, i: nat, end: nat)
    requires Sound(g, e, c) && g.numBlocks <= |c| && offset <= i < end <= e.size
    ensures i / BLOCK_SIZE < INODE_MAX_BLOCKS && 0 != Slot(e, c, i / BLOCK_SIZE) < |c|
    ensures var o := i % BLOCK_SIZE;
            var len := Min(BLOCK_SIZE - o, end - i);
            && i + len == Min((i / BLOCK_SIZE + 1) * BLOCK_SIZE, end)
            && FileBytes(e, c)[offset..i] + c[Slot(e, c, i / BLOCK_SIZE)][o..o + len]
              == FileBytes(e, c)[offset..i + len]
  {
    hide Slot, Marked, Owns;
    var k, o := i / BLOCK_SIZE, i % BLOCK_SIZE;
    var len := Min(BLOCK_SIZE - o, end - i);
    assert i == k * BLOCK_SIZE + o;
    assert k < BlocksFor(e.size);
    OwnsShape(g, e, c);
    SlotInside(g, e, c, k);
    PieceOf(e, c, k, o, len);
    var f := FileBytes(e, c);
    assert f[offset..i] + f[i..i + len] == f[offset..i + len];
  }

  /** Bytes of one block are next to each other in the file. */
  lemma PieceOf(e: Dinode, c: seq<Block>, k: nat, o: nat, len: nat)
    requires |e.addrs| == INODE_NUM_DIRECT && e.size <= INODE_MAX_BYTES && o + len <= BLOCK_SIZE
    requires k < INODE_MAX_BLOCKS && Slot(e, c, k) < |c| && k * BLOCK_SIZE + o + len <= e.size
    ensures var i := k * BLOCK_SIZE + o; FileBytes(e, c)[i..i + len] == c[Slot(e, c, k)][o..o + len]
  {
    hide Slot;
    var i, f, p := k * BLOCK_SIZE + o, FileBytes(e, c), c[Slot(e, c, k)][o..o + len];
    forall j | 0 <= j < len ensures f[i + j] == p[j] {
      assert (i + j) / BLOCK_SIZE == k && (i + j) % BLOCK_SIZE == o + j;
    }
  }

  lemma SlotInside(g: Geometry, e: Dinode, c: seq<Block>, k: nat)
    requires Owns(g, e, c) && g.numBlocks <= |c| && k <= INDIRECT_SLOT && Slot(e, c, k) != 0
    ensures Slot(e, c, k) < |c| && g.Data(c, Slot(e, c, k))
  {
  }

  /** The 64-bit arithmetic at the head of `inode_read`. */
  lemma ReadBounds(size: nat, offset: nat, count: nat)
    requires size < U64 && offset < U64 && count < U64
    ensures var n := if (count + offset) % U64 > size then (size - offset) % U64 else count;
            var end := (offset + n) % U64;
            && (offset <= size && end <= size && offset <= end <==> offset <= size && offset + count < U64)
            && (offset <= size && offset + count < U64 ==> n == Min(count, size - offset) && end == offset + n)
  {
    var s := offset + count;
    assert s % U64 == if s < U64 then s else s - U64;
  }

  lemma NextBlock(i: nat)
    ensures i < (i / BLOCK_SIZE + 1) * BLOCK_SIZE && (i / BLOCK_SIZE + 1) * BLOCK_SIZE % BLOCK_SIZE == 0
    ensures i % BLOCK_SIZE < BLOCK_SIZE
  {
  }

  // ---------- writing ----------

  /** The file `f` on `d` is the file `e` on `c` with `data` written at `offset`, as far as blocks and
      bytes go; `upTo` bounds the slots that may be new. */
  ghost predicate Written(g: Geometry, no: nat, e: Dinode, c: seq<Block>, f: Dinode, d: seq<Block>, offset: nat,
                          data: seq<byte>)
    requires |e.addrs| == INODE_NUM_DIRECT && |f.addrs| == INODE_NUM_DIRECT
  {
    && Extends(g, no, e, c, f, d) && BytesWritten(e, c, f, d, offset, data)
    && forall k :: Reach(offset, |data|) <= k < INODE_MAX_BLOCKS ==> Slot(f, d, k) == Slot(e, c, k)
  }

  ghost predicate BytesWritten(e: Dinode, c: seq<Block>, f: Dinode, d: seq<Block>, offset: nat, data: seq<byte>)
    requires |e.addrs| == INODE_NUM_DIRECT && |f.addrs| == INODE_NUM_DIRECT
  {
    forall p :: 0 <= p < INODE_MAX_BYTES ==>
      if offset <= p < offset + |data| then Slot(f, d, p / BLOCK_SIZE) != 0 && ByteAt(f, d, p) == data[p - offset]
      else Slot(e, c, p / BLOCK_SIZE) != 0 ==> ByteAt(f, d, p) == ByteAt(e, c, p)
  }

  /** The first slot past a write of `n` bytes. */
  function Reach(offset: nat, n: nat): nat { if n == 0 then 0 else BlocksFor(offset + n) }

  lemma WrittenStart(g: Geometry, no: nat, e: Dinode, c: seq<Block>, f: Dinode, d: seq<Block>, offset: nat)
    requires |e.addrs| == INODE_NUM_DIRECT && |f.addrs| == INODE_NUM_DIRECT
    requires Extends(g, no, e, c, f, d) && SameBytes(e, c, f, d)
    requires forall k :: 0 <= k < INODE_MAX_BLOCKS ==> Slot(f, d, k) == Slot(e, c, k)
    ensures Written(g, no, e, c, f, d, offset, [])
  {
    hide Slot, ByteAt, Extends;
  }

  lemma PatchExtends(g: Geometry, no: nat, e: Dinode, c: seq<Block>, k: nat, o: nat, data: seq<byte>)
    requires g.Laid(c) && Owns(g, e, c) && k < INODE_MAX_BLOCKS && Slot(e, c, k) != 0 && o + |data| <= BLOCK_SIZE
    requires no < g.numInodes
    ensures var b := Slot(e, c, k);
            && b < |c| && var d := c[b := Patch(c[b], o, data)];
               && Extends(g, no, e, c, e, d) && PatchedBytes(e, c, d, k, o, data)
               && forall j :: 0 <= j <= INDIRECT_SLOT ==> Slot(e, d, j) == Slot(e, c, j)
  {
    hide Marked, OnDisk, Slot, Patch, ByteAt;
    PatchStep(g, no, e, c, k, o, data);
    var b := Slot(e, c, k);
    DataWrite(g, no, e, c, k, Patch(c[b], o, data));
    ExtendsStart(g, no, e, c);
    PatchMarks(g, e, c, k, Patch(c[b], o, data));
    assert Owned(e, c[b := Patch(c[b], o, data)]) == Owned(e, c);
  }

  ghost predicate PatchedBytes(e: Dinode, c: seq<Block>, d: seq<Block>, k: nat, o: nat, data: seq<byte>)
    requires |e.addrs| == INODE_NUM_DIRECT
  {
    forall i :: 0 <= i < INODE_MAX_BYTES && Slot(e, c, i / BLOCK_SIZE) != 0 ==>
      ByteAt(e, d, i) == var p := i - k * BLOCK_SIZE - o; if 0 <= p < |data| then data[p] else ByteAt(e, c, i)
  }

  lemma PatchMarks(g: Geometry, e: Dinode, c: seq<Block>, k: nat, data: Block)
    requires g.Laid(c) && Owns(g, e, c) && k <= INDIRECT_SLOT && Slot(e, c, k) != 0 && Slot(e, c, k) < |c|
    ensures forall n :: 0 <= n < g.numBlocks ==>
              (Marked(c[Slot(e, c, k) := data], g.bitmapStart, n) <==> Marked(c, g.bitmapStart, n))
  {
    hide Bit, Slot;
    var b := Slot(e, c, k);
    assert g.Data(c, b);
    forall n | 0 <= n < g.numBlocks ensures MapNo(g.bitmapStart, n) != b { assert g.Meta(MapNo(g.bitmapStart, n)); }
  }

  /** One turn of the write loop: map the block of the current position, slot `k` offset `o`, then
      overwrite its part. */
  lemma WriteTurn(g: Geometry, no: nat, e: Dinode, c: seq<Block>, f: Dinode, d: seq<Block>, h: Dinode, z: seq<Block>,
                  offset: nat, data: seq<byte>, k: nat, o: nat, piece: seq<byte>)
    requires |e.addrs| == INODE_NUM_DIRECT && |f.addrs| == INODE_NUM_DIRECT && |h.addrs| == INODE_NUM_DIRECT
    requires no < g.numInodes && Written(g, no, e, c, f, d, offset, data)
    requires offset + |data| == k * BLOCK_SIZE + o && k < INODE_MAX_BLOCKS && 0 < |piece| && o + |piece| <= BLOCK_SIZE
    requires Extends(g, no, f, d, h, z) && SameBytes(f, d, h, z) && OtherSlots(f, d, h, z, k) && Slot(h, z, k) != 0
    ensures Slot(h, z, k) < |z| && !InLog(g.logStart, Slot(h, z, k)) && Extends(g, no, f, d, h, z)
    ensures g.Laid(PatchSlot(h, z, k, o, piece))
    ensures Written(g, no, e, c, h, PatchSlot(h, z, k, o, piece), offset, data + piece)
  {
    hide Marked, OnDisk, Slot, ByteAt, Patch, Evolves;
    PatchExtends(g, no, h, z, k, o, piece);
    DataWrite(g, no, h, z, k, Patch(z[Slot(h, z, k)], o, piece));
    var y := PatchSlot(h, z, k, o, piece);
    ExtendsOn(g, no, f, d, h, z, h, y);
    ExtendsOn(g, no, e, c, f, d, h, y);
    hide Extends;
    WriteTurnBytes(e, c, f, d, h, z, y, offset, data, k, o, piece);
    WriteTurnSlots(e, c, f, d, h, z, y, offset, data, k, o, piece);
  }

  function PatchSlot(e: Dinode, c: seq<Block>, k: nat, o: nat, piece: seq<byte>): seq<Block>
    requires |e.addrs| == INODE_NUM_DIRECT && k <= INDIRECT_SLOT && o + |piece| <= BLOCK_SIZE
  {
    var b := Slot(e, c, k);
    if b < |c| then c[b := Patch(c[b], o, piece)] else c
  }

  lemma WriteTurnBytes(e: Dinode, c: seq<Block>, f: Dinode, d: seq<Block>, h: Dinode, z: seq<Block>, y: seq<Block>,
                       offset: nat, data: seq<byte>, k: nat, o: nat, piece: seq<byte>)
    requires |e.addrs| == INODE_NUM_DIRECT && |f.addrs| == INODE_NUM_DIRECT && |h.addrs| == INODE_NUM_DIRECT
    requires offset + |data| == k * BLOCK_SIZE + o && k < INODE_MAX_BLOCKS && 0 < |piece| && o + |piece| <= BLOCK_SIZE
    requires Slot(h, z, k) != 0 && PatchedBytes(h, z, y, k, o, piece)
    requires BytesWritten(e, c, f, d, offset, data) && SameBytes(f, d, h, z)
    requires forall k :: 0 <= k <= INDIRECT_SLOT && Slot(f, d, k) != 0 ==> Slot(h, z, k) == Slot(f, d, k)
    requires forall k :: 0 <= k <= INDIRECT_SLOT && Slot(e, c, k) != 0 ==> Slot(f, d, k) == Slot(e, c, k)
    requires forall k :: 0 <= k <= INDIRECT_SLOT ==> Slot(h, y, k) == Slot(h, z, k)
    ensures BytesWritten(e, c, h, y, offset, data + piece)
  {
    hide Slot, ByteAt;
    var pos := offset + |data|;
    var all := data + piece;
    forall p | 0 <= p < INODE_MAX_BYTES
      ensures if offset <= p < offset + |all| then Slot(h, y, p / BLOCK_SIZE) != 0 && ByteAt(h, y, p) == all[p - offset]
              else Slot(e, c, p / BLOCK_SIZE) != 0 ==> ByteAt(h, y, p) == ByteAt(e, c, p)
    {
      if pos <= p < pos + |piece| { assert p / BLOCK_SIZE == k; }
    }
  }

  lemma WriteTurnSlots(e: Dinode, c: seq<Block>, f: Dinode, d: seq<Block>, h: Dinode, z: seq<Block>, y: seq<Block>,
                       offset: nat, data: seq<byte>, k: nat, o: nat, piece: seq<byte>)
    requires |e.addrs| == INODE_NUM_DIRECT && |f.addrs| == INODE_NUM_DIRECT && |h.addrs| == INODE_NUM_DIRECT
    requires offset + |data| == k * BLOCK_SIZE + o && 0 < |piece| && o + |piece| <= BLOCK_SIZE
    requires OtherSlots(f, d, h, z, k)
    requires forall j :: Reach(offset, |data|) <= j < INODE_MAX_BLOCKS ==> Slot(f, d, j) == Slot(e, c, j)
    requires forall j :: 0 <= j <= INDIRECT_SLOT ==> Slot(h, y, j) == Slot(h, z, j)
    ensures forall j :: Reach(offset, |data + piece|) <= j < INODE_MAX_BLOCKS ==> Slot(h, y, j) == Slot(e, c, j)
  {
    hide Slot;
    assert BlocksFor(offset + |data + piece|) == k + 1;
    assert Reach(offset, |data|) <= k + 1;
  }

  /** What a finished write means: the file is in order and holds exactly the new bytes. */
  lemma WriteMeans(g: Geometry, no: nat, e: Dinode, c: seq<Block>, f: Dinode, d: seq<Block>, offset: nat,
      data: seq<byte>)
    requires |e.addrs| == INODE_NUM_DIRECT && |f.addrs| == INODE_NUM_DIRECT
    requires Sound(g, e, c) && Written(g, no, e, c, f, d, offset, data)
    requires offset <= e.size && offset + |data| <= INODE_MAX_BYTES
    requires f.size == if e.size < offset + |data| then offset + |data| else e.size
    ensures Sound(g, f, d) && FileBytes(f, d) == Overwrite(FileBytes(e, c), offset, data)
  {
    hide Marked, OnDisk, Slot, ByteAt, Evolves, Owns;
    var end := offset + |data|;
    forall k | 0 <= k < BlocksFor(f.size) && k < INODE_MAX_BLOCKS ensures Slot(f, d, k) != 0 {
      if k < BlocksFor(e.size) {
        assert Slot(e, c, k) != 0;
      } else {
        var p := k * BLOCK_SIZE;
        assert offset <= p < end && p / BLOCK_SIZE == k;
      }
    }
    assert NoHoles(f, d, BlocksFor(f.size));
    var s := Overwrite(FileBytes(e, c), offset, data);
    forall p | 0 <= p < f.size ensures FileBytes(f, d)[p] == s[p] {
      if !(offset <= p < end) { assert p / BLOCK_SIZE < BlocksFor(e.size); }
    }
  }

  /** A byte sequence with `data` written over it at `offset`, growing it if need be. */
  function Overwrite(s: seq<byte>, offset: nat, data: seq<byte>): seq<byte>
    requires offset <= |s|
  {
    s[..offset] + data + if offset + |data| <= |s| then s[offset + |data|..] else []
  }

  lemma OverwriteAt(s: seq<byte>, offset: nat, data: seq<byte>)
    requires offset <= |s|
    ensures var t := Overwrite(s, offset, data);
            && |t| == (if |s| < offset + |data| then offset + |data| else |s|)
            && (forall i :: 0 <= i < |data| ==> t[offset + i] == data[i])
            && (forall p :: 0 <= p < |s| && !(offset <= p < offset + |data|) ==> t[p] == s[p])
  {
  }

  /** `num_bytes = end` and the write-back of the inode. */
  lemma ResizeExtends(g: Geometry, no: nat, e: Dinode, c: seq<Block>, size: nat, offset: nat)
    requires g.Laid(c) && Owns(g, e, c) && no < g.numInodes && size <= INODE_MAX_BYTES
    ensures |e.addrs| == INODE_NUM_DIRECT && Owns(g, e.(size := size), c)
    ensures Written(g, no, e, c, e.(size := size), Synced(g, no, e.(size := size), c), offset, [])
  {
    hide Marked, OnDisk, Synced;
    var f := e.(size := size);
    var d := Synced(g, no, f, c);
    assert size < Pow256(4) by { assert Pow256(3) == 16777216; }
    forall k | 0 <= k <= INDIRECT_SLOT ensures Slot(f, c, k) == Slot(e, c, k) {}
    assert Owned(f, c) == Owned(e, c);
    SyncExtends(g, no, f, c);
    hide Slot;
    assert SameBytes(e, c, f, d) by {
      assert forall i :: 0 <= i < INODE_MAX_BYTES ==> ByteAt(f, c, i) == ByteAt(e, c, i);
      hide ByteAt;
    }
    assert Extends(g, no, e, c, f, d) by { hide Owns, Geometry.Laid; }
    WrittenStart(g, no, e, c, f, d, offset);
  }

  /** Nothing written yet. */
  lemma NothingWritten(g: Geometry, no: nat, e: Dinode, c: seq<Block>, offset: nat)
    requires g.Laid(c) && Owns(g, e, c)
    ensures |e.addrs| == INODE_NUM_DIRECT && Written(g, no, e, c, e, c, offset, [])
  {
    hide Marked, OnDisk, Slot, Extends, Geometry.Laid;
    assert |e.addrs| == INODE_NUM_DIRECT;
    hide Owns;
    ExtendsStart(g, no, e, c);
    SameStart(e, c, 0);
    WrittenStart(g, no, e, c, e, c, offset);
  }

  lemma LaidBound(g: Geometry, c: seq<Block>)
    requires g.Laid(c)
    ensures g.numBlocks <= |c|
  {
  }

  lemma NoIndirect(e: Dinode, c: seq<Block>, k: nat)
    requires |e.addrs| == INODE_NUM_DIRECT && e.indirect == 0 && INODE_NUM_DIRECT <= k < INODE_MAX_BLOCKS
    ensures Slot(e, c, k) == 0
  {
  }

  lemma SlotOutsideLog(g: Geometry, e: Dinode, c: seq<Block>, k: nat)
    requires g.Laid(c) && Owns(g, e, c) && k <= INDIRECT_SLOT && Slot(e, c, k) != 0
    ensures Slot(e, c, k) < |c| && !InLog(g.logStart, Slot(e, c, k))
  {
    hide Slot, Marked;
    assert g.Data(c, Slot(e, c, k));
  }

  lemma PatchLaid(g: Geometry, no: nat, e: Dinode, c: seq<Block>, k: nat, o: nat, piece: seq<byte>)
    requires g.Laid(c) && Owns(g, e, c) && k < INODE_MAX_BLOCKS && Slot(e, c, k) != 0 && o + |piece| <= BLOCK_SIZE
    ensures Slot(e, c, k) < |c| && g.Laid(c[Slot(e, c, k) := Patch(c[Slot(e, c, k)], o, piece)])
    ensures PatchSlot(e, c, k, o, piece) == c[Slot(e, c, k) := Patch(c[Slot(e, c, k)], o, piece)]
  {
    hide Slot, Marked, Patch, OnDisk;
    SlotOutsideLog(g, e, c, k);
    DataWrite(g, no, e, c, k, Patch(c[Slot(e, c, k)], o, piece));
  }

  lemma WrittenShape(g: Geometry, no: nat, e: Dinode, c: seq<Block>, f: Dinode, d: seq<Block>, offset: nat,
      data: seq<byte>)
    requires |e.addrs| == INODE_NUM_DIRECT && |f.addrs| == INODE_NUM_DIRECT && Written(g, no, e, c, f, d, offset, data)
    ensures g.Laid(d) && Owns(g, f, d) && Extends(g, no, e, c, f, d)
  {
  }

  /** A slot that is empty at some point of the write was empty before it, so it is past the end of
      the old file. */
  lemma EmptyIsNew(g: Geometry, no: nat, e: Dinode, c: seq<Block>, f: Dinode, d: seq<Block>, offset: nat,
      data: seq<byte>,
                   k: nat)
    requires |e.addrs| == INODE_NUM_DIRECT && |f.addrs| == INODE_NUM_DIRECT && Written(g, no, e, c, f, d, offset, data)
    requires Sound(g, e, c) && k < INODE_MAX_BLOCKS && Slot(f, d, k) == 0
    ensures k >= BlocksFor(e.size)
  {
    hide Slot, Owns, Evolves, Marked, OnDisk;
  }

  lemma IndirectKept(g: Geometry, no: nat, e: Dinode, c: seq<Block>, f: Dinode, d: seq<Block>, k: nat)
    requires |e.addrs| == INODE_NUM_DIRECT && |f.addrs| == INODE_NUM_DIRECT && k < INODE_MAX_BLOCKS
    requires OtherSlots(e, c, f, d, k) && Slot(f, d, k) != 0 && Extends(g, no, e, c, f, d)
    ensures k < INODE_NUM_DIRECT ==> f.indirect == e.indirect
    ensures k >= INODE_NUM_DIRECT ==> f.indirect != 0
    ensures e.indirect != 0 ==> f.indirect == e.indirect
  {
    hide Owns, Evolves, Marked, OnDisk;
    assert Slot(f, d, INDIRECT_SLOT) == f.indirect && Slot(e, c, INDIRECT_SLOT) == e.indirect;
  }

  /** Where a piece of the write loop ends: at the end of a block, or of the write. */
  lemma PieceEnds(pos: nat, cnt: nat, rest: nat)
    requires 0 < rest && (cnt == Min(BLOCK_SIZE - pos % BLOCK_SIZE, rest)
        || (pos % BLOCK_SIZE == 0 && cnt == Min(BLOCK_SIZE, rest)))
    ensures 0 < cnt <= rest && pos % BLOCK_SIZE + cnt <= BLOCK_SIZE && (cnt < rest ==> (pos + cnt) % BLOCK_SIZE == 0)
  {
  }
}
