/** On-disk inodes and what they mean: a file as a sequence of bytes spread over blocks. */
module InodeModel {
  import opened Bytes
  import opened Bitmap
  import opened Wal

  const INODE_NUM_DIRECT: nat := 12
  const INODE_NUM_INDIRECT: nat := 128
  const INODE_PER_BLOCK: nat := 8
  const INODE_MAX_BLOCKS: nat := 140
  const INODE_MAX_BYTES: nat := 71680
  const INODE_INVALID: nat := 0
  const INODE_DEVICE: nat := 3

  datatype Dinode = Dinode(kind: nat, major: nat, minor: nat, links: nat, size: nat, addrs: seq<nat>, indirect: nat)

  /** The values a 64-byte on-disk inode can carry. */
  ghost predicate Encodable(e: Dinode) {
    && e.kind < Pow256(2) && e.major < Pow256(2) && e.minor < Pow256(2) && e.links < Pow256(2)
    && e.size < Pow256(4) && |e.addrs| == INODE_NUM_DIRECT && e.indirect < Pow256(4)
    && forall i :: 0 <= i < |e.addrs| ==> e.addrs[i] < Pow256(4)
  }

  /** The layout of the disk: log, inode blocks, bitmap. */
  datatype Geometry = Geometry(logStart: nat, inodeStart: nat, numInodes: nat, bitmapStart: nat, numBlocks: nat) {
    function InodeBlock(no: nat): nat { inodeStart + no / INODE_PER_BLOCK }

    ghost predicate Meta(b: nat) {
      || b == 0 || InLog(logStart, b)
      || (exists no :: 0 <= no < numInodes && b == InodeBlock(no))
      || (exists n :: 0 <= n < numBlocks && b == MapNo(bitmapStart, n))
    }

    /** The parts do not overlap, and all of them are marked as used in the bitmap. */
    ghost predicate Laid(c: seq<Block>) {
      && 0 < numBlocks <= |c| && numBlocks <= Pow256(4)
      && (forall n :: 0 <= n < numBlocks ==> MapNo(bitmapStart, n) < |c| && !InLog(logStart, MapNo(bitmapStart, n)))
      && (forall no :: 0 <= no < numInodes ==> InodeBlock(no) < |c| && !InLog(logStart, InodeBlock(no)))
      && (forall no, n :: 0 <= no < numInodes && 0 <= n < numBlocks ==> InodeBlock(no) != MapNo(bitmapStart, n))
      && (forall b :: 0 <= b < numBlocks && Meta(b) ==> Marked(c, bitmapStart, b))
    }

    /** A block that a file may own. */
    ghost predicate Data(c: seq<Block>, b: nat) {
      b < numBlocks && !Meta(b) && Marked(c, bitmapStart, b)
    }
  }

  // ---------- addresses inside the indirect block ----------

  /** The `j`-th 32-bit word of a block. */
  function Word(b: Block, j: nat): nat
    requires j < INODE_NUM_INDIRECT
  {
    Decode(b[4 * j..4 * j + 4])
  }

  function PutWord(b: Block, j: nat, v: nat): Block
    requires j < INODE_NUM_INDIRECT
  {
    b[..4 * j] + Encode(v, 4) + b[4 * j + 4..]
  }

  lemma WordPut(b: Block, j: nat, v: nat, k: nat)
    requires j < INODE_NUM_INDIRECT && k < INODE_NUM_INDIRECT && v < Pow256(4)
    ensures Word(PutWord(b, j, v), k) == if k == j then v else Word(b, k)
  {
    var p := PutWord(b, j, v);
    if k == j {
      assert p[4 * k..4 * k + 4] == Encode(v, 4);
      DecodeEncode(v, 4);
    } else {
      assert p[4 * k..4 * k + 4] == b[4 * k..4 * k + 4];
    }
  }

  lemma {:induction false} DecodeZero(b: seq<byte>)
    requires forall i :: 0 <= i < |b| ==> b[i] == 0
    ensures Decode(b) == 0
  {
    if b != [] { DecodeZero(b[1..]); }
  }

  lemma WordZero(j: nat)
    requires j < INODE_NUM_INDIRECT
    ensures Word(ZeroBlock(), j) == 0
  {
    DecodeZero(ZeroBlock()[4 * j..4 * j + 4]);
  }

  // ---------- the blocks of a file ----------

  /** Slots 0 to 139 are the data blocks of a file, slot 140 is its indirect block. */
  const INDIRECT_SLOT: nat := 140

  function Slot(e: Dinode, c: seq<Block>, k: nat): nat
    requires |e.addrs| == INODE_NUM_DIRECT && k <= INDIRECT_SLOT
  {
    if k < INODE_NUM_DIRECT then e.addrs[k]
    else if k == INDIRECT_SLOT then e.indirect
    else if e.indirect == 0 || e.indirect >= |c| then 0
    else Word(c[e.indirect], k - INODE_NUM_DIRECT)
  }

  /** The number of blocks that `n` bytes reach into. */
  function BlocksFor(n: nat): nat { (n + BLOCK_SIZE - 1) / BLOCK_SIZE }

  ghost predicate NoHoles(e: Dinode, c: seq<Block>, n: nat)
    requires |e.addrs| == INODE_NUM_DIRECT
  {
    forall k :: 0 <= k < n && k < INODE_MAX_BLOCKS ==> Slot(e, c, k) != 0
  }

  /** Every block of the file is a marked data block, and no block serves two slots. */
  ghost predicate Owns(g: Geometry, e: Dinode, c: seq<Block>) {
    && Encodable(e)
    && (forall k :: 0 <= k <= INDIRECT_SLOT && Slot(e, c, k) != 0 ==> g.Data(c, Slot(e, c, k)))
    && (forall j, k :: 0 <= j < k <= INDIRECT_SLOT && Slot(e, c, j) != 0 ==> Slot(e, c, j) != Slot(e, c, k))
  }

  /** What an inode keeps between operations. */
  ghost predicate Sound(g: Geometry, e: Dinode, c: seq<Block>) {
    Owns(g, e, c) && e.size <= INODE_MAX_BYTES && NoHoles(e, c, BlocksFor(e.size))
  }

  ghost function Owned(e: Dinode, c: seq<Block>): set<nat>
    requires |e.addrs| == INODE_NUM_DIRECT
  {
    set k | 0 <= k <= INDIRECT_SLOT && Slot(e, c, k) != 0 :: Slot(e, c, k)
  }

  function ByteAt(e: Dinode, c: seq<Block>, i: nat): byte
    requires |e.addrs| == INODE_NUM_DIRECT && i < INODE_MAX_BYTES
  {
    var b := Slot(e, c, i / BLOCK_SIZE);
    if b < |c| then c[b][i % BLOCK_SIZE] else 0
  }

  /** The contents of the file. */
  function FileBytes(e: Dinode, c: seq<Block>): (s: seq<byte>)
    requires |e.addrs| == INODE_NUM_DIRECT && e.size <= INODE_MAX_BYTES
    ensures |s| == e.size
  {
    seq(e.size, i requires 0 <= i < e.size => ByteAt(e, c, i))
  }

  /** `inode_alloc`: everything but the type is 0. */
  function NewInode(kind: nat): (e: Dinode)
    ensures |e.addrs| == INODE_NUM_DIRECT
  {
    Dinode(kind, 0, 0, 0, 0, seq(INODE_NUM_DIRECT, _ => 0), 0)
  }

  // ---------- the on-disk copy ----------

  /** Four 16-bit fields, then fourteen 32-bit ones. */
  function EntryBytes(e: Dinode): (b: seq<byte>)
    ensures |e.addrs| == INODE_NUM_DIRECT ==> |b| == 64
  {
    EncodeAll(Shorts(e), 2) + EncodeAll(Longs(e), 4)
  }

  function Shorts(e: Dinode): seq<nat> { [e.kind, e.major, e.minor, e.links] }

  function Longs(e: Dinode): seq<nat> { [e.size] + e.addrs + [e.indirect] }

  function ReadEntry(b: seq<byte>): (e: Dinode)
    requires |b| == 64
    ensures |e.addrs| == INODE_NUM_DIRECT
  {
    var s, l := DecodeAll(b[..8], 2, 4), DecodeAll(b[8..], 4, 14);
    Dinode(s[0], s[1], s[2], s[3], l[0], l[1..13], l[13])
  }

  lemma ReadWrittenEntry(e: Dinode)
    requires Encodable(e)
    ensures ReadEntry(EntryBytes(e)) == e
  {
    hide EncodeAll, DecodeAll, Pow256;
    DecodeAllEncodeAll(Shorts(e), 2);
    DecodeAllEncodeAll(Longs(e), 4);
    TwoParts(EncodeAll(Shorts(e), 2), EncodeAll(Longs(e), 4));
    assert Longs(e)[1..13] == e.addrs;
  }

  lemma TwoParts(a: seq<byte>, b: seq<byte>)
    ensures (a + b)[..|a|] == a && (a + b)[|a|..] == b
  {
  }

  /** `get_entry`: 64 bytes of the inode block. */
  function EntryAt(b: Block, no: nat): (e: Dinode)
    ensures |e.addrs| == INODE_NUM_DIRECT
  {
    var o := 64 * (no % INODE_PER_BLOCK);
    ReadEntry(b[o..o + 64])
  }

  function PutEntry(b: Block, no: nat, e: Dinode): Block
    requires |e.addrs| == INODE_NUM_DIRECT
  {
    var o := 64 * (no % INODE_PER_BLOCK);
    b[..o] + EntryBytes(e) + b[o + 64..]
  }

  /** Writing one inode back leaves every other inode of the block as it was. */
  lemma EntryPut(b: Block, no: nat, e: Dinode, other: nat)
    requires Encodable(e)
    ensures EntryAt(PutEntry(b, no, e), other) ==
            if other % INODE_PER_BLOCK == no % INODE_PER_BLOCK then e else EntryAt(b, other)
  {
    hide EntryBytes, ReadEntry;
    var p, o, q := PutEntry(b, no, e), 64 * (no % INODE_PER_BLOCK), 64 * (other % INODE_PER_BLOCK);
    if other % INODE_PER_BLOCK == no % INODE_PER_BLOCK {
      assert p[q..q + 64] == EntryBytes(e);
      ReadWrittenEntry(e);
    } else {
      assert p[q..q + 64] == b[q..q + 64];
    }
  }
}
