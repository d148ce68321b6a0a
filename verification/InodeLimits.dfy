/** Where the limits of one operation lie: concrete disks on which they are reached. */
module InodeLimits {
  import opened Bytes
  import opened Wal
  import opened Bitmap
  import opened BlockCache
  import opened CacheOps
  import opened InodeModel
  import opened InodeSteps
  import opened InodeGrowth
  import opened InodeRoom
  import opened InodeData
  import opened InodeBill
  import opened InodeClear
  import opened LogBudget
  import opened Sequences
  import opened InodeFiles
  import opened Inodes
  import opened FileOps

  // ---------- a disk with one free block for each bitmap block ----------

  const BITMAP: nat := 66
  const HOLE: nat := 100

  /** The log in blocks 1 to 64, the inodes in block 65, then the bitmap. */
  function Spread(maps: nat): Geometry { Geometry(1, 65, 8, BITMAP, maps * BIT_PER_BLOCK) }

  function Ones(): Block { seq(512, _ => 255 as byte) }

  /** All blocks but one are marked. */
  function OneFree(): Block { PutBit(Ones(), HOLE, false) }

  function SpreadDisk(maps: nat): (c: seq<Block>)
    ensures |c| == maps * BIT_PER_BLOCK
  {
    seq(maps * BIT_PER_BLOCK, i requires 0 <= i < maps * BIT_PER_BLOCK => SpreadBlock(maps, i))
  }

  function SpreadBlock(maps: nat, i: nat): Block { if BITMAP <= i < BITMAP + maps then OneFree() else ZeroBlock() }

  lemma {:induction false} OneBits(b: int, n: nat, j: nat)
    requires 0 <= b == Pow2(n) - 1 && j < n
    ensures Bit(b, j)
  {
    assert b % 2 == 1 && b / 2 == Pow2(n - 1) - 1;
    if j > 0 { OneBits(b / 2, n - 1, j - 1); }
  }

  lemma SpreadMarked(maps: nat, n: nat)
    requires 1 <= maps <= 30 && n < maps * BIT_PER_BLOCK
    ensures Marked(SpreadDisk(maps), BITMAP, n) <==> n % BIT_PER_BLOCK != HOLE
  {
    hide Bit, PutBit;
    var k := n % BIT_PER_BLOCK;
    PutBitBits(Ones(), HOLE, false, k);
    Pow2Of8();
    OneBits(255, 8, k % 8);
    Halves(n);
    assert n / BIT_PER_BLOCK < maps;
  }

  lemma SpreadLaid(maps: nat)
    requires 1 <= maps <= 30
    ensures Spread(maps).Laid(SpreadDisk(maps))
  {
    hide Bit, Marked;
    var g, c := Spread(maps), SpreadDisk(maps);
    assert Pow256(4) == 4294967296 by { assert Pow256(2) == 65536; }
    forall n | 0 <= n < g.numBlocks ensures BITMAP <= MapNo(BITMAP, n) < BITMAP + maps {}
    forall b | 0 <= b < g.numBlocks && g.Meta(b) ensures Marked(c, BITMAP, b) {
      assert b < HOLE;
      SpreadMarked(maps, b);
    }
  }

  /** A file of at most twelve blocks whose direct blocks, and indirect block if any, are marked. */
  ghost predicate Placed(maps: nat, e: Dinode) {
    && Encodable(e) && e.size <= INODE_NUM_DIRECT * BLOCK_SIZE
    && (forall k :: 0 <= k < INODE_NUM_DIRECT ==> PlacedAt(maps, e.addrs[k]) && e.addrs[k] != e.indirect)
    && (forall j, k :: 0 <= j < k < INODE_NUM_DIRECT ==> e.addrs[j] != e.addrs[k])
    && (e.indirect != 0 ==> PlacedAt(maps, e.indirect))
  }

  predicate PlacedAt(maps: nat, b: nat) { HOLE < b < maps * BIT_PER_BLOCK && b % BIT_PER_BLOCK != HOLE }

  /** The indirect block of such a file is a block of zeros. */
  lemma PlacedSlots(maps: nat, e: Dinode, k: nat)
    requires 1 <= maps <= 30 && Placed(maps, e) && k <= INDIRECT_SLOT
    ensures Slot(e, SpreadDisk(maps), k) == if k < INODE_NUM_DIRECT then e.addrs[k]
                                            else if k == INDIRECT_SLOT then e.indirect else 0
  {
    hide Word;
    if INODE_NUM_DIRECT <= k < INDIRECT_SLOT { WordZero(k - INODE_NUM_DIRECT); }
  }

  lemma PlacedData(maps: nat, b: nat)
    requires 1 <= maps <= 30 && PlacedAt(maps, b)
    ensures Spread(maps).Data(SpreadDisk(maps), b)
  {
    hide Marked;
    SpreadMarked(maps, b);
    forall n | 0 <= n < maps * BIT_PER_BLOCK ensures b != MapNo(BITMAP, n) {}
  }

  lemma PlacedSound(maps: nat, e: Dinode)
    requires 1 <= maps <= 30 && Placed(maps, e)
    ensures Sound(Spread(maps), e, SpreadDisk(maps))
  {
    hide Slot;
    var g, c := Spread(maps), SpreadDisk(maps);
    forall k | 0 <= k <= INDIRECT_SLOT
      ensures Slot(e, c, k) == if k < INODE_NUM_DIRECT then e.addrs[k] else if k == INDIRECT_SLOT then e.indirect else 0
    {
      PlacedSlots(maps, e, k);
    }
    forall k | 0 <= k <= INDIRECT_SLOT && Slot(e, c, k) != 0 ensures g.Data(c, Slot(e, c, k)) {
      PlacedData(maps, Slot(e, c, k));
    }
  }

  // ---------- a chunk of ten blocks ----------

  /** Twelve blocks, the last one of a single byte. */
  function TwelveBlocks(): (e: Dinode)
    ensures |e.addrs| == INODE_NUM_DIRECT
  {
    Dinode(2, 0, 0, 1, 11 * BLOCK_SIZE + 1, seq(INODE_NUM_DIRECT, k => 120 + k), 0)
  }

  lemma TwelvePlaced()
    ensures Placed(4, TwelveBlocks())
  {
    assert Pow256(2) == 65536;
    assert Pow256(4) == 4294967296;
  }

  /** What the blocks are that a file gains by appending a chunk to `TwelveBlocks`. */
  lemma GainedBlock(f: Dinode, d: seq<Block>, foot: set<nat>, k: nat)
    requires |f.addrs| == INODE_NUM_DIRECT && INODE_NUM_DIRECT <= k <= INDIRECT_SLOT && Slot(f, d, k) != 0
    requires Extends(Spread(4), 0, TwelveBlocks(), SpreadDisk(4), f, d)
    requires LogsNew(Spread(4), TwelveBlocks(), SpreadDisk(4), f, d, foot)
    ensures var b := Slot(f, d, k);
            Hole(b, MapNo(BITMAP, b)) && b in foot && MapNo(BITMAP, b) in foot
  {
    hide Slot, Marked, OnDisk;
    var g, e, c, b := Spread(4), TwelveBlocks(), SpreadDisk(4), Slot(f, d, k);
    TwelvePlaced();
    forall j | 0 <= j <= INDIRECT_SLOT
      ensures Slot(e, c, j) == if j < INODE_NUM_DIRECT then 120 + j else 0
      ensures Slot(e, c, j) != 0 ==> Slot(f, d, j) == Slot(e, c, j)
    {
      PlacedSlots(4, e, j);
    }
    forall j | 0 <= j <= INDIRECT_SLOT && Slot(e, c, j) != 0 ensures Slot(e, c, j) != b {
      assert Slot(f, d, j) == Slot(e, c, j) && j < k;
    }
    assert b in Owned(f, d) && b !in Owned(e, c);
    SpreadMarked(4, b);
    AtHole(b);
  }

  /** Whatever order the blocks are allocated in, appending a chunk to this file logs ten blocks: the
      inode, four data blocks, the indirect block and four bitmap blocks. */
  lemma TenBlocks(f: Dinode, d: seq<Block>, foot: set<nat>)
    requires |f.addrs| == INODE_NUM_DIRECT
    requires var e, c := TwelveBlocks(), SpreadDisk(4);
             && Extends(Spread(4), 0, e, c, f, d) && f.size == e.size + CHUNK
             && Filled(e, c, f, d, e.size, CHUNK) && HasLogged(Spread(4), 0, e, c, f, d, e.size, CHUNK, foot)
    ensures |foot| >= OP_MAX_NUM_BLOCKS
  {
    hide Marked, OnDisk, Evolves, LogsNew, Extends, Filled, HasLogged, InRange, Slot;
    var e, c := TwelveBlocks(), SpreadDisk(4);
    forall k | 11 <= k <= 14
      ensures Slot(f, d, k) != 0 && Slot(f, d, k) in foot && (k == 11 ==> Slot(f, d, k) == Slot(e, c, k))
    {
      ChunkSlot(f, d, foot, k);
    }
    TwelvePlaced();
    PlacedSlots(4, e, 11);
    ChunkOwns(f, d, foot);
    GainedBlock(f, d, foot, 12);
    GainedBlock(f, d, foot, 13);
    GainedBlock(f, d, foot, 14);
    GainedBlock(f, d, foot, INDIRECT_SLOT);
    var l := [Slot(f, d, 12), Slot(f, d, 13), Slot(f, d, 14), Slot(f, d, INDIRECT_SLOT)];
    var m := [MapNo(BITMAP, l[0]), MapNo(BITMAP, l[1]), MapNo(BITMAP, l[2]), MapNo(BITMAP, l[3])];
    TenDistinct(l, m, foot);
  }

  /** The slots in the range of the chunk. */
  lemma ChunkSlot(f: Dinode, d: seq<Block>, foot: set<nat>, k: nat)
    requires |f.addrs| == INODE_NUM_DIRECT && 11 <= k <= 14
    requires var e, c := TwelveBlocks(), SpreadDisk(4);
             && Extends(Spread(4), 0, e, c, f, d)
             && Filled(e, c, f, d, e.size, CHUNK) && HasLogged(Spread(4), 0, e, c, f, d, e.size, CHUNK, foot)
    ensures Slot(f, d, k) != 0 && Slot(f, d, k) in foot
    ensures k == 11 ==> Slot(f, d, k) == Slot(TwelveBlocks(), SpreadDisk(4), k)
  {
    hide Marked, OnDisk, Evolves, LogsNew, Slot;
    TwelvePlaced();
    PlacedSlots(4, TwelveBlocks(), 11);
    assert InRange(TwelveBlocks().size, CHUNK, k);
  }

  lemma ChunkOwns(f: Dinode, d: seq<Block>, foot: set<nat>)
    requires |f.addrs| == INODE_NUM_DIRECT && Slot(f, d, 12) != 0 && Slot(f, d, 13) != 0 && Slot(f, d, 14) != 0
    requires var e, c := TwelveBlocks(), SpreadDisk(4);
             && Extends(Spread(4), 0, e, c, f, d) && HasLogged(Spread(4), 0, e, c, f, d, e.size, CHUNK, foot)
             && f.size == e.size + CHUNK
    ensures Slot(f, d, INDIRECT_SLOT) != 0 && 65 in foot && LogsNew(Spread(4), TwelveBlocks(), SpreadDisk(4), f, d,
        foot)
    ensures Distinct([Slot(f, d, 12), Slot(f, d, 13), Slot(f, d, 14), Slot(f, d, INDIRECT_SLOT)])
  {
    hide Marked, OnDisk, Evolves, LogsNew, Slot;
    FilledIndirect(f, d, 12);
    OwnsShape(Spread(4), f, d);
  }

  lemma TenDistinct(l: seq<nat>, m: seq<nat>, foot: set<nat>)
    requires |l| == |m| == 4 && Distinct(l) && 65 in foot && 131 in foot
    requires forall i :: 0 <= i < 4 ==> Hole(l[i], m[i]) && l[i] in foot && m[i] in foot
    ensures |foot| >= 10
  {
    forall i, j | 0 <= i < j < 4 ensures m[i] != m[j] { assert l[i] != l[j]; }
    forall x | x in l ensures x >= HOLE && x != 131 && x in foot {}
    forall x | x in m ensures BITMAP <= x <= BITMAP + 3 && x in foot {}
    hide Hole;
    var two := [65, 131];
    DistinctParts(two, m);
    DistinctParts(two + m, l);
    CountElements(two + m + l);
    Subset(Elements(two + m + l), foot);
  }

  /** Block `a` is the free block of bitmap block `m`. */
  predicate Hole(a: nat, m: nat) { BITMAP <= m <= BITMAP + 3 && a == (m - BITMAP) * BIT_PER_BLOCK + HOLE }

  lemma AtHole(a: nat)
    requires a % BIT_PER_BLOCK == HOLE && a < 4 * BIT_PER_BLOCK
    ensures Hole(a, MapNo(BITMAP, a))
  {
  }

  // ---------- a file that cannot be cleared ----------

  /** One operation can clear every file of a disk with at most nine bitmap blocks. */
  lemma ClearFits(g: Geometry, no: nat, e: Dinode, c: seq<Block>)
    requires Owns(g, e, c) && g.numBlocks <= 9 * BIT_PER_BLOCK
    ensures |e.addrs| == INODE_NUM_DIRECT && |MapsOf(g, Owned(e, c)) + {g.InodeBlock(no)}| <= OP_MAX_NUM_BLOCKS
  {
    hide Slot, Marked, MapsOf, Owned, Span, Owns;
    OwnsShape(g, e, c);
    var maps, all := MapsOf(g, Owned(e, c)), Span(g.bitmapStart, 9);
    forall z | z in maps ensures z in all { MapInside(g, e, c, z); }
    Subset(maps, all);
    UnionSize(maps, {g.InodeBlock(no)});
  }

  lemma MapInside(g: Geometry, e: Dinode, c: seq<Block>, z: nat)
    requires Owns(g, e, c) && g.numBlocks <= 9 * BIT_PER_BLOCK && z in MapsOf(g, Owned(e, c))
    ensures g.bitmapStart <= z < g.bitmapStart + 9
  {
    hide Slot, Marked;
    var b :| b in Owned(e, c) && z == MapNo(g.bitmapStart, b);
    var k :| 0 <= k <= INDIRECT_SLOT && Slot(e, c, k) != 0 && Slot(e, c, k) == b;
    assert g.Data(c, b);
  }

  /** Twelve blocks, of which ten lie in the ranges of ten bitmap blocks. */
  function FarApart(): (e: Dinode)
    ensures |e.addrs| == INODE_NUM_DIRECT
  {
    Dinode(2, 0, 0, 0, INODE_NUM_DIRECT * BLOCK_SIZE,
           seq(INODE_NUM_DIRECT, k => if k < 10 then k * BIT_PER_BLOCK + 200 else 300 + k), 0)
  }

  /** With ten bitmap blocks there is a file that one operation cannot clear. */
  lemma ClearTooBig(no: nat)
    requires no < 8
    ensures Sound(Spread(10), FarApart(), SpreadDisk(10))
    ensures |MapsOf(Spread(10), Owned(FarApart(), SpreadDisk(10))) + {Spread(10).InodeBlock(no)}| > OP_MAX_NUM_BLOCKS
  {
    hide Sound, MapsOf, Owned, Span, FarApart, SpreadDisk, Placed;
    FarPlaced();
    PlacedSound(10, FarApart());
    var maps, all := MapsOf(Spread(10), Owned(FarApart(), SpreadDisk(10))), Span(BITMAP, 10);
    forall z | z in all ensures z in maps { FarMap(z); }
    assert 65 !in all && Spread(10).InodeBlock(no) == 65;
    Subset(all + {65}, maps + {65});
  }

  lemma FarPlaced()
    ensures Placed(10, FarApart())
  {
    assert Pow256(2) == 65536;
    assert Pow256(4) == 4294967296;
  }

  lemma FarMap(z: nat)
    requires BITMAP <= z < BITMAP + 10
    ensures z in MapsOf(Spread(10), Owned(FarApart(), SpreadDisk(10)))
  {
    hide Slot, Marked;
    var e, k := FarApart(), z - BITMAP;
    FarPlaced();
    PlacedSlots(10, e, k);
    var b := k * BIT_PER_BLOCK + 200;
    assert b in Owned(e, SpreadDisk(10));
    assert MapNo(BITMAP, b) == z;
  }

  // ---------- the same on a running file system ----------

  /** The cache of such a disk, after recovery. */
  method MountCache(maps: nat) returns (cache: Bcache)
    requires 1 <= maps <= 30
    ensures fresh(cache) && cache.start == 1 && cache.bitmapStart == BITMAP && cache.numBlocks == maps * BIT_PER_BLOCK
    ensures cache.Valid() && (forall b :: !Held(cache.lru, b)) && SameHome(1, SpreadDisk(maps), cache.Contents())
    ensures cache.hdr.num == 0 && cache.pins == {} && cache.outstanding == 0 && !cache.committing
  {
    hide View, Views, Held, Coherent, Cached, GoodHeader, Pins, Recovered, ReadHeader, Bcache.Valid, SpreadDisk,
      RecoveryWrites,
      GoodDisk, SameHome;
    EmptyLog(maps);
    RecoverIdle(1, SpreadDisk(maps));
    cache := new Bcache(1, BITMAP, maps * BIT_PER_BLOCK, SpreadDisk(maps));
    NoPins(cache);
    SameBack(1, cache.Contents(), SpreadDisk(maps));
  }

  lemma SameBack(start: nat, c: seq<Block>, d: seq<Block>)
    requires SameHome(start, c, d)
    ensures SameHome(start, d, c)
  {
  }

  /** A file system on it, with one operation begun and the given inode loaded. */
  method Mount(maps: nat, e: Dinode) returns (fs: Inodes, ctx: OpContext, ino: Inode)
    requires 1 <= maps <= 30 && Sound(Spread(maps), e, SpreadDisk(maps))
    ensures fresh(fs) && fresh(fs.cache) && fresh(ctx) && fresh(ino)
    ensures fs.g == Spread(maps) && fs.MapReady(ino) && ino.no == 0 && ino.entry == e && ino.rc == 1
    ensures SameHome(1, SpreadDisk(maps), fs.cache.Contents())
    ensures ctx.rm == OP_MAX_NUM_BLOCKS && fs.cache.hdr.num == 0 && fs.cache.pins == {}
  {
    hide View, Views, Held, Geometry.Laid, Slot, Marked, Bcache.Valid, SpreadDisk, Sound, Owns, FileBytes, SameHome;
    var g := Spread(maps);
    SpreadLaid(maps);
    var cache := MountCache(maps);
    ctx := new OpContext();
    fs := new Inodes(g, cache);
    ino := new Inode(0);
    ino.valid, ino.entry, ino.rc := true, e, 1;
    CommitKeepsFile(g, 0, e, SpreadDisk(maps), cache.Contents());
    SoundShape(g, e, cache.Contents());
    var admitted := cache.TryBeginOp(ctx);
    assert admitted;
  }

  lemma NoPins(cache: Bcache)
    requires cache.Valid() && cache.pins == {}
    ensures cache.hdr.num == 0
  {
    if cache.hdr.num > 0 { PinAt(cache.hdr, 0); }
  }

  lemma EmptyLog(maps: nat)
    requires 1 <= maps <= 30
    ensures var disk := SpreadDisk(maps); GoodDisk(1, disk) && ReadHeader(disk[1]).num == 0 && |disk| <= Pow256(8)
  {
    var disk := SpreadDisk(maps);
    assert disk[1] == ZeroBlock();
    ReadFits(disk[1]);
    assert Pow256(3) == 16777216;
    assert Pow256(8) == 256 * 256 * 256 * 256 * 256 * Pow256(3);
    DecodeZero(disk[1][..8]);
  }

  /** Mounting changed the log area only: the file and its free blocks are as on the given disk. */
  lemma Mounted(g: Geometry, e: Dinode, c: seq<Block>, d: seq<Block>)
    requires g.Laid(c) && Sound(g, e, c) && SameHome(g.logStart, c, d) && 0 < g.numInodes
    ensures |e.addrs| == INODE_NUM_DIRECT && Extends(g, 0, e, c, e, d) && Owned(e, d) == Owned(e, c)
    ensures FreeSet(g, d) == FreeSet(g, c) && forall k :: 0 <= k <= INDIRECT_SLOT ==> Slot(e, d, k) == Slot(e, c, k)
  {
    hide Slot, Marked, Extends, SameBytes, NoHoles;
    CommitExtends(g, 0, e, c, d);
    CommitMarks(g, c, d);
  }

  /** Appending a chunk to `TwelveBlocks` needs four blocks, and there are four. */
  lemma FourNeeded(d: seq<Block>)
    requires SameHome(1, SpreadDisk(4), d)
    ensures var e := TwelveBlocks();
            e.size + CHUNK <= INODE_MAX_BYTES && !Short(Spread(4), d, WriteNeed(e, d, e.size, CHUNK))
  {
    hide Slot, Marked, Extends;
    var g, e, c := Spread(4), TwelveBlocks(), SpreadDisk(4);
    TwelvePlaced();
    PlacedSound(4, e);
    SpreadLaid(4);
    Mounted(g, e, c, d);
    forall k | 11 <= k <= 14 ensures Slot(e, d, k) == if k < 12 then 131 else 0 { PlacedSlots(4, e, k); }
    assert BlocksFor(e.size + CHUNK) == 15 && e.size / BLOCK_SIZE == 11;
    FourGaps(e, d);
    FourFree();
  }

  lemma FourGaps(e: Dinode, d: seq<Block>)
    requires |e.addrs| == INODE_NUM_DIRECT && forall k :: 11 <= k <= 14 ==> Slot(e, d, k) == if k < 12 then 131 else 0
    ensures Gaps(e, d, 11, 15) == 3
  {
    hide Slot;
    assert Gaps(e, d, 11, 12) == Gaps(e, d, 11, 11) + Gap(e, d, 11) == 0;
    assert Gaps(e, d, 11, 13) == 1;
    assert Gaps(e, d, 11, 14) == 2;
  }

  lemma FourFree()
    ensures |FreeSet(Spread(4), SpreadDisk(4))| >= 4
  {
    hide Marked;
    var four := {HOLE, BIT_PER_BLOCK + HOLE, 2 * BIT_PER_BLOCK + HOLE, 3 * BIT_PER_BLOCK + HOLE};
    forall n | n in four ensures n in FreeSet(Spread(4), SpreadDisk(4)) { SpreadMarked(4, n); }
    assert |four| == 4;
    Subset(four, FreeSet(Spread(4), SpreadDisk(4)));
  }

  /** The slots read the same on both disks, so what was logged and filled is the same too. */
  lemma LoggedFrom(g: Geometry, e: Dinode, c: seq<Block>, b: seq<Block>, f: Dinode, d: seq<Block>, offset: nat, n: nat,
                   foot: set<nat>)
    requires |e.addrs| == INODE_NUM_DIRECT && |f.addrs| == INODE_NUM_DIRECT && Owned(e, b) == Owned(e, c)
    requires forall k :: 0 <= k <= INDIRECT_SLOT ==> Slot(e, b, k) == Slot(e, c, k)
    requires Filled(e, b, f, d, offset, n) && HasLogged(g, 0, e, b, f, d, offset, n, foot)
    ensures Filled(e, c, f, d, offset, n) && HasLogged(g, 0, e, c, f, d, offset, n, foot)
  {
    hide Slot, Owned, MapNo, InRange;
  }

  /** The budget is tight: this chunk is written, and it logs exactly ten blocks. */
  method AppendChunk(src: seq<byte>) returns (st: Status, ghost foot: set<nat>)
    requires |src| == CHUNK
    ensures st == Fine && |foot| == OP_MAX_NUM_BLOCKS
  {
    hide Slot, Marked, Extends, Filled, HasLogged, Sound, Owned, FreeSet, Short, WriteNeed, Spent, Inodes.Ready,
      Geometry.Laid,
      WriteBill, FileBytes, Overwrite, Owns, TwelveBlocks, SpreadDisk, Charged, Exceeds;
    ghost var g, e, c := Spread(4), TwelveBlocks(), SpreadDisk(4);
    TwelvePlaced();
    PlacedSound(4, e);
    SpreadLaid(4);
    TwelveShape();
    var fs, ctx, ino := Mount(4, TwelveBlocks());
    ghost var b := fs.cache.Contents();
    Mounted(g, e, c, b);
    SoundThere(g, e, c, b);
    FourNeeded(b);
    ChunkBill(e.size, e.size, CHUNK);
    var n;
    st, n, foot := fs.Write(ctx, ino, src, ino.entry.size);
    WithinBudget(OP_MAX_NUM_BLOCKS, 0, {}, foot);
    ghost var f, d := ino.entry, fs.cache.Contents();
    OwnsShape(g, f, d);
    ExtendsOn(g, 0, e, c, e, b, f, d);
    LoggedFrom(g, e, c, b, f, d, e.size, CHUNK, foot);
    TenBlocks(f, d, foot);
  }

  lemma TwelveShape()
    ensures TwelveBlocks().size == 5633 && TwelveBlocks().kind == 2
  {
  }

  lemma SoundThere(g: Geometry, e: Dinode, c: seq<Block>, d: seq<Block>)
    requires g.Laid(c) && Sound(g, e, c) && SameHome(g.logStart, c, d) && 0 < g.numInodes
    ensures Sound(g, e, d)
  {
    hide Slot, Marked, Owns, NoHoles, FileBytes;
    CommitKeepsFile(g, 0, e, c, d);
  }

  /** `inode_clear` panics on this file, although the operation has logged nothing yet. */
  method ClearStops() returns (ok: bool)
    ensures !ok
  {
    hide Slot, Marked, Extends, Sound, Owned, FreeSet, Inodes.Ready, Geometry.Laid, Owns, FarApart, SpreadDisk,
      MapsOf, Cleared,
      Charged;
    ghost var g, e, c := Spread(10), FarApart(), SpreadDisk(10);
    ClearTooBig(0);
    SpreadLaid(10);
    var fs, ctx, ino := Mount(10, FarApart());
    Mounted(g, e, c, fs.cache.Contents());
    ghost var foot := fs.ClearFoot(0, e, fs.cache.Contents());
    assert foot - {} == foot;
    ok := fs.Clear(ctx, ino);
  }

  /** `inode_map` without a context returns with the indirect block still acquired: block 150, of a file
      whose first indirect word is 0. */
  method PeekHolds() returns (fs: Inodes, b: nat)
    ensures b == 0 && fs.Ready({150})
  {
    hide Slot, Marked, Extends, Sound, Owned, FreeSet, Inodes.Ready, Geometry.Laid, Owns, SpreadDisk;
    var e := TwelveBlocks().(indirect := 150);
    HeldPlaced(e);
    PlacedSound(1, e);
    SpreadLaid(1);
    var ctx, ino;
    fs, ctx, ino := Mount(1, e);
    Mounted(Spread(1), e, SpreadDisk(1), fs.cache.Contents());
    PlacedSlots(1, e, INODE_NUM_DIRECT);
    b := fs.Peek(ino, INODE_NUM_DIRECT);
  }

  lemma HeldPlaced(e: Dinode)
    requires e == TwelveBlocks().(indirect := 150)
    ensures Placed(1, e)
  {
    assert Pow256(2) == 65536;
    assert Pow256(4) == 4294967296;
  }
}
