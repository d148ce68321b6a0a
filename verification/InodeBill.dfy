/** How many distinct blocks a call of the inode layer logs. */
module InodeBill {
  import opened Bytes
  import opened Bitmap
  import opened Wal
  import opened InodeModel
  import opened InodeSteps
  import opened InodeGrowth
  import opened InodeData
  import opened InodeRoom
  import opened LogBudget
  import opened Sequences

  /** What mapping slot `k` may log: the inode block `ib`, the indirect block, the data block, and
      one bitmap block for every block that had to be allocated. */
  ghost predicate MapBill(ib: nat, e: Dinode, c: seq<Block>, k: nat, foot: set<nat>, blk: nat, ind: nat, maps: set<nat>)
    requires |e.addrs| == INODE_NUM_DIRECT && k < INODE_MAX_BLOCKS
  {
    && foot <= {ib, blk} + maps + (if k < INODE_NUM_DIRECT then {} else {ind})
    && (e.indirect != 0 ==> ind == e.indirect)
    && |maps| <= (if Slot(e, c, k) == 0 then 1 else 0) + (if k >= INODE_NUM_DIRECT && e.indirect == 0 then 1 else 0)
  }

  lemma BillIndirect(ib: nat, e: Dinode, c: seq<Block>, k: nat, foot1: set<nat>, maps1: set<nat>, foot2: set<nat>,
                     maps2: set<nat>, blk: nat, ind: nat)
    requires |e.addrs| == INODE_NUM_DIRECT && INODE_NUM_DIRECT <= k < INODE_MAX_BLOCKS
    requires foot1 <= {ib, ind} + maps1 && |maps1| <= (if e.indirect == 0 then 1 else 0)
    requires foot2 <= {ind, blk} + maps2 && |maps2| <= (if Slot(e, c, k) == 0 then 1 else 0)
    requires e.indirect != 0 ==> ind == e.indirect
    ensures MapBill(ib, e, c, k, foot1 + foot2, blk, ind, maps1 + maps2)
    ensures foot2 == {} && maps2 == {} ==> MapBill(ib, e, c, k, foot1, blk, ind, maps1)
  {
    hide Slot;
    UnionSize(maps1, maps2);
    FootBoth(ib, foot1, maps1, foot2, maps2, blk, ind);
    if foot2 == {} && maps2 == {} {
      assert foot1 + foot2 == foot1 && maps1 + maps2 == maps1;
    }
  }

  lemma FootBoth(ib: nat, foot1: set<nat>, maps1: set<nat>, foot2: set<nat>, maps2: set<nat>, blk: nat, ind: nat)
    requires foot1 <= {ib, ind} + maps1 && foot2 <= {ind, blk} + maps2
    ensures foot1 + foot2 <= {ib, blk} + (maps1 + maps2) + {ind}
  {
  }

  // ---------- a whole write ----------

  /** The blocks a write has logged so far besides the inode block: indirect block, data blocks,
      bitmap blocks. */
  datatype Tally = Tally(ind: set<nat>, data: set<nat>, maps: set<nat>)

  /** Data blocks touched, and data blocks allocated, by a write from `offset` up to `pos`. */
  function Touched(offset: nat, pos: nat): nat {
    if pos <= offset then 0 else BlocksFor(pos) - offset / BLOCK_SIZE
  }

  function Gained(size: nat, offset: nat, pos: nat): nat {
    if pos <= offset || BlocksFor(pos) <= BlocksFor(size) then 0
    else BlocksFor(pos) - (if BlocksFor(size) < offset / BLOCK_SIZE then offset / BLOCK_SIZE else BlocksFor(size))
  }

  /** The most blocks that writing `count` bytes at `offset` into a file of `size` bytes can log. */
  function WriteBill(size: nat, offset: nat, count: nat): nat {
    if count == 0 then 0
    else 1 + Touched(offset, offset + count) + Gained(size, offset, offset + count)
         + (if BlocksFor(offset + count) > INODE_NUM_DIRECT then 2 else 0)
  }

  ghost predicate Tallied(ib: nat, e: Dinode, f: Dinode, offset: nat, pos: nat, foot: set<nat>, t: Tally) {
    && foot <= {ib} + t.ind + t.data + t.maps
    && (t.ind == {} || (t.ind == {f.indirect} && BlocksFor(pos) > INODE_NUM_DIRECT))
    && (f.indirect != e.indirect ==> e.indirect == 0 && t.ind == {f.indirect})
    && |t.data| <= Touched(offset, pos)
    && |t.maps| <= Gained(e.size, offset, pos) + (if e.indirect == 0 && t.ind != {} then 1 else 0)
  }

  lemma TallyStart(ib: nat, e: Dinode, f: Dinode, offset: nat, foot: set<nat>)
    requires foot <= {ib} && f.indirect == e.indirect
    ensures Tallied(ib, e, f, offset, offset, foot, Tally({}, {}, {}))
  {
  }

  /** One turn: `foot2` bounds what the mapping of slot `k` logged, `blk` is the data block written. */
  lemma TallyTurn(ib: nat, e: Dinode, f: Dinode, c: seq<Block>, h: Dinode, offset: nat, pos: nat, k: nat, o: nat,
      n: nat,
                  foot: set<nat>, t: Tally, all: set<nat>, foot2: set<nat>, blk: nat, ind: nat, maps: set<nat>)
    requires |f.addrs| == INODE_NUM_DIRECT && k < INODE_MAX_BLOCKS && Tallied(ib, e, f, offset, pos, foot, t)
    requires offset <= pos == k * BLOCK_SIZE + o && 0 < n && o + n <= BLOCK_SIZE && (pos > offset ==> o == 0)
    requires MapBill(ib, f, c, k, foot2, blk, ind, maps) && (Slot(f, c, k) == 0 ==> k >= BlocksFor(e.size))
    requires h.indirect == if k < INODE_NUM_DIRECT then f.indirect else ind
    requires (t.ind != {} ==> f.indirect != 0) && all <= foot2 + {blk}
    ensures Tallied(ib, e, h, offset, pos + n, foot + all, TallyNext(t, k, blk, ind, maps))
  {
    hide Slot, BlocksFor, Gained, Touched;
    UnionSize(t.data, {blk});
    UnionSize(t.maps, maps);
    SlotsReached(pos, k, o, n);
    GainedStep(e.size, offset, pos, k, o, n);
    var ind2: set<nat>, u := if k < INODE_NUM_DIRECT then {} else {ind}, TallyNext(t, k, blk, ind, maps);
    TallyIndirect(f, h, k, t.ind, ind, u.ind);
    FootTurn(ib, t, foot, foot2, blk, ind2, maps, u.ind);
    assert foot + all <= {ib} + u.ind + u.data + u.maps;
  }

  /** Which block the indirect block of the tally is. */
  lemma TallyIndirect(f: Dinode, h: Dinode, k: nat, before: set<nat>, ind: nat, after: set<nat>)
    requires before == {} || (before == {f.indirect} && f.indirect != 0)
    requires (f.indirect != 0 ==> ind == f.indirect) && h.indirect == if k < INODE_NUM_DIRECT then f.indirect else ind
    requires after == if k < INODE_NUM_DIRECT then before else {ind}
    ensures before <= after && (after == {} || after == {h.indirect})
  {
  }

  lemma SlotsReached(pos: nat, k: nat, o: nat, n: nat)
    requires pos == k * BLOCK_SIZE + o && 0 < n && o + n <= BLOCK_SIZE
    ensures BlocksFor(pos + n) == k + 1 && BlocksFor(pos) <= k + 1 && (o == 0 ==> BlocksFor(pos) == k)
  {
  }

  lemma FootTurn(ib: nat, t: Tally, foot: set<nat>, foot2: set<nat>, blk: nat, ind2: set<nat>, maps2: set<nat>,
                 ind: set<nat>)
    requires foot <= {ib} + t.ind + t.data + t.maps && foot2 <= {ib, blk} + maps2 + ind2
    requires t.ind <= ind && ind2 <= ind
    ensures foot + foot2 + {blk} <= {ib} + ind + (t.data + {blk}) + (t.maps + maps2)
  {
    forall x | x in foot + foot2 + {blk} ensures x in {ib} + ind + (t.data + {blk}) + (t.maps + maps2) {}
  }

  function TallyNext(t: Tally, k: nat, blk: nat, ind: nat, maps: set<nat>): Tally {
    Tally(if k < INODE_NUM_DIRECT then t.ind else {ind}, t.data + {blk}, t.maps + maps)
  }

  lemma GainedStep(size: nat, offset: nat, pos: nat, k: nat, o: nat, n: nat)
    requires offset <= pos == k * BLOCK_SIZE + o && 0 < n && o + n <= BLOCK_SIZE && (pos > offset ==> o == 0)
    ensures Gained(size, offset, pos + n) == Gained(size, offset, pos) + if k >= BlocksFor(size) then 1 else 0
    ensures Touched(offset, pos + n) == Touched(offset, pos) + 1
  {
    assert BlocksFor(pos + n) == k + 1;
    assert pos > offset ==> BlocksFor(pos) == k && offset / BLOCK_SIZE < k;
    assert pos == offset ==> offset / BLOCK_SIZE == k;
  }

  /** The tally at any point of the write is within the bill of the whole write. */
  lemma TallyBound(ib: nat, e: Dinode, f: Dinode, offset: nat, pos: nat, count: nat, foot: set<nat>, t: Tally)
    requires Tallied(ib, e, f, offset, pos, foot, t) && offset <= pos <= offset + count && 0 < count
    ensures |foot| <= WriteBill(e.size, offset, count)
  {
    Subset(foot, {ib} + t.ind + t.data + t.maps);
    UnionSize({ib} + t.ind + t.data, t.maps);
    UnionSize({ib} + t.ind, t.data);
    UnionSize({ib}, t.ind);
    assert BlocksFor(pos) <= BlocksFor(offset + count);
    assert offset / BLOCK_SIZE <= BlocksFor(offset + count);
  }

  // ---------- a write in the middle ----------

  /** The file `f` on `d` after `data` was written at `offset` into the file `e` on `c`: the bytes, the
      slots filled, the free blocks taken, and the blocks logged, from above and from below. */
  ghost predicate Midway(g: Geometry, no: nat, e: Dinode, c: seq<Block>, f: Dinode, d: seq<Block>, offset: nat,
                         data: seq<byte>, foot: set<nat>, t: Tally)
    requires |e.addrs| == INODE_NUM_DIRECT && |f.addrs| == INODE_NUM_DIRECT
  {
    && offset + |data| <= INODE_MAX_BYTES && Written(g, no, e, c, f, d, offset, data)
    && Tallied(g.InodeBlock(no), e, f, offset, offset + |data|, foot, t) && (t.ind != {} ==> f.indirect != 0)
    && Filled(e, c, f, d, offset, |data|) && Spent(g, c, d, WriteNeed(e, c, offset, |data|))
    && HasLogged(g, no, e, c, f, d, offset, |data|, foot)
  }

  lemma MidwayStart(g: Geometry, no: nat, e: Dinode, c: seq<Block>, f: Dinode, d: seq<Block>, offset: nat,
      foot: set<nat>)
    requires |e.addrs| == INODE_NUM_DIRECT && |f.addrs| == INODE_NUM_DIRECT && f.indirect == e.indirect
    requires offset <= INODE_MAX_BYTES && Written(g, no, e, c, f, d, offset, [])
    requires forall k :: 0 <= k <= INDIRECT_SLOT ==> Slot(f, d, k) == Slot(e, c, k)
    requires foot <= {g.InodeBlock(no)} && (f.size != e.size ==> g.InodeBlock(no) in foot) && Spent(g, c, d, 0)
    ensures Midway(g, no, e, c, f, d, offset, [], foot, Tally({}, {}, {}))
  {
    hide Slot, Written, Tallied, Spent, Filled, HasLogged;
    TallyStart(g.InodeBlock(no), e, f, offset, foot);
    FilledStart(e, c, f, d, offset);
    LoggedStart(g, no, e, c, f, d, offset, foot);
  }

  /** One turn of the write loop: `z` is the disk after slot `k` was mapped, at the cost of `foot2`. */
  lemma MidwayTurn(g: Geometry, no: nat, e: Dinode, c: seq<Block>, f: Dinode, d: seq<Block>, h: Dinode, z: seq<Block>,
                   offset: nat, data: seq<byte>, k: nat, o: nat, piece: seq<byte>, foot: set<nat>, t: Tally,
                     foot2: set<nat>,
                   blk: nat, ind: nat, maps: set<nat>)
    requires |e.addrs| == INODE_NUM_DIRECT && |f.addrs| == INODE_NUM_DIRECT && |h.addrs| == INODE_NUM_DIRECT
    requires no < g.numInodes && Midway(g, no, e, c, f, d, offset, data, foot, t) && Sound(g, e, c)
    requires offset + |data| == k * BLOCK_SIZE + o && k < INODE_MAX_BLOCKS && 0 < |piece| && o + |piece| <= BLOCK_SIZE
    requires (data != [] ==> o == 0) && h.size == f.size && MapBill(g.InodeBlock(no), f, d, k, foot2, blk, ind, maps)
    requires Extends(g, no, f, d, h, z) && SameBytes(f, d, h, z) && OtherSlots(f, d, h, z, k) && Slot(h, z, k) != 0
    requires blk == Slot(h, z, k) && (k >= INODE_NUM_DIRECT ==> ind == h.indirect)
    requires Spent(g, d, z, MapNeed(f, d, k)) && LogsNew(g, f, d, h, z, foot2)
    ensures Midway(g, no, e, c, h, PatchSlot(h, z, k, o, piece), offset, data + piece, foot + (foot2 + {blk}),
                   TallyNext(t, k, blk, ind, maps))
  {
    hide Slot, Marked, OnDisk, Evolves, SameBytes, OtherSlots, Owns, PatchSlot, Written, MapBill, Tallied, NoHoles,
      Spent,
      LogsNew, Filled, HasLogged, WriteNeed, MapNeed, Geometry.Laid;
    var y, all := PatchSlot(h, z, k, o, piece), foot2 + {blk};
    if Slot(f, d, k) == 0 { EmptyIsNew(g, no, e, c, f, d, offset, data, k); }
    WrittenShape(g, no, e, c, f, d, offset, data);
    ExtendsShape(g, no, e, c, f, d);
    ExtendsShape(g, no, f, d, h, z);
    IndirectKept(g, no, f, d, h, z, k);
    WriteTurn(g, no, e, c, f, d, h, z, offset, data, k, o, piece);
    TallyTurn(g.InodeBlock(no), e, f, d, h, offset, offset + |data|, k, o, |piece|, foot, t, all, foot2, blk, ind,
      maps);
    PatchKeeps(g, no, h, z, k, o, piece);
    FilledTurn(e, c, f, d, h, z, y, offset, |data|, k, o, |piece|);
    LogsMore(g, f, d, h, z, z, foot2, all);
    LoggedTurn(g, no, e, c, f, d, h, z, y, offset, |data|, k, o, |piece|, foot, all);
    MidwayNeed(g, e, c, f, d, offset, |data|, k, o, |piece|);
    SpentOn(g, c, d, z, WriteNeed(e, c, offset, |data|), MapNeed(f, d, k));
    SpentOn(g, c, z, y, WriteNeed(e, c, offset, |data + piece|), 0);
  }

  /** The head of the write loop: the file was grown and its inode written back. */
  lemma GrownMidway(g: Geometry, no: nat, e: Dinode, c: seq<Block>, size: nat, offset: nat)
    requires g.Laid(c) && Owns(g, e, c) && no < g.numInodes && offset <= size <= INODE_MAX_BYTES
    ensures |e.addrs| == INODE_NUM_DIRECT
    ensures var f := e.(size := size);
            Midway(g, no, e, c, f, Synced(g, no, f, c), offset, [], {g.InodeBlock(no)}, Tally({}, {}, {}))
  {
    hide Marked, OnDisk, Synced, Written, Midway, Spent;
    var f := e.(size := size);
    ResizeExtends(g, no, e, c, size, offset);
    forall k | 0 <= k <= INDIRECT_SLOT ensures Slot(f, c, k) == Slot(e, c, k) {}
    hide Slot;
    SyncExtends(g, no, f, c);
    SyncedMarks(g, no, f, c);
    SpentNothing(g, c, Synced(g, no, f, c));
    MidwayStart(g, no, e, c, f, Synced(g, no, f, c), offset, {g.InodeBlock(no)});
  }

  lemma MidwayShape(g: Geometry, no: nat, e: Dinode, c: seq<Block>, f: Dinode, d: seq<Block>, offset: nat,
      data: seq<byte>,
                    foot: set<nat>, t: Tally)
    requires |e.addrs| == INODE_NUM_DIRECT && |f.addrs| == INODE_NUM_DIRECT
        && Midway(g, no, e, c, f, d, offset, data, foot, t)
    ensures g.Laid(d) && Owns(g, f, d) && Extends(g, no, e, c, f, d)
  {
    hide Slot, Marked, Evolves, OnDisk;
  }

  /** The end of the write loop. */
  lemma MidwayEnd(g: Geometry, no: nat, e: Dinode, c: seq<Block>, f: Dinode, d: seq<Block>, offset: nat,
      data: seq<byte>,
                  foot: set<nat>, t: Tally)
    requires |e.addrs| == INODE_NUM_DIRECT && |f.addrs| == INODE_NUM_DIRECT
        && Midway(g, no, e, c, f, d, offset, data, foot, t)
    requires Sound(g, e, c) && offset <= e.size && offset + |data| <= INODE_MAX_BYTES
    requires f.size == if e.size < offset + |data| then offset + |data| else e.size
    ensures Sound(g, f, d) && FileBytes(f, d) == Overwrite(FileBytes(e, c), offset, data) && Extends(g, no, e, c, f, d)
    ensures HasLogged(g, no, e, c, f, d, offset, |data|, foot) && Filled(e, c, f, d, offset, |data|)
    ensures Spent(g, c, d, WriteNeed(e, c, offset, |data|)) && !Short(g, c, WriteNeed(e, c, offset, |data|))
  {
    hide Slot, Written, Tallied, Filled, HasLogged, WriteNeed, NoHoles, Owns, FileBytes, Overwrite, Extends;
    WriteMeans(g, no, e, c, f, d, offset, data);
    WrittenShape(g, no, e, c, f, d, offset, data);
  }

  lemma BillStart(ib: nat, size: nat, offset: nat, count: nat, foot: set<nat>)
    requires foot == if size < offset + count then {ib} else {}
    requires offset <= size
    ensures |foot| <= WriteBill(size, offset, count)
  {
  }

  lemma MidwayNeed(g: Geometry, e: Dinode, c: seq<Block>, f: Dinode, d: seq<Block>, offset: nat, a: nat, k: nat,
      o: nat, n: nat)
    requires |e.addrs| == INODE_NUM_DIRECT && |f.addrs| == INODE_NUM_DIRECT && Filled(e, c, f, d, offset, a)
    requires offset + a == k * BLOCK_SIZE + o && k < INODE_MAX_BLOCKS && 0 < n && o + n <= BLOCK_SIZE
    ensures offset + a + n <= INODE_MAX_BYTES
    ensures WriteNeed(e, c, offset, a + n) == WriteNeed(e, c, offset, a) + MapNeed(f, d, k)
  {
    hide Slot, Filled, WriteNeed, MapNeed;
    NeedInBlock(f, d, k, o, n);
    NeedThen(e, c, f, d, offset, a, n);
  }

  /** Overwriting part of a data block moves no slot and allocates nothing. */
  lemma PatchKeeps(g: Geometry, no: nat, e: Dinode, c: seq<Block>, k: nat, o: nat, piece: seq<byte>)
    requires g.Laid(c) && Owns(g, e, c) && k < INODE_MAX_BLOCKS && Slot(e, c, k) != 0 && o + |piece| <= BLOCK_SIZE
    requires no < g.numInodes
    ensures |e.addrs| == INODE_NUM_DIRECT && var d := PatchSlot(e, c, k, o, piece);
            Spent(g, c, d, 0) && forall j :: 0 <= j <= INDIRECT_SLOT ==> Slot(e, d, j) == Slot(e, c, j)
  {
    hide Slot, Marked, Patch, OnDisk, Spent, Extends;
    PatchExtends(g, no, e, c, k, o, piece);
    PatchMarks(g, e, c, k, Patch(c[Slot(e, c, k)], o, piece));
    SpentNothing(g, c, PatchSlot(e, c, k, o, piece));
  }

  /** The write ran out of space at slot `k`. */
  lemma MidwayShort(g: Geometry, no: nat, e: Dinode, c: seq<Block>, f: Dinode, d: seq<Block>, offset: nat,
      data: seq<byte>,
                    foot: set<nat>, t: Tally, k: nat, o: nat, n: nat, count: nat)
    requires |e.addrs| == INODE_NUM_DIRECT && |f.addrs| == INODE_NUM_DIRECT && offset + count <= INODE_MAX_BYTES
    requires Midway(g, no, e, c, f, d, offset, data, foot, t) && k < INODE_MAX_BLOCKS && Short(g, d, MapNeed(f, d, k))
    requires offset + |data| == k * BLOCK_SIZE + o && 0 < n && o + n <= BLOCK_SIZE && |data| + n <= count
    ensures Short(g, c, WriteNeed(e, c, offset, count))
  {
    hide Slot, Written, Tallied, Filled, HasLogged, WriteNeed, MapNeed, Short, Spent;
    ShortInTurn(g, e, c, f, d, offset, |data|, k, o, n, count);
  }

  lemma ShortInTurn(g: Geometry, e: Dinode, c: seq<Block>, f: Dinode, d: seq<Block>, offset: nat, a: nat, k: nat,
      o: nat,
                    n: nat, count: nat)
    requires |e.addrs| == INODE_NUM_DIRECT && |f.addrs| == INODE_NUM_DIRECT
    requires offset + a <= offset + count <= INODE_MAX_BYTES
    requires Filled(e, c, f, d, offset, a) && Spent(g, c, d, WriteNeed(e, c, offset, a))
    requires k < INODE_MAX_BLOCKS && Short(g, d, MapNeed(f, d, k))
    requires offset + a == k * BLOCK_SIZE + o && 0 < n && o + n <= BLOCK_SIZE && a + n <= count
    ensures Short(g, c, WriteNeed(e, c, offset, count))
  {
    hide Slot, Filled, WriteNeed, MapNeed, Short, Spent;
    MidwayNeed(g, e, c, f, d, offset, a, k, o, n);
    SpentOn(g, c, d, d, WriteNeed(e, c, offset, a), MapNeed(f, d, k));
    NeedGrows(e, c, offset, a + n, count);
    ShortMore(g, c, WriteNeed(e, c, offset, a + n), WriteNeed(e, c, offset, count));
  }

  /** What the tally says about a turn that may have failed. */
  lemma MidwayBound(g: Geometry, no: nat, e: Dinode, c: seq<Block>, f: Dinode, d: seq<Block>, offset: nat,
      data: seq<byte>,
                    foot: set<nat>, t: Tally, k: nat, o: nat, n: nat, all: set<nat>, foot2: set<nat>, blk: nat,
                      ind: nat,
                    maps: set<nat>, count: nat)
    requires |e.addrs| == INODE_NUM_DIRECT && |f.addrs| == INODE_NUM_DIRECT && Sound(g, e, c)
    requires Midway(g, no, e, c, f, d, offset, data, foot, t)
    requires offset + |data| == k * BLOCK_SIZE + o && k < INODE_MAX_BLOCKS && 0 < n && o + n <= BLOCK_SIZE
    requires (data != [] ==> o == 0) && |data| + n <= count && all <= foot2 + {blk}
    requires MapBill(g.InodeBlock(no), f, d, k, foot2, blk, ind, maps)
    ensures |foot + all| <= WriteBill(e.size, offset, count)
  {
    hide Slot, Written, MapBill, Tallied, Filled, HasLogged, WriteNeed, WriteBill, Spent, NoHoles;
    if Slot(f, d, k) == 0 { EmptyIsNew(g, no, e, c, f, d, offset, data, k); }
    var h := f.(indirect := if k < INODE_NUM_DIRECT then f.indirect else ind);
    TallyTurn(g.InodeBlock(no), e, f, d, h, offset, offset + |data|, k, o, n, foot, t, all, foot2, blk, ind, maps);
    TallyBound(g.InodeBlock(no), e, h, offset, offset + |data| + n, count, foot + all, TallyNext(t, k, blk, ind, maps));
  }

  const CHUNK: nat := 1536

  /** Every chunk of `file_write` stays within the budget of one operation. */
  lemma ChunkBill(size: nat, offset: nat, count: nat)
    requires offset <= size && count <= CHUNK
    ensures WriteBill(size, offset, count) <= OP_MAX_NUM_BLOCKS
  {
    if count > 0 {
      var k, o := offset / BLOCK_SIZE, offset % BLOCK_SIZE;
      assert offset == k * BLOCK_SIZE + o;
      assert BlocksFor(offset + count) <= k + BlocksFor(o + count);
      assert o > 0 ==> BlocksFor(size) > k;
    }
  }
}
