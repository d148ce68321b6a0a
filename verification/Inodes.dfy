/** The inode layer of `fs/inode.c` on top of the block cache. */
module Inodes {
  import opened Bytes
  import opened Sequences
  import opened Wal
  import opened Bitmap
  import opened BlockCache
  import opened CacheOps
  import opened InodeModel
  import opened InodeSteps
  import opened InodeGrowth
  import opened InodeRoom
  import opened LogBudget
  import opened InodeData
  import opened InodeBill
  import opened InodeClear

  /** How a call ends: normally, or with one of the program's panics. */
  datatype Status = Fine | Refused | NoSpace | OverBudget

  class Inode {
    var no: nat
    var valid: bool
    var entry: Dinode
    var rc: nat

    /** `init_inode` */
    constructor (no: nat)
      ensures this.no == no && !valid && rc == 0
    {
      this.no, valid, rc := no, false, 0;
      entry := Dinode(0, 0, 0, 0, 0, seq(INODE_NUM_DIRECT, _ => 0), 0);
    }
  }

  class Inodes {
    const g: Geometry
    const cache: Bcache

    constructor (g: Geometry, cache: Bcache)
      ensures this.g == g && this.cache == cache
    {
      this.g, this.cache := g, cache;
    }

    /** The cache is in order, the disk is laid out, and exactly the blocks of `held` are held. */
    ghost predicate Ready(held: set<nat>)
      reads this, cache
    {
      && cache.Valid() && g.Laid(cache.Contents())
      && cache.start == g.logStart && cache.bitmapStart == g.bitmapStart && cache.numBlocks == g.numBlocks
      && forall b :: Held(cache.lru, b) <==> b in held
    }

    /** Charges since the start of the call. */
    twostate predicate Paid(ctx: OpContext, new foot: set<nat>)
      reads cache, ctx
    {
      Charged(old(ctx.rm), old(cache.hdr.num), old(cache.pins), foot, ctx.rm, cache.hdr.num, cache.pins)
    }

    twostate predicate Broke(ctx: OpContext, new foot: set<nat>)
      reads cache, ctx
    {
      Exceeds(old(ctx.rm), old(cache.hdr.num), old(cache.pins), foot)
    }

    /** `cache_acquire` by the inode layer. */
    method Hold(b: nat) returns (data: Block)
      requires Ready({}) && b < |cache.dev| && !InLog(g.logStart, b)
      modifies cache`lru, cache`count
      ensures Ready({b}) && cache.Contents() == old(cache.Contents()) && data == cache.Contents()[b]
      ensures b !in cache.pins ==> data == cache.dev[b]
    {
      hide View, Views, Held, Coherent, GoodHeader, Pins, Geometry.Laid;
      if b !in cache.pins { UnheldView(cache.dev, cache.lru, cache.pins, b); }
      cache.Acquire(b);
      data := cache.lru[0].data;
    }

    /** The caller overwrites a block it holds and syncs it. */
    method StoreHeld(ctx: OpContext, b: nat, data: Block) returns (ok: bool)
      requires Ready({b}) && b < |cache.dev| && !InLog(g.logStart, b) && g.Laid(cache.Contents()[b := data])
      modifies cache`lru, cache`hdr, cache`pins, ctx
      ensures ok ==>
          Ready({b}) && cache.Contents() == old(cache.Contents())[b := data] && Paid(ctx, {b}) && b in cache.pins
      ensures !ok ==> Broke(ctx, {b})
    {
      hide View, Views, Held, Coherent, GoodHeader, Pins, Geometry.Laid;
      OneBlock(b, cache.pins);
      cache.Fill(b, data);
      var panics := cache.SyncLogged(ctx, b);
      return !panics;
    }

    /** `cache_release` by the inode layer. */
    method LetGo(b: nat)
      requires Ready({b}) && b < |cache.dev| && (b !in cache.pins ==> cache.Contents()[b] == cache.dev[b])
      modifies cache`lru
      ensures Ready({}) && cache.Contents() == old(cache.Contents())
    {
      hide View, Views, Held, Coherent, GoodHeader, Pins, Geometry.Laid;
      cache.Release(b);
    }

    /** `cache_alloc` from inside an operation; `m` is the block it tried to hand out. */
    method AllocBlock(ctx: OpContext, ghost held: set<nat>) returns (st: Status, n: nat, ghost m: nat)
      requires Ready(held) && forall b :: b in held ==> g.Data(cache.Contents(), b)
      modifies cache`lru, cache`count, cache`hdr, cache`pins, ctx
      ensures st != Refused && (st == NoSpace <==> Full(g, old(cache.Contents())))
      ensures st == NoSpace ==> cache.Contents() == old(cache.Contents())
      ensures st != NoSpace ==> m < g.numBlocks && !Marked(old(cache.Contents()), g.bitmapStart, m)
      ensures st == Fine ==>
                && n == m && Ready(held) && cache.Contents() == Took(old(cache.Contents()), g.bitmapStart, n)
                && Paid(ctx, {MapNo(g.bitmapStart, m), m})
      ensures st == OverBudget ==> Broke(ctx, {MapNo(g.bitmapStart, m), m})
    {
      hide View, Views, Held, Coherent, GoodHeader, Pins, Marked, MapNo, Took;
      ghost var c, pins := cache.Contents(), cache.pins;
      LaidHere(c);
      IdleHere(c, held);
      var r := cache.Alloc(ctx);
      n := 0;
      match r {
        case Got(no) =>
          m := no;
          FreeIsNotMap(g, c, no);
          TwoBlocks(MapNo(g.bitmapStart, no), no, pins);
          TookLaid(g, c, no);
          return Fine, no, m;
        case DiskFull => return NoSpace, n, 0;
        case Stopped =>
          m :| LeastFree(c, g.bitmapStart, g.numBlocks, m) && cache.TooMuch(m, old(ctx.rm), old(cache.hdr.num), pins);
          FreeIsNotMap(g, c, m);
          TwoBlocks(MapNo(g.bitmapStart, m), m, pins);
          return OverBudget, n, m;
      }
    }

    /** `inode_sync`: load the inode on first use, write it back if asked to. */
    method Sync(ctx: OpContext, ino: Inode, doWrite: bool) returns (ok: bool)
      requires Ready({}) && ino.no < g.numInodes && |ino.entry.addrs| == INODE_NUM_DIRECT
      modifies cache`lru, cache`count, cache`hdr, cache`pins, ctx, ino`valid, ino`entry
      ensures |ino.entry.addrs| == INODE_NUM_DIRECT
      ensures ok ==> Ready({}) && ino.valid
      ensures ok ==> ino.entry == if old(ino.valid) then old(ino.entry) else OnDisk(g, old(cache.Contents()), ino.no)
      ensures ok && old(ino.valid) && doWrite ==>
                cache.Contents() == Synced(g, ino.no, ino.entry, old(cache.Contents()))
                  && Paid(ctx, {g.InodeBlock(ino.no)})
      ensures ok && old(ino.valid) && doWrite && Encodable(ino.entry) ==>
                && OnDisk(g, cache.Contents(), ino.no) == ino.entry
                && (forall m: nat :: m != ino.no ==>
                      OnDisk(g, cache.Contents(), m) == OnDisk(g, old(cache.Contents()), m))
                && (forall b: nat :: b < |old(cache.Contents())| && b != g.InodeBlock(ino.no) ==>
                      cache.Contents()[b] == old(cache.Contents())[b])
      ensures ok && !(old(ino.valid) && doWrite) ==> cache.Contents() == old(cache.Contents()) && Paid(ctx, {})
      ensures !ok ==> Broke(ctx, {g.InodeBlock(ino.no)}) && old(ino.valid) && doWrite
    {
      hide View, Views, Held, Coherent, GoodHeader, Pins, Geometry.Laid, PutEntry, EntryAt, Charged, Exceeds,
        Bcache.Tidy, Encodable;
      var b := g.InodeBlock(ino.no);
      if Encodable(ino.entry) { SyncedThere(ino.no, ino.entry, cache.Contents()); }
      MetaBlock(g, cache.Contents(), ino.no);
      ChargedNothing(ctx.rm, cache.hdr.num, cache.pins);
      var block := Hold(b);
      if ino.valid && doWrite {
        MarksSame(g, cache.Contents(), b, PutEntry(block, ino.no, ino.entry));
        ok := StoreHeld(ctx, b, PutEntry(block, ino.no, ino.entry));
        if !ok { return false; }
      }
      if !ino.valid {
        ino.entry := EntryAt(block, ino.no);
        ino.valid := true;
      }
      LetGo(b);
      return true;
    }

    lemma SyncedThere(no: nat, e: Dinode, c: seq<Block>)
      requires g.Laid(c) && no < g.numInodes && Encodable(e)
      ensures var d := Synced(g, no, e, c);
              && OnDisk(g, d, no) == e && (forall m: nat :: m != no ==> OnDisk(g, d, m) == OnDisk(g, c, m))
              && forall b: nat :: b < |c| && b != g.InodeBlock(no) ==> d[b] == c[b]
    {
      hide Geometry.Laid, OnDisk, Synced;
      MetaBlock(g, c, no);
      SyncedDisk(g, no, e, c);
    }

    /** `inode_map`: allocate a block, enter it in the inode (`addrs[k]` or `indirect`) and write the
        inode back. */
    method AddToInode(ctx: OpContext, ino: Inode, k: nat)
      returns (st: Status, ghost foot: set<nat>, ghost blk: nat, ghost maps: set<nat>)
      requires MapReady(ino) && (k < INODE_NUM_DIRECT || k == INDIRECT_SLOT)
          && Slot(ino.entry, cache.Contents(), k) == 0
      modifies cache`lru, cache`count, cache`hdr, cache`pins, ctx, ino`valid, ino`entry
      ensures Outcome(ctx, st, foot) && foot <= {g.InodeBlock(ino.no), blk} + maps && |maps| <= 1
      ensures st == Fine ==> Mapped(ino, k) && blk == Slot(ino.entry, cache.Contents(), k) && blk != 0
      ensures Priced(ino, st, 1, foot)
    {
      hide Full, Spent, LogsNew, Short, Inodes.Ready, Geometry.Data, Slot, Marked, Took, Geometry.Laid, Evolves,
        OnDisk, MapNo, SameBytes, Charged, Exceeds, Synced, Added, Extends,
        OtherSlots;
      ghost var e, c, no, rm, num, pins := ino.entry, cache.Contents(), ino.no, ctx.rm, cache.hdr.num, cache.pins;
      ReadyLaid({});
      assert Encodable(e);
      hide Owns;
      var n;
      ghost var m;
      st, n, m := AllocBlock(ctx, {});
      blk, maps := m, {MapNo(g.bitmapStart, m)};
      foot := maps + {m};
      assert foot == {MapNo(g.bitmapStart, m), m};
      FullIsShort(g, c);
      if st != Fine { return; }
      ghost var rm1, num1, pins1, c1, f := ctx.rm, cache.hdr.num, cache.pins, cache.Contents(), PutSlot(e, k, n);
      InodeAdded(g, no, e, c, k, n);
      if k < INODE_NUM_DIRECT {
        ino.entry := ino.entry.(addrs := ino.entry.addrs[k := n]);
      } else {
        ino.entry := ino.entry.(indirect := n);
      }
      AddedSlot(g, no, e, c, f, c1, k, n);
      AddedSynced(g, no, e, c, f, c1, Synced(g, no, f, c1), k, n);
      var ok := Sync(ctx, ino, true);
      ghost var ib := g.InodeBlock(no);
      if !ok {
        ExceedsThen(rm, num, pins, foot, rm1, num1, pins1, {ib});
        foot := foot + {ib};
        return OverBudget, foot, blk, maps;
      }
      ChargedThen(rm, num, pins, foot, rm1, num1, pins1, {ib}, ctx.rm, cache.hdr.num, cache.pins);
      foot := foot + {ib};
      AddedRoom(g, no, e, c, f, c1, k, n, foot);
    }

    /** `addrs[j] = cache->alloc(ctx)` in the indirect block, which is held, and its sync. */
    method AddToIndirect(ctx: OpContext, ino: Inode, j: nat, addrs: Block)
      returns (st: Status, b: nat, ghost foot: set<nat>, ghost blk: nat, ghost maps: set<nat>)
      requires j < INODE_NUM_INDIRECT && ino.entry.indirect != 0 && ino.entry.indirect < |cache.dev|
          && ino.no < g.numInodes
      requires Ready({ino.entry.indirect}) && Owns(g, ino.entry, cache.Contents())
      requires addrs == cache.Contents()[ino.entry.indirect]
          && Slot(ino.entry, cache.Contents(), INODE_NUM_DIRECT + j) == 0
      modifies cache`lru, cache`count, cache`hdr, cache`pins, ctx
      ensures Result(ctx, st, foot, {ino.entry.indirect}) && foot <= {ino.entry.indirect, blk} + maps && |maps| <= 1
      ensures st == Fine ==> blk == b && b != 0 && ino.entry.indirect in cache.pins
      ensures st == Fine ==> b < g.numBlocks && !Marked(old(cache.Contents()), g.bitmapStart, b)
      ensures st == Fine ==> cache.Contents() == AddWord(ino.entry, Took(old(cache.Contents()), g.bitmapStart, b), j, b)
      ensures st == Fine ==> b in foot && MapNo(g.bitmapStart, b) in foot && ino.entry.indirect in foot
      ensures st == NoSpace ==> Short(g, old(cache.Contents()), 1)
    {
      hide Full, Spent, LogsNew, Short, Slot, Marked, Took, Geometry.Laid, Evolves, OnDisk, MapNo, SameBytes, Charged,
        Exceeds, Added, Extends,
        OtherSlots, Owns, AddWord, Word, PutWord, Geometry.Data, Inodes.Ready;
      ghost var e, c, rm, num, pins := ino.entry, cache.Contents(), ctx.rm, cache.hdr.num, cache.pins;
      var ind := ino.entry.indirect;
      ReadyLaid({ind});
      IndirectBlock(g, e, c, j);
      var n;
      ghost var m;
      st, n, m := AllocBlock(ctx, {ind});
      b, blk, maps := n, m, {MapNo(g.bitmapStart, m)};
      foot := maps + {m};
      assert foot == {MapNo(g.bitmapStart, m), m};
      FullIsShort(g, c);
      if st != Fine { return; }
      ghost var rm1, num1, pins1 := ctx.rm, cache.hdr.num, cache.pins;
      WordExtends(g, ino.no, e, c, j, n);
      AddWordIs(g, e, c, j, n);
      var ok := StoreHeld(ctx, ind, PutWord(addrs, j, n));
      if !ok {
        ExceedsThen(rm, num, pins, foot, rm1, num1, pins1, {ind});
        foot := foot + {ind};
        return OverBudget, b, foot, blk, maps;
      }
      ChargedThen(rm, num, pins, foot, rm1, num1, pins1, {ind}, ctx.rm, cache.hdr.num, cache.pins);
      foot := foot + {ind};
    }

    /** `inode_map` past the direct limit, the indirect block being there: its word `j`. */
    method MapWord(ctx: OpContext, ino: Inode, j: nat)
      returns (st: Status, b: nat, ghost foot: set<nat>, ghost blk: nat, ghost maps: set<nat>)
      requires MapReady(ino) && j < INODE_NUM_INDIRECT && ino.entry.indirect != 0
      modifies cache`lru, cache`count, cache`hdr, cache`pins, ctx
      ensures Outcome(ctx, st, foot) && foot <= {ino.entry.indirect, blk} + maps
      ensures st == Fine ==> blk == b && b != 0 && b == Slot(ino.entry, cache.Contents(), INODE_NUM_DIRECT + j)
      ensures st == Fine ==> Mapped(ino, INODE_NUM_DIRECT + j)
      ensures |maps| <= if Slot(ino.entry, old(cache.Contents()), INODE_NUM_DIRECT + j) == 0 then 1 else 0
      ensures Priced(ino, st, Gap(ino.entry, old(cache.Contents()), INODE_NUM_DIRECT + j), foot)
    {
      hide Full, Spent, LogsNew, Short, Slot, Marked, Took, Geometry.Laid, Evolves, OnDisk, MapNo, SameBytes, Charged,
        Exceeds, Added, Extends,
        OtherSlots, Owns, AddWord, Word, PutWord, Geometry.Data, Inodes.Ready;
      ghost var e, c, no := ino.entry, cache.Contents(), ino.no;
      var ind := ino.entry.indirect;
      ReadyLaid({});
      IndirectBlock(g, e, c, j);
      var addrs := Hold(ind);
      if Word(addrs, j) != 0 {
        foot, maps := {}, {};
        ChargedNothing(ctx.rm, cache.hdr.num, cache.pins);
        ExtendsStart(g, no, e, c);
        SameStart(e, c, INODE_NUM_DIRECT + j);
        PricedNothing(g, e, c);
        LetGo(ind);
        b := Word(addrs, j);
        return Fine, b, foot, b, maps;
      }
      st, b, foot, blk, maps := AddToIndirect(ctx, ino, j, addrs);
      if st != Fine { return; }
      WordExtends(g, no, e, c, j, b);
      WordRoom(g, no, e, c, j, b, foot);
      LetGo(ind);
    }

    /** `inode_map` past the direct limit: see to it that there is an indirect block. */
    method NeedIndirect(ctx: OpContext, ino: Inode)
      returns (st: Status, ghost foot: set<nat>, ghost ind: nat, ghost maps: set<nat>)
      requires MapReady(ino)
      modifies cache`lru, cache`count, cache`hdr, cache`pins, ctx, ino`valid, ino`entry
      ensures Outcome(ctx, st, foot) && foot <= {g.InodeBlock(ino.no), ind} + maps
      ensures |maps| <= (if old(ino.entry.indirect) == 0 then 1 else 0)
      ensures old(ino.entry.indirect) != 0 ==> ind == old(ino.entry.indirect)
      ensures st == Fine ==> Mapped(ino, INDIRECT_SLOT) && ind == ino.entry.indirect && ind != 0
      ensures Priced(ino, st, if old(ino.entry.indirect) == 0 then 1 else 0, foot)
    {
      hide Spent, LogsNew, Short, Slot, Marked, Took, Geometry.Laid, Evolves, OnDisk, MapNo, SameBytes, Charged,
        Exceeds, Extends, OtherSlots, Owns;
      ghost var e, c, no := ino.entry, cache.Contents(), ino.no;
      OwnsShape(g, e, c);
      if ino.entry.indirect == 0 {
        st, foot, ind, maps := AddToInode(ctx, ino, INDIRECT_SLOT);
        if st == Fine { ExtendsShape(g, no, e, c, ino.entry, cache.Contents()); }
      } else {
        ChargedNothing(ctx.rm, cache.hdr.num, cache.pins);
        ExtendsStart(g, no, e, c);
        SameStart(e, c, INDIRECT_SLOT);
        PricedNothing(g, e, c);
        return Fine, {}, e.indirect, {};
      }
    }

    /** `inode_map` past the direct limit, with a context. */
    method MapIndirect(ctx: OpContext, ino: Inode, k: nat)
      returns (st: Status, b: nat, ghost foot: set<nat>, ghost blk: nat, ghost ind: nat, ghost maps: set<nat>)
      requires MapReady(ino) && INODE_NUM_DIRECT <= k < INODE_MAX_BLOCKS
      modifies cache`lru, cache`count, cache`hdr, cache`pins, ctx, ino`valid, ino`entry
      ensures Outcome(ctx, st, foot)
      ensures st == Fine ==> Mapped(ino, k) && b == Slot(ino.entry, cache.Contents(), k) && b != 0
      ensures MapBill(g.InodeBlock(ino.no), old(ino.entry), old(cache.Contents()), k, foot, blk, ind, maps)
      ensures st == Fine ==> blk == b && ind == ino.entry.indirect
      ensures |old(ino.entry).addrs| == INODE_NUM_DIRECT
      ensures Priced(ino, st, MapNeed(old(ino.entry), old(cache.Contents()), k), foot)
    {
      hide Spent, LogsNew, Short, Gap, Slot, Marked, Took, Geometry.Laid, Evolves, OnDisk, MapNo, SameBytes, Charged,
        Exceeds, Extends, OtherSlots,
        Owns, MapBill, Inodes.Ready;
      ghost var e, c, no, rm, num, pins := ino.entry, cache.Contents(), ino.no, ctx.rm, cache.hdr.num, cache.pins;
      OwnsShape(g, e, c);
      ghost var want := if e.indirect == 0 then 1 else 0;
      ghost var foot1, maps1;
      st, foot1, ind, maps1 := NeedIndirect(ctx, ino);
      b, blk, foot, maps := 0, 0, foot1, maps1;
      if st != Fine {
        BillIndirect(g.InodeBlock(no), e, c, k, foot1, maps1, {}, {}, blk, ind);
        if st == NoSpace { ShortMore(g, c, want, MapNeed(e, c, k)); }
        return;
      }
      ghost var f, d, rm1, num1, pins1 := ino.entry, cache.Contents(), ctx.rm, cache.hdr.num, cache.pins;
      ExtendsShape(g, no, e, c, f, d);
      OtherSlot(e, c, f, d, INDIRECT_SLOT, k);
      st, b, foot, blk, maps := MapWord(ctx, ino, k - INODE_NUM_DIRECT);
      BillIndirect(g.InodeBlock(no), e, c, k, foot1, maps1, foot, maps, blk, ind);
      maps := maps1 + maps;
      if st == OverBudget { ExceedsThen(rm, num, pins, foot1, rm1, num1, pins1, foot); }
      if st == Fine {
        ChargedThen(rm, num, pins, foot1, rm1, num1, pins1, foot, ctx.rm, cache.hdr.num, cache.pins);
        MappedOn(g, no, e, c, f, d, f, cache.Contents(), k);
        PricedOn(g, e, c, f, d, f, cache.Contents(), k, foot1, foot);
      }
      if st == NoSpace { ShortThen(g, e, c, f, d, k); }
      foot := foot1 + foot;
    }

    /** `inode_map` with a context: the block of slot `k`, allocated if the slot was empty. */
    method Map(ctx: OpContext, ino: Inode, k: nat)
      returns (st: Status, b: nat, ghost foot: set<nat>, ghost blk: nat, ghost ind: nat, ghost maps: set<nat>)
      requires MapReady(ino) && k < INODE_MAX_BLOCKS
      modifies cache`lru, cache`count, cache`hdr, cache`pins, ctx, ino`valid, ino`entry
      ensures Outcome(ctx, st, foot)
      ensures st == Fine ==> Mapped(ino, k) && b == Slot(ino.entry, cache.Contents(), k) && b != 0
      ensures MapBill(g.InodeBlock(ino.no), old(ino.entry), old(cache.Contents()), k, foot, blk, ind, maps)
      ensures st == Fine ==> blk == b && (k >= INODE_NUM_DIRECT ==> ind == ino.entry.indirect)
      ensures |old(ino.entry).addrs| == INODE_NUM_DIRECT
      ensures Priced(ino, st, MapNeed(old(ino.entry), old(cache.Contents()), k), foot)
    {
      hide Spent, LogsNew, Short, Slot, Marked, Took, Geometry.Laid, Evolves, OnDisk, MapNo, SameBytes, Charged,
        Exceeds, Added, Extends,
        OtherSlots, Owns, Geometry.Data;
      ghost var e, c, no := ino.entry, cache.Contents(), ino.no;
      OwnsShape(g, e, c);
      if k < INODE_NUM_DIRECT {
        DirectSlot(e, c, k);
        ind := e.indirect;
        if ino.entry.addrs[k] != 0 {
          foot, maps := {}, {};
          ChargedNothing(ctx.rm, cache.hdr.num, cache.pins);
          ExtendsStart(g, no, e, c);
          SameStart(e, c, k);
          PricedNothing(g, e, c);
          b := ino.entry.addrs[k];
          return Fine, b, foot, b, ind, maps;
        }
        b := 0;
        st, foot, blk, maps := AddToInode(ctx, ino, k);
        if st == Fine {
          DirectSlot(ino.entry, cache.Contents(), k);
          b := ino.entry.addrs[k];
        }
      } else {
        st, b, foot, blk, ind, maps := MapIndirect(ctx, ino, k);
      }
    }

    /** `inode_map` without a context: nothing is allocated.  When the indirect word is 0 the call
        returns with the indirect block still acquired. */
    method Peek(ino: Inode, k: nat) returns (b: nat)
      requires MapReady(ino) && k < INODE_MAX_BLOCKS
      modifies cache`lru, cache`count
      ensures b == Slot(ino.entry, cache.Contents(), k) && cache.Contents() == old(cache.Contents())
      ensures Ready(if k >= INODE_NUM_DIRECT && ino.entry.indirect != 0 && b == 0 then {ino.entry.indirect} else {})
    {
      hide Slot, Marked, Geometry.Laid, Owns, Word, Geometry.Data;
      ghost var e, c := ino.entry, cache.Contents();
      OwnsShape(g, e, c);
      if k < INODE_NUM_DIRECT {
        DirectSlot(e, c, k);
        return ino.entry.addrs[k];
      }
      var j := k - INODE_NUM_DIRECT;
      if ino.entry.indirect == 0 {
        NoIndirect(e, c, k);
        return 0;
      }
      IndirectBlock(g, e, c, j);
      var addrs := Hold(ino.entry.indirect);
      if Word(addrs, j) == 0 { return 0; }
      LetGo(ino.entry.indirect);
      return Word(addrs, j);
    }

    /** The body of the read loop: map the block, copy `len` bytes of it out and release it. */
    method ReadBlock(ino: Inode, k: nat, o: nat, len: nat) returns (piece: seq<byte>)
      requires MapReady(ino) && k < INODE_MAX_BLOCKS && Slot(ino.entry, cache.Contents(), k) != 0
          && o + len <= BLOCK_SIZE
      modifies cache`lru, cache`count
      ensures MapReady(ino) && cache.Contents() == old(cache.Contents())
      ensures Slot(ino.entry, cache.Contents(), k) < |cache.Contents()|
      ensures piece == cache.Contents()[Slot(ino.entry, cache.Contents(), k)][o..o + len]
    {
      hide Slot, Marked, Geometry.Laid, Owns, Geometry.Data, Inodes.Ready;
      ReadyLaid({});
      SlotOutsideLog(g, ino.entry, cache.Contents(), k);
      var b := Peek(ino, k);
      var block := Hold(b);
      piece := block[o..o + len];
      LetGo(b);
    }

    lemma ReadyLaid(held: set<nat>)
      requires Ready(held)
      ensures g.Laid(cache.Contents())
    {
    }

    /** One turn of the read loop, from `i` to the end of its block or of the read. */
    method ReadTurn(ino: Inode, offset: nat, i: nat, end: nat, dest: seq<byte>) returns (more: seq<byte>, next: nat)
      requires MapReady(ino) && Sound(g, ino.entry, cache.Contents()) && offset <= i < end <= ino.entry.size
      requires dest == FileBytes(ino.entry, cache.Contents())[offset..i]
      modifies cache`lru, cache`count
      ensures MapReady(ino) && cache.Contents() == old(cache.Contents()) && i < next
      ensures more == FileBytes(ino.entry, cache.Contents())[offset..Min(next, end)]
    {
      hide Slot, Marked, Geometry.Laid, Owns, FileBytes, NoHoles, Geometry.Data, Inodes.Ready;
      ghost var e, c := ino.entry, cache.Contents();
      ReadyLaid({});
      LaidBound(g, c);
      ReadPiece(g, e, c, offset, i, end);
      NextBlock(i);
      var len := Min(BLOCK_SIZE - i % BLOCK_SIZE, end - i);
      var piece := ReadBlock(ino, i / BLOCK_SIZE, i % BLOCK_SIZE, len);
      more := dest + piece;
      next := (i / BLOCK_SIZE + 1) * BLOCK_SIZE;
    }

    /** `inode_read`: the bytes from `offset`, at most `count`, cut at the end of the file; refused
        (an assertion fails) if `offset` is past the end or the end position overflows 64 bits. */
    method Read(ino: Inode, offset: nat, count: nat) returns (st: Status, dest: seq<byte>, n: nat)
      requires MapReady(ino) && Sound(g, ino.entry, cache.Contents()) && ino.entry.kind != INODE_DEVICE
      requires offset < U64 && count < U64
      modifies cache`lru, cache`count
      ensures st == Refused <==> offset > ino.entry.size || offset + count >= U64
      ensures st == Refused || st == Fine
      ensures st == Fine ==> MapReady(ino) && cache.Contents() == old(cache.Contents())
      ensures st == Fine ==> n == Min(count, ino.entry.size - offset)
      ensures st == Fine ==> dest == FileBytes(ino.entry, cache.Contents())[offset..offset + n]
    {
      hide Slot, Marked, Geometry.Laid, Owns, FileBytes, NoHoles, Geometry.Data, Inodes.Ready;
      ghost var e, c := ino.entry, cache.Contents();
      ReadyLaid({});
      OwnsShape(g, e, c);
      var size := ino.entry.size;
      dest, n := [], count;
      if (count + offset) % U64 > size { n := (size - offset) % U64; }
      var end := (offset + n) % U64;
      ReadBounds(size, offset, count);
      if !(offset <= size) || !(end <= size) || !(offset <= end) { return Refused, dest, n; }
      LaidBound(g, c);
      var i := offset;
      while i < end
        invariant offset <= i && MapReady(ino) && cache.Contents() == c && ino.entry == e
        invariant dest == FileBytes(e, c)[offset..Min(i, end)]
        decreases end - i
      {
        dest, i := ReadTurn(ino, offset, i, end, dest);
      }
      return Fine, dest, n;
    }

    /** The body of the write loop: map the block, copy the bytes into it, sync and release it. */
    method WriteBlock(ctx: OpContext, ino: Inode, k: nat, o: nat, piece: seq<byte>)
      returns (st: Status, ghost z: seq<Block>, ghost all: set<nat>, ghost foot: set<nat>, ghost blk: nat,
        ghost ind: nat,
               ghost maps: set<nat>)
      requires MapReady(ino) && k < INODE_MAX_BLOCKS && o + |piece| <= BLOCK_SIZE
      modifies cache`lru, cache`count, cache`hdr, cache`pins, ctx, ino`valid, ino`entry
      ensures Outcome(ctx, st, all) && all <= foot + {blk} && (st == Fine ==> all == foot + {blk})
      ensures MapBill(g.InodeBlock(ino.no), old(ino.entry), old(cache.Contents()), k, foot, blk, ind, maps)
      ensures st == Fine ==>
          WroteBlock(ino, k, o, piece, z, blk) && (k >= INODE_NUM_DIRECT ==> ind == ino.entry.indirect)
      ensures |old(ino.entry).addrs| == INODE_NUM_DIRECT
      ensures st == NoSpace ==> Short(g, old(cache.Contents()), MapNeed(old(ino.entry), old(cache.Contents()), k))
      ensures st == Fine ==> |ino.entry.addrs| == INODE_NUM_DIRECT
      ensures st == Fine ==> Spent(g, old(cache.Contents()), z, MapNeed(old(ino.entry), old(cache.Contents()), k))
      ensures st == Fine ==> LogsNew(g, old(ino.entry), old(cache.Contents()), ino.entry, z, foot)
    {
      hide Short, Spent, LogsNew, MapNeed, Slot, Marked, Took, Geometry.Laid, Evolves, OnDisk, SameBytes, Charged,
        Exceeds, Extends, OtherSlots,
        Owns, Patch, Inodes.Ready;
      ghost var e, c, no, rm, num, pins := ino.entry, cache.Contents(), ino.no, ctx.rm, cache.hdr.num, cache.pins;
      var b;
      z := [];
      st, b, foot, blk, ind, maps := Map(ctx, ino, k);
      all := foot;
      if st != Fine { return; }
      z := cache.Contents();
      ghost var f, rm1, num1, pins1 := ino.entry, ctx.rm, cache.hdr.num, cache.pins;
      ExtendsShape(g, no, e, c, f, z);
      SlotOutsideLog(g, f, z, k);
      PatchLaid(g, no, f, z, k, o, piece);
      var block := Hold(b);
      var ok := StoreHeld(ctx, b, Patch(block, o, piece));
      all := foot + {b};
      if !ok {
        ExceedsThen(rm, num, pins, foot, rm1, num1, pins1, {b});
        st := OverBudget;
        return;
      }
      ChargedThen(rm, num, pins, foot, rm1, num1, pins1, {b}, ctx.rm, cache.hdr.num, cache.pins);
      LetGo(b);
    }

    /** Slot `k` was mapped, giving the contents `z`, and then `piece` was copied into its block. */
    twostate predicate WroteBlock(ino: Inode, k: nat, o: nat, piece: seq<byte>, new z: seq<Block>, new b: nat)
      requires k < INODE_MAX_BLOCKS && o + |piece| <= BLOCK_SIZE
      reads this, cache, ino
    {
      var e, c, h := old(ino.entry), old(cache.Contents()), ino.entry;
      && ino.valid && |e.addrs| == |h.addrs| == INODE_NUM_DIRECT && h.size == e.size
      && Extends(g, ino.no, e, c, h, z) && SameBytes(e, c, h, z) && OtherSlots(e, c, h, z, k) && Slot(h, z, k) == b != 0
      && cache.Contents() == PatchSlot(h, z, k, o, piece)
    }

    /** One turn of the write loop, seen from the start of the write: `e` and `c` are the file and the
        disk before it, `data` is what was written so far. */
    method WriteStep(ctx: OpContext, ino: Inode, pos: nat, piece: seq<byte>, ghost e: Dinode, ghost c: seq<Block>,
                     ghost offset: nat, ghost data: seq<byte>, ghost foot: set<nat>, ghost t: Tally, ghost count: nat)
      returns (st: Status, ghost all: set<nat>, ghost u: Tally)
      requires MapReady(ino) && Sound(g, e, c) && |e.addrs| == |ino.entry.addrs| == INODE_NUM_DIRECT
      requires pos == offset + |data| && 0 < |piece| && |data| + |piece| <= count && offset + count <= INODE_MAX_BYTES
      requires pos % BLOCK_SIZE + |piece| <= BLOCK_SIZE && (data != [] ==> pos % BLOCK_SIZE == 0)
      requires Midway(g, ino.no, e, c, ino.entry, cache.Contents(), offset, data, foot, t)
      modifies cache`lru, cache`count, cache`hdr, cache`pins, ctx, ino`valid, ino`entry
      ensures Outcome(ctx, st, all) && |foot + all| <= WriteBill(e.size, offset, count)
      ensures st == NoSpace ==> Short(g, c, WriteNeed(e, c, offset, count))
      ensures st == Fine ==>
                && MapReady(ino) && |ino.entry.addrs| == INODE_NUM_DIRECT && ino.entry.size == old(ino.entry.size)
                && Midway(g, ino.no, e, c, ino.entry, cache.Contents(), offset, data + piece, foot + all, u)
    {
      hide Slot, Marked, Took, Geometry.Laid, Evolves, OnDisk, SameBytes, Charged, Exceeds, Extends, OtherSlots,
        Owns, Patch, Inodes.Ready, PatchSlot, MapBill, NoHoles, Midway, Short, Spent, LogsNew, WriteBill, WriteNeed,
          MapNeed;
      ghost var f, d, no := ino.entry, cache.Contents(), ino.no;
      var k, o := pos / BLOCK_SIZE, pos % BLOCK_SIZE;
      assert pos == k * BLOCK_SIZE + o;
      ghost var z, foot2, blk, ind, maps;
      st, z, all, foot2, blk, ind, maps := WriteBlock(ctx, ino, k, o, piece);
      u := TallyNext(t, k, blk, ind, maps);
      MidwayBound(g, no, e, c, f, d, offset, data, foot, t, k, o, |piece|, all, foot2, blk, ind, maps, count);
      if st == NoSpace { MidwayShort(g, no, e, c, f, d, offset, data, foot, t, k, o, |piece|, count); }
      if st == Fine {
        MidwayTurn(g, no, e, c, f, d, ino.entry, z, offset, data, k, o, piece, foot, t, foot2, blk, ind, maps);
        MidwayShape(g, no, e, c, ino.entry, cache.Contents(), offset, data + piece, foot + all, u);
      }
    }

    /** The head of `inode_write`: grow the file first if the write goes past its end. */
    method Grow(ctx: OpContext, ino: Inode, end: nat, ghost offset: nat) returns (ok: bool, ghost foot: set<nat>)
      requires MapReady(ino) && Sound(g, ino.entry, cache.Contents()) && offset <= end <= INODE_MAX_BYTES
      modifies cache`lru, cache`count, cache`hdr, cache`pins, ctx, ino`valid, ino`entry
      ensures Outcome(ctx, if ok then Fine else OverBudget, foot)
      ensures foot == if old(ino.entry.size) < end then {g.InodeBlock(ino.no)} else {}
      ensures ok ==>
                && MapReady(ino) && ino.entry == old(ino.entry).(size := if old(ino.entry.size) < end then end
                  else old(ino.entry.size))
                && |old(ino.entry).addrs| == INODE_NUM_DIRECT
                && Midway(g, ino.no, old(ino.entry), old(cache.Contents()), ino.entry, cache.Contents(), offset, [],
                  foot, Tally({}, {}, {}))
    {
      hide Slot, Marked, Geometry.Laid, OnDisk, Charged, Exceeds, Owns, Inodes.Ready, Written, NoHoles, Synced, Midway;
      ghost var e, c, no := ino.entry, cache.Contents(), ino.no;
      ReadyLaid({});
      OwnsShape(g, e, c);
      foot := {};
      if ino.entry.size < end {
        foot := {g.InodeBlock(no)};
        ResizeExtends(g, no, e, c, end, offset);
        ino.entry := ino.entry.(size := end);
        ok := Sync(ctx, ino, true);
        if ok {
          WrittenShape(g, no, e, c, ino.entry, cache.Contents(), offset, []);
          GrownMidway(g, no, e, c, end, offset);
        }
      } else {
        ChargedNothing(ctx.rm, cache.hdr.num, cache.pins);
        NothingWritten(g, no, e, c, offset);
        SpentNothing(g, c, c);
        MidwayStart(g, no, e, c, e, c, offset, {});
        return true, foot;
      }
    }

    /** `inode_write` within an operation: the file becomes the old bytes with `src` written over them
        at `offset`; refused (an assertion fails) exactly if the write starts past the end of the file
        or ends past the greatest file size. */
    method Write(ctx: OpContext, ino: Inode, src: seq<byte>, offset: nat)
        returns (st: Status, n: nat, ghost foot: set<nat>)
      requires MapReady(ino) && Sound(g, ino.entry, cache.Contents()) && ino.entry.kind != INODE_DEVICE
      requires offset < U64 && |src| < U64
      modifies cache`lru, cache`count, cache`hdr, cache`pins, ctx, ino`valid, ino`entry
      ensures st == Refused <==> offset > old(ino.entry.size) || offset + |src| > INODE_MAX_BYTES
      ensures st != Refused ==> Outcome(ctx, st, foot) && |foot| <= WriteBill(old(ino.entry.size), offset, |src|)
      ensures st == Fine ==> n == |src| && MapReady(ino) && Wrote(ino, src, offset, foot)
      ensures st == Fine ==> Holds(ino, src, offset)
      ensures |old(ino.entry).addrs| == INODE_NUM_DIRECT
      ensures st == NoSpace ==> Short(g, old(cache.Contents()), WriteNeed(old(ino.entry), old(cache.Contents()),
          offset, |src|))
      ensures st == Fine ==> !Short(g, old(cache.Contents()),
          WriteNeed(old(ino.entry), old(cache.Contents()), offset, |src|))
    {
      hide Slot, Marked, Geometry.Laid, OnDisk, Charged, Exceeds, Owns, Inodes.Ready, Midway, NoHoles, FileBytes,
        Overwrite,
        WriteBill, Extends, BlocksFor, Bcache.Valid, Short, WriteNeed, HasLogged, Filled, Spent;
      ghost var e, c, rm, num, pins := ino.entry, cache.Contents(), ctx.rm, cache.hdr.num, cache.pins;
      OwnsShape(g, e, c);
      var count := |src|;
      var end := (offset + count) % U64;
      n, foot := 0, {};
      if !(offset <= ino.entry.size) || !(end <= INODE_MAX_BYTES) || !(offset <= end) { return Refused, n, foot; }
      var ok;
      ok, foot := Grow(ctx, ino, end, offset);
      BillStart(g.InodeBlock(ino.no), e.size, offset, count, foot);
      if !ok { return OverBudget, n, foot; }
      ghost var t := Tally({}, {}, {});
      var i := 0;
      assert src[..0] == [];
      while i < count
        invariant 0 <= i <= count && MapReady(ino) && |ino.entry.addrs| == INODE_NUM_DIRECT
            && (0 < i < count ==> (offset + i) % BLOCK_SIZE == 0)
        invariant Midway(g, ino.no, e, c, ino.entry, cache.Contents(), offset, src[..i], foot, t)
        invariant ino.entry.size == (if e.size < end then end else e.size) && |foot| <= WriteBill(e.size, offset, count)
        invariant Charged(rm, num, pins, foot, ctx.rm, cache.hdr.num, cache.pins)
      {
        ghost var rm1, num1, pins1 := ctx.rm, cache.hdr.num, cache.pins;
        var pos := offset + i;
        var cnt := if i == 0 then Min(BLOCK_SIZE - pos % BLOCK_SIZE, count) else Min(BLOCK_SIZE, count - i);
        PieceEnds(pos, cnt, count - i);
        ghost var all;
        st, all, t := WriteStep(ctx, ino, pos, src[i..i + cnt], e, c, offset, src[..i], foot, t, count);
        assert src[..i] + src[i..i + cnt] == src[..i + cnt];
        if st == OverBudget { ExceedsThen(rm, num, pins, foot, rm1, num1, pins1, all); }
        if st == Fine { ChargedThen(rm, num, pins, foot, rm1, num1, pins1, all, ctx.rm, cache.hdr.num, cache.pins); }
        foot := foot + all;
        if st != Fine { return; }
        i := i + cnt;
      }
      assert src[..count] == src;
      MidwayEnd(g, ino.no, e, c, ino.entry, cache.Contents(), offset, src, foot, t);
      OverwriteAt(FileBytes(e, c), offset, src);
      return Fine, count, foot;
    }

    /** Byte by byte: what was written, and what was there before. */
    twostate predicate Holds(ino: Inode, src: seq<byte>, offset: nat)
      reads this, cache, ino
    {
      var e, c, f, d := old(ino.entry), old(cache.Contents()), ino.entry, cache.Contents();
      && |e.addrs| == |f.addrs| == INODE_NUM_DIRECT && e.size <= INODE_MAX_BYTES && f.size <= INODE_MAX_BYTES
      && f.size == (if e.size < offset + |src| then offset + |src| else e.size)
      && (forall i :: 0 <= i < |src| ==> FileBytes(f, d)[offset + i] == src[i])
      && (forall p :: 0 <= p < e.size && !(offset <= p < offset + |src|) ==> FileBytes(f, d)[p] == FileBytes(e, c)[p])
    }

    /** The file was overwritten, stays in order, and the rest of the disk kept its files; what was
        allocated and logged for it. */
    twostate predicate Wrote(ino: Inode, src: seq<byte>, offset: nat, new foot: set<nat>)
      reads this, cache, ino
    {
      var e, c, f, d := old(ino.entry), old(cache.Contents()), ino.entry, cache.Contents();
      && Sound(g, e, c) && Sound(g, f, d) && offset <= e.size
      && FileBytes(f, d) == Overwrite(FileBytes(e, c), offset, src)
      && Extends(g, ino.no, e, c, f, d) && HasLogged(g, ino.no, e, c, f, d, offset, |src|, foot)
      && Filled(e, c, f, d, offset, |src|) && offset + |src| <= INODE_MAX_BYTES
      && Spent(g, c, d, WriteNeed(e, c, offset, |src|)) && f.size == if e.size < offset + |src| then offset + |src|
        else e.size
    }

    /** `cache_free` from inside an operation. */
    method FreeBlock(ctx: OpContext, n: nat, ghost held: set<nat>, ghost c: seq<Block>, ghost freed: set<nat>)
      returns (ok: bool)
      requires Ready(held) && (forall b :: b in held ==> !g.Meta(b)) && g.Laid(c) && g.Data(c, n)
      requires Freed(g, c, cache.Contents(), freed) && n !in freed
      modifies cache`lru, cache`count, cache`hdr, cache`pins, ctx
      ensures ok ==>
                && Ready(held) && Freed(g, c, cache.Contents(), freed + {n}) && Paid(ctx, {MapNo(g.bitmapStart, n)})
      ensures !ok ==> Broke(ctx, {MapNo(g.bitmapStart, n)})
    {
      hide View, Views, Held, Coherent, GoodHeader, Pins, Marked, MapNo, Gave, Geometry.Laid;
      FreedOn(g, c, cache.Contents(), freed, n);
      FreedLaid(g, c, cache.Contents(), freed, n);
      OneBlock(MapNo(g.bitmapStart, n), cache.pins);
      assert g.Meta(MapNo(g.bitmapStart, n));
      var panics := cache.Free(ctx, n);
      return !panics;
    }

    /** One slot of `inode_clear`, the `i`-th to be looked at: its block is freed if there is one. */
    method ClearSlot(ctx: OpContext, n: nat, ghost held: set<nat>, ghost e: Dinode, ghost c: seq<Block>, ghost i: nat)
      returns (ok: bool, ghost foot: set<nat>)
      requires Ready(held) && (forall b :: b in held ==> !g.Meta(b)) && g.Laid(c) && Owns(g, e, c)
      requires |e.addrs| == INODE_NUM_DIRECT && i <= INDIRECT_SLOT && n == Slot(e, c, SlotAt(i))
      requires Freed(g, c, cache.Contents(), Part(e, c, i))
      modifies cache`lru, cache`count, cache`hdr, cache`pins, ctx
      ensures Result(ctx, if ok then Fine else OverBudget, foot, held)
      ensures MapsOf(g, Part(e, c, i)) + foot == MapsOf(g, Part(e, c, i + 1))
      ensures ok ==> Freed(g, c, cache.Contents(), Part(e, c, i + 1))
    {
      hide Slot, Marked, Geometry.Laid, Charged, Exceeds, Owns, Inodes.Ready, Freed, Part, MapNo, MapsOf;
      PartNext(e, c, i);
      if n == 0 {
        ChargedNothing(ctx.rm, cache.hdr.num, cache.pins);
        assert Part(e, c, i) + {} == Part(e, c, i);
        return true, {};
      }
      PartNew(g, e, c, i);
      MapsOfNext(g, Part(e, c, i), n);
      foot := {MapNo(g.bitmapStart, n)};
      ok := FreeBlock(ctx, n, held, c, Part(e, c, i));
    }

    /** The first `i` slots have been freed, at the price of their bitmap blocks. */
    ghost predicate Freeing(ctx: OpContext, held: set<nat>, e: Dinode, c: seq<Block>, i: nat, rm: nat, num: nat,
        pins: set<nat>)
      requires |e.addrs| == INODE_NUM_DIRECT && i <= INDIRECT_SLOT + 1
      reads this, cache, ctx
    {
      && Ready(held) && Freed(g, c, cache.Contents(), Part(e, c, i))
      && Charged(rm, num, pins, MapsOf(g, Part(e, c, i)), ctx.rm, cache.hdr.num, cache.pins)
    }

    /** `ClearSlot` in the middle of a call that started with `rm`, `num` and `pins`. */
    method ClearNext(ctx: OpContext, n: nat, ghost held: set<nat>, ghost e: Dinode, ghost c: seq<Block>, ghost i: nat,
                     ghost rm: nat, ghost num: nat, ghost pins: set<nat>) returns (ok: bool)
      requires (forall b :: b in held ==> !g.Meta(b)) && g.Laid(c) && Owns(g, e, c)
      requires |e.addrs| == INODE_NUM_DIRECT && i <= INDIRECT_SLOT && n == Slot(e, c, SlotAt(i))
      requires Freeing(ctx, held, e, c, i, rm, num, pins)
      modifies cache`lru, cache`count, cache`hdr, cache`pins, ctx
      ensures ok ==> Freeing(ctx, held, e, c, i + 1, rm, num, pins)
      ensures !ok ==> Exceeds(rm, num, pins, MapsOf(g, Owned(e, c)))
    {
      hide Slot, Marked, Geometry.Laid, Charged, Exceeds, Owns, Inodes.Ready, Freed, Part, MapsOf, Owned;
      ghost var before, rm1, num1, pins1 := MapsOf(g, Part(e, c, i)), ctx.rm, cache.hdr.num, cache.pins;
      ghost var foot;
      ok, foot := ClearSlot(ctx, n, held, e, c, i);
      if ok {
        ChargedThen(rm, num, pins, before, rm1, num1, pins1, foot, ctx.rm, cache.hdr.num, cache.pins);
      } else {
        ExceedsThen(rm, num, pins, before, rm1, num1, pins1, foot);
        PartOfAll(g, e, c, i + 1);
        ExceedsMore(rm, num, pins, before + foot, MapsOf(g, Owned(e, c)));
      }
    }

    /** The loop over the indirect words; the indirect block is held. */
    method ClearWords(ctx: OpContext, addrs: Block, ghost e: Dinode, ghost c: seq<Block>, ghost rm: nat, ghost num: nat,
                      ghost pins: set<nat>) returns (ok: bool)
      requires g.Laid(c) && Owns(g, e, c) && e.indirect != 0 && |e.addrs| == INODE_NUM_DIRECT && e.indirect < |c|
      requires addrs == c[e.indirect] && Freeing(ctx, {e.indirect}, e, c, 0, rm, num, pins)
      modifies cache`lru, cache`count, cache`hdr, cache`pins, ctx
      ensures ok ==> Freeing(ctx, {e.indirect}, e, c, INODE_NUM_INDIRECT, rm, num, pins)
      ensures !ok ==> Exceeds(rm, num, pins, MapsOf(g, Owned(e, c)))
    {
      hide Slot, Marked, Geometry.Laid, Charged, Exceeds, Owns, Inodes.Ready, Freed, Part, MapsOf, Owned, Word,
        Inodes.Freeing;
      var i := 0;
      while i < INODE_NUM_INDIRECT
        invariant 0 <= i <= INODE_NUM_INDIRECT && Freeing(ctx, {e.indirect}, e, c, i, rm, num, pins)
      {
        IndirectBlock(g, e, c, i);
        ok := ClearNext(ctx, Word(addrs, i), {e.indirect}, e, c, i, rm, num, pins);
        if !ok { return false; }
        i := i + 1;
      }
      return true;
    }

    /** `inode_clear`, first part: the indirect block and the blocks it lists. */
    method ClearIndirect(ctx: OpContext, ino: Inode) returns (ok: bool)
      requires MapReady(ino)
      modifies cache`lru, cache`count, cache`hdr, cache`pins, ctx, ino`entry
      ensures |old(ino.entry).addrs| == INODE_NUM_DIRECT
      ensures ok ==>
                && ino.entry == old(ino.entry).(indirect := 0)
                && Freeing(ctx, {}, old(ino.entry), old(cache.Contents()), INODE_NUM_INDIRECT + 1, old(ctx.rm),
                  old(cache.hdr.num), old(cache.pins))
      ensures !ok ==> Exceeds(old(ctx.rm), old(cache.hdr.num), old(cache.pins),
          MapsOf(g, Owned(old(ino.entry), old(cache.Contents()))))
    {
      hide Slot, Marked, Geometry.Laid, Charged, Exceeds, Owns, Inodes.Ready, Freed, Part, MapsOf, Owned, Word,
        Geometry.Data;
      ghost var e, c, rm, num, pins := ino.entry, cache.Contents(), ctx.rm, cache.hdr.num, cache.pins;
      ReadyLaid({});
      OwnsShape(g, e, c);
      FreedStart(g, c);
      PartEmpty(g, e, c);
      ChargedNothing(rm, num, pins);
      var ind := ino.entry.indirect;
      if ind != 0 {
        IndirectBlock(g, e, c, 0);
        var addrs := Hold(ind);
        ok := ClearWords(ctx, addrs, e, c, rm, num, pins);
        if !ok { return false; }
        FreedSlots(g, e, c, cache.Contents(), Part(e, c, INODE_NUM_INDIRECT));
        ChargedGrows(rm, num, pins, MapsOf(g, Part(e, c, INODE_NUM_INDIRECT)), ctx.rm, cache.hdr.num, cache.pins);
        LetGo(ind);
        ok := ClearNext(ctx, ind, {}, e, c, INODE_NUM_INDIRECT, rm, num, pins);
        if !ok { return false; }
        ino.entry := ino.entry.(indirect := 0);
      }
      return true;
    }

    /** `inode_clear`, second part: the direct blocks. */
    method ClearDirect(ctx: OpContext, ino: Inode, ghost e: Dinode, ghost c: seq<Block>, ghost rm: nat, ghost num: nat,
                       ghost pins: set<nat>) returns (ok: bool)
      requires g.Laid(c) && Owns(g, e, c) && |e.addrs| == INODE_NUM_DIRECT && ino.entry == e.(indirect := 0)
      requires Freeing(ctx, {}, e, c, INODE_NUM_INDIRECT + 1, rm, num, pins)
      modifies cache`lru, cache`count, cache`hdr, cache`pins, ctx, ino`entry
      ensures ok ==> Freeing(ctx, {}, e, c, INDIRECT_SLOT + 1, rm, num, pins)
      ensures ok ==> ino.entry == e.(indirect := 0, addrs := seq(INODE_NUM_DIRECT, _ => 0))
      ensures !ok ==> Exceeds(rm, num, pins, MapsOf(g, Owned(e, c)))
    {
      hide Slot, Marked, Geometry.Laid, Charged, Exceeds, Owns, Inodes.Ready, Freed, Part, MapsOf, Owned,
        Inodes.Freeing;
      var i := 0;
      while i < INODE_NUM_DIRECT
        invariant 0 <= i <= INODE_NUM_DIRECT && |ino.entry.addrs| == INODE_NUM_DIRECT
        invariant Freeing(ctx, {}, e, c, INODE_NUM_INDIRECT + 1 + i, rm, num, pins)
        invariant ino.entry == e.(indirect := 0, addrs := ino.entry.addrs)
        invariant forall j :: 0 <= j < i ==> ino.entry.addrs[j] == 0
        invariant forall j :: i <= j < INODE_NUM_DIRECT ==> ino.entry.addrs[j] == e.addrs[j]
      {
        DirectSlot(e, c, i);
        ok := ClearNext(ctx, ino.entry.addrs[i], {}, e, c, INODE_NUM_INDIRECT + 1 + i, rm, num, pins);
        if !ok { return false; }
        ino.entry := ino.entry.(addrs := ino.entry.addrs[i := 0]);
        i := i + 1;
      }
      assert ino.entry.addrs == seq(INODE_NUM_DIRECT, _ => 0);
      return true;
    }

    /** What `inode_clear` logs: the bitmap blocks of all blocks of the file, and the inode block. */
    ghost function ClearFoot(no: nat, e: Dinode, c: seq<Block>): set<nat>
      requires |e.addrs| == INODE_NUM_DIRECT
    {
      MapsOf(g, Owned(e, c)) + {g.InodeBlock(no)}
    }

    /** `inode_clear`: it panics exactly if the operation cannot log what clearing takes. */
    method Clear(ctx: OpContext, ino: Inode) returns (ok: bool)
      requires MapReady(ino)
      modifies cache`lru, cache`count, cache`hdr, cache`pins, ctx, ino`entry, ino`valid
      ensures |old(ino.entry).addrs| == INODE_NUM_DIRECT && (ok ==> |ino.entry.addrs| == INODE_NUM_DIRECT)
      ensures !ok <==> Broke(ctx, old(ClearFoot(ino.no, ino.entry, cache.Contents())))
      ensures ok ==> Paid(ctx, old(ClearFoot(ino.no, ino.entry, cache.Contents())))
      ensures ok ==> MapReady(ino) && Cleared(g, ino.no, old(ino.entry), old(cache.Contents()), ino.entry,
          cache.Contents())
      ensures ok ==> Erased(g, ino.no, old(ino.entry.kind), old(ino.entry), old(cache.Contents()), ino.entry,
          cache.Contents())
    {
      hide Slot, Marked, Geometry.Laid, Owns, Inodes.Ready, Freed, Part, MapsOf, Owned, Cleared, Synced, Erased;
      ghost var e, c, no, rm, num, pins := ino.entry, cache.Contents(), ino.no, ctx.rm, cache.hdr.num, cache.pins;
      OwnsShape(g, e, c);
      ghost var maps, ib := MapsOf(g, Owned(e, c)), g.InodeBlock(no);
      ReadyLaid({});
      PartAll(e, c);
      ok := ClearIndirect(ctx, ino);
      if ok { ok := ClearDirect(ctx, ino, e, c, rm, num, pins); }
      if !ok {
        ExceedsMore(rm, num, pins, maps, maps + {ib});
        return false;
      }
      ghost var rm1, num1, pins1 := ctx.rm, cache.hdr.num, cache.pins;
      ino.entry := ino.entry.(size := 0);
      ClearedSynced(g, no, e, c, ino.entry, cache.Contents());
      ok := Sync(ctx, ino, true);
      if !ok {
        ExceedsThen(rm, num, pins, maps, rm1, num1, pins1, {ib});
        return false;
      }
      ChargedThen(rm, num, pins, maps, rm1, num1, pins1, {ib}, ctx.rm, cache.hdr.num, cache.pins);
      ReadyNum({});
      ClearedOwns(g, no, e, c, ino.entry, cache.Contents());
      ErasedAs(g, no, e.kind, e, c, ino.entry, cache.Contents());
    }

    /** `inode_put`: the last reference to an inode without links clears it and marks it as free. */
    method Put(ctx: OpContext, ino: Inode) returns (ok: bool)
      requires MapReady(ino) && ino.rc > 0
      modifies cache`lru, cache`count, cache`hdr, cache`pins, ctx, ino`entry, ino`valid, ino`rc
      ensures |old(ino.entry).addrs| == INODE_NUM_DIRECT && ino.rc == old(ino.rc) - 1
      ensures ino.rc == 0 && old(ino.entry.links) == 0 ==>
                && (!ok <==> Broke(ctx, old(ClearFoot(ino.no, ino.entry, cache.Contents()))))
                && (ok ==> MapReady(ino) && ino.entry.kind == INODE_INVALID && |ino.entry.addrs| == INODE_NUM_DIRECT &&
                           Cleared(g, ino.no, old(ino.entry).(kind := INODE_INVALID), old(cache.Contents()),
                             ino.entry, cache.Contents())
                           && Erased(g, ino.no, INODE_INVALID, old(ino.entry), old(cache.Contents()), ino.entry,
                                     cache.Contents()))
      ensures !(ino.rc == 0 && old(ino.entry.links) == 0) ==>
                ok && ino.entry == old(ino.entry) && cache.Contents() == old(cache.Contents()) && Ready({})
                  && Paid(ctx, {})
    {
      hide Slot, Marked, Geometry.Laid, Owns, Inodes.Ready, MapsOf, Cleared, Synced, Erased;
      ghost var e, c, no := ino.entry, cache.Contents(), ino.no;
      OwnsShape(g, e, c);
      ReadyLaid({});
      ino.rc := ino.rc - 1;
      if ino.rc == 0 && ino.entry.links == 0 {
        KindOwns(g, e, c, INODE_INVALID);
        ino.entry := ino.entry.(kind := INODE_INVALID);
        ok := Clear(ctx, ino);
        if !ok { return false; }
        ReadyNum({});
        ghost var f, d := ino.entry, cache.Contents();
        ClearedAgain(g, no, e.(kind := INODE_INVALID), c, f, d);
        OneBlock(g.InodeBlock(no), cache.pins);
        ok := Sync(ctx, ino, true);
        assert ok;
        ClearedOwns(g, no, e.(kind := INODE_INVALID), c, f, cache.Contents());
        ErasedAs(g, no, INODE_INVALID, e, c, f, cache.Contents());
        return ok;
      }
      ChargedNothing(ctx.rm, cache.hdr.num, cache.pins);
      return true;
    }

    lemma KindOwns(g: Geometry, e: Dinode, c: seq<Block>, kind: nat)
      requires Owns(g, e, c) && kind < 4
      ensures var f := e.(kind := kind); Owns(g, f, c) && |e.addrs| == INODE_NUM_DIRECT && Owned(f, c) == Owned(e, c)
    {
      var f := e.(kind := kind);
      assert Pow256(1) == 256;
      forall k | 0 <= k <= INDIRECT_SLOT ensures Slot(f, c, k) == Slot(e, c, k) {}
      hide Slot;
    }

    /** `inode_alloc`: the first free inode from 1 on is given the type, everything else in it is 0. */
    method AllocInode(ctx: OpContext, kind: nat) returns (st: Status, no: nat)
      requires Ready({}) && INODE_INVALID < kind < 0x1_0000
      modifies cache`lru, cache`count, cache`hdr, cache`pins, ctx
      ensures st == NoSpace <==> InUseUpTo(g, old(cache.Contents()), g.numInodes)
      ensures st == NoSpace || st == Fine || st == OverBudget
      ensures st != NoSpace ==>
                && 1 <= no < g.numInodes && OnDisk(g, old(cache.Contents()), no).kind == INODE_INVALID
                && InUseUpTo(g, old(cache.Contents()), no)
      ensures st == Fine ==>
                Ready({}) && cache.Contents() == Synced(g, no, NewInode(kind), old(cache.Contents()))
                  && Paid(ctx, {g.InodeBlock(no)})
      ensures st == Fine ==>
                var e, c, d := OnDisk(g, cache.Contents(), no), old(cache.Contents()), cache.Contents();
                && e.kind == kind && e.major == e.minor == e.links == e.size == e.indirect == 0
                && |e.addrs| == INODE_NUM_DIRECT && (forall i :: 0 <= i < INODE_NUM_DIRECT ==> e.addrs[i] == 0)
                && (forall m: nat :: m != no ==> OnDisk(g, d, m) == OnDisk(g, c, m))
                && forall b: nat :: b < |c| && b != g.InodeBlock(no) ==> d[b] == c[b]
      ensures st == OverBudget ==> Broke(ctx, {g.InodeBlock(no)})
    {
      hide Marked, Geometry.Laid, Inodes.Ready, EntryAt, PutEntry, Charged, Exceeds;
      ghost var c := cache.Contents();
      ReadyLaid({});
      no := 1;
      while no < g.numInodes
        invariant Ready({}) && cache.Contents() == c && 1 <= no && (no <= g.numInodes || no == 1) && InUseUpTo(g, c, no)
        invariant ctx.rm == old(ctx.rm) && cache.hdr == old(cache.hdr) && cache.pins == old(cache.pins)
        decreases g.numInodes - no
      {
        MetaBlock(g, c, no);
        var b := g.InodeBlock(no);
        var block := Hold(b);
        var entry := EntryAt(block, no);
        assert entry == OnDisk(g, c, no);
        if entry.kind == INODE_INVALID {
          MarksSame(g, c, b, PutEntry(block, no, NewInode(kind)));
          var ok := StoreHeld(ctx, b, PutEntry(block, no, NewInode(kind)));
          if !ok { return OverBudget, no; }
          LetGo(b);
          NewSound(g, kind, c);
          NewOnDisk(g, no, kind, c);
          return Fine, no;
        }
        LetGo(b);
        no := no + 1;
      }
      return NoSpace, no;
    }

    lemma NewOnDisk(g: Geometry, no: nat, kind: nat, c: seq<Block>)
      requires kind < 0x1_0000 && g.InodeBlock(no) < |c| && Sound(g, NewInode(kind), c)
      ensures var d := Synced(g, no, NewInode(kind), c);
              var e := OnDisk(g, d, no);
              && e.kind == kind && e.major == e.minor == e.links == e.size == e.indirect == 0
              && |e.addrs| == INODE_NUM_DIRECT && (forall i :: 0 <= i < INODE_NUM_DIRECT ==> e.addrs[i] == 0)
              && (forall m: nat :: m != no ==> OnDisk(g, d, m) == OnDisk(g, c, m))
              && forall b: nat :: b < |c| && b != g.InodeBlock(no) ==> d[b] == c[b]
    {
      hide OnDisk, Synced, Slot;
      SyncedDisk(g, no, NewInode(kind), c);
    }

    lemma ReadyNum(held: set<nat>)
      requires Ready(held)
      ensures cache.hdr.num <= LOG_MAX_SIZE
    {
    }

    /** The file is loaded and in order. */
    ghost predicate MapReady(ino: Inode)
      reads this, cache, ino
    {
      Ready({}) && ino.valid && ino.no < g.numInodes && Owns(g, ino.entry, cache.Contents())
    }

    /** How a call ended, and what it logged. */
    twostate predicate Outcome(ctx: OpContext, new st: Status, new foot: set<nat>)
      reads this, cache, ctx
    {
      Result(ctx, st, foot, {})
    }

    twostate predicate Result(ctx: OpContext, new st: Status, new foot: set<nat>, new held: set<nat>)
      reads this, cache, ctx
    {
      && st != Refused
      && (st == Fine ==> Ready(held) && Paid(ctx, foot))
      && (st == OverBudget ==> Broke(ctx, foot))
      && (st == NoSpace ==> Full(g, cache.Contents()))
    }

    /** The call needed `need` free blocks: if it got through it took as many and logged what goes with
        them, if it ran out of space there were fewer. */
    twostate predicate Priced(ino: Inode, new st: Status, new need: nat, new foot: set<nat>)
      reads this, cache, ino
    {
      var e, c, f, d := old(ino.entry), old(cache.Contents()), ino.entry, cache.Contents();
      && (st == NoSpace ==> Short(g, c, need))
      && (st == Fine ==>
          |e.addrs| == |f.addrs| == INODE_NUM_DIRECT && Spent(g, c, d, need) && LogsNew(g, e, c, f, d, foot))
    }

    /** Slot `k` has a block now, no other slot and no byte changed. */
    twostate predicate Mapped(ino: Inode, new k: nat)
      reads this, cache, ino
    {
      var e, c, f, d := old(ino.entry), old(cache.Contents()), ino.entry, cache.Contents();
      && ino.valid && |e.addrs| == |f.addrs| == INODE_NUM_DIRECT && f.size == e.size
      && Extends(g, ino.no, e, c, f, d) && SameBytes(e, c, f, d) && OtherSlots(e, c, f, d, k)
    }

    lemma LaidHere(c: seq<Block>)
      requires g.Laid(c) && cache.start == g.logStart && cache.bitmapStart == g.bitmapStart
          && cache.numBlocks == g.numBlocks
      ensures LaidOut(c, cache.start, cache.bitmapStart, cache.numBlocks)
    {
      hide Marked;
      forall n | 0 <= n < g.numBlocks && MapNo(g.bitmapStart, n) < g.numBlocks
        ensures Marked(c, g.bitmapStart, MapNo(g.bitmapStart, n))
      {
        assert g.Meta(MapNo(g.bitmapStart, n));
      }
      forall m | 0 <= m < g.numBlocks && InLog(g.logStart, m) ensures Marked(c, g.bitmapStart, m) {
        assert g.Meta(m);
      }
    }

    lemma IdleHere(c: seq<Block>, held: set<nat>)
      requires Ready(held) && c == cache.Contents() && forall b :: b in held ==> g.Data(c, b)
      ensures cache.BitmapIdle()
    {
      hide Marked, Held;
      forall n | 0 <= n < g.numBlocks ensures !Held(cache.lru, cache.MapBlock(n)) {
        assert g.Meta(MapNo(g.bitmapStart, n));
      }
    }
  }

  /** Inodes 1 up to `n` are allocated. */
  ghost predicate InUseUpTo(g: Geometry, c: seq<Block>, n: nat) {
    forall m :: 1 <= m < n ==> OnDisk(g, c, m).kind != INODE_INVALID
  }

  lemma FreeIsNotMap(g: Geometry, c: seq<Block>, n: nat)
    requires g.Laid(c) && n < g.numBlocks && !Marked(c, g.bitmapStart, n)
    ensures MapNo(g.bitmapStart, n) != n
  {
    assert g.Meta(MapNo(g.bitmapStart, n));
  }

  lemma TookLaid(g: Geometry, c: seq<Block>, n: nat)
    requires g.Laid(c) && n < g.numBlocks && !Marked(c, g.bitmapStart, n)
    ensures g.Laid(Took(c, g.bitmapStart, n))
  {
    var none := Dinode(0, 0, 0, 0, 0, seq(INODE_NUM_DIRECT, _ => 0), 0);
    AllocStep(g, 0, none, c, n);
  }
}
