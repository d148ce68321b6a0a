/** The operations of `fs/cache.c` on the device, the LRU list and the in-memory log header. */
module CacheOps {
  import opened Bytes
  import opened Wal
  import opened BlockCache
  import opened Bitmap

  class OpContext {
    var rm: nat

    constructor ()
    {
      rm := 0;
    }
  }

  /** What `cache_alloc` does: it returns a block, or one of its two panics. */
  datatype Allocated = Got(no: nat) | DiskFull | Stopped

  /** The number of new log entries that logging `b` takes. */
  function Cost(b: nat, pins: set<nat>): nat { if b in pins then 0 else 1 }

  /** The header with one more block on its list. */
  function Listing(h: Header, b: nat): Header {
    if h.num < |h.nos| then Header(h.num + 1, h.nos[h.num := b]) else h
  }

  /** The blocks a header lists. */
  function Pins(h: Header): set<nat> { set i | 0 <= i < h.num && i < |h.nos| :: h.nos[i] }

  class Bcache {
    const start: nat
    const bitmapStart: nat
    const numBlocks: nat
    var dev: Disk
    var lru: seq<Entry>
    var count: nat
    var hdr: Header
    var outstanding: nat
    var committing: bool
    ghost var pins: set<nat>
    ghost var writes: seq<Write>

    /** The cache agrees with the device; the log header block is never cached. */
    ghost predicate Tidy()
      reads `dev, `lru, `count, `hdr, `pins
    {
      && start + LOG_MAX_SIZE < |dev| <= Pow256(8) && Coherent(dev, lru, pins) && count == |lru| && !Cached(lru, start)
      && GoodHeader(start, |dev|, hdr)
    }

    /** Tidy, and exactly the blocks in the header are pinned. */
    ghost predicate Valid()
      reads `dev, `lru, `count, `hdr, `pins
    {
      Tidy() && pins == Pins(hdr)
    }

    /** The latest contents of every block. */
    ghost function Contents(): (c: seq<Block>)
      reads `dev, `lru
      ensures |c| == |dev|
    {
      Views(dev, lru)
    }

    /** `init_bcache`: an empty list, then recovery. */
    constructor (start: nat, bitmapStart: nat, numBlocks: nat, disk: Disk)
      requires GoodDisk(start, disk) && |disk| <= Pow256(8)
      ensures this.start == start && this.bitmapStart == bitmapStart && this.numBlocks == numBlocks
      ensures Valid() && pins == {} && outstanding == 0 && !committing && Contents() == dev && forall b :: !Held(lru, b)
      ensures dev == Recovered(start, disk) && writes == RecoveryWrites(start, disk)
      ensures hdr == ReadHeader(disk[start]).Cleared()
    {
      hide View, Views, Coherent, Recovered, RecoveryWrites, Apply, ReadHeader;
      this.start, this.bitmapStart, this.numBlocks := start, bitmapStart, numBlocks;
      dev, lru, count, pins, writes := disk, [], 0, {}, [];
      hdr, outstanding, committing := Header(0, []), 0, false;
      new;
      InitLog();
    }

    /** `cache_acquire` */
    method Acquire(b: nat)
      requires Tidy() && b < |dev| && b != start && !Held(lru, b)
      modifies `lru, `count
      ensures Tidy() && lru == Acquired(dev, old(lru), b) && Contents() == old(Contents())
      ensures lru != [] && lru[0] == Entry(b, true, b in pins, Contents()[b])
      ensures forall c :: Held(lru, c) <==> Held(old(lru), c) || c == b
      ensures Cached(old(lru), b) ==> |lru| == |old(lru)| && forall c: nat :: Cached(lru, c) <==> Cached(old(lru), c)
      ensures !Cached(old(lru), b) && |old(lru)| < EVICTION_THRESHOLD ==>
                |lru| == |old(lru)| + 1 && forall c: nat :: Cached(lru, c) <==> Cached(old(lru), c) || c == b
    {
      hide View, Views, Held, Coherent, MakeRoom, GoodHeader, LOG_MAX_SIZE, Pow256;
      AcquireKeeps(dev, lru, pins, b);
      OneEach(dev, lru, pins);
      ghost var gone := AcquiredBlocks(dev, lru, b);
      ghost var l := lru;
      var i := 0;
      while i < |lru| && lru[i].no != b
        invariant i <= |lru| && forall j :: 0 <= j < i ==> lru[j].no != b
      {
        i := i + 1;
      }
      if i < |lru| {
        assert Place(l, b) == i;
        var e := lru[i].(acquired := true);
        lru := [e] + (lru[..i] + lru[i + 1..]);
      } else {
        MakeSpace();
        count := count + 1;
        lru := [Entry(b, true, false, dev[b])] + lru;
      }
      assert Contents() == old(Contents());
    }

    /** Lines 175-190: if the cache is full, the last block in the list that is neither acquired nor pinned
        is dropped. */
    method MakeSpace()
      requires count == |lru|
      modifies `lru, `count
      ensures lru == MakeRoom(old(lru)) && count == |lru|
    {
      ghost var l := lru;
      if count >= EVICTION_THRESHOLD {
        var v := |lru|;
        var found := false;
        while v > 0 && !found
          invariant 0 <= v <= |lru| && lru == l && (found ==> v < |lru| && Evictable(l[v]))
          invariant forall j :: (if found then v + 1 else v) <= j < |l| ==> !Evictable(l[j])
          decreases v, !found
        {
          if Evictable(lru[v - 1]) { found := true; }
          v := v - 1;
        }
        if found { DropLastIs(l, v); } else { DropLastNone(l); }
        if found {
          lru := lru[..v] + lru[v + 1..];
          count := count - 1;
        }
      }
    }

    /** `cache_release`: the caller has synced the block, or it is logged. */
    method Release(b: nat)
      requires Tidy() && Held(lru, b) && b < |dev| && (b !in pins ==> Contents()[b] == dev[b])
      modifies `lru
      ensures Tidy() && Contents() == old(Contents()) && SameNumbers(old(lru), lru)
      ensures forall c :: Held(lru, c) <==> Held(old(lru), c) && c != b
    {
      hide View, Views;
      var i := HeldPlace(b);
      ViewAt(dev, lru, i);
      ChangeKeeps(dev, lru, pins, i, lru[i].(acquired := false), dev, if lru[i].pinned then pins + {b} else pins - {b});
      PinsSame(pins, b, lru[i].pinned);
      lru := lru[i := lru[i].(acquired := false)];
      assert Contents() == old(Contents());
    }

    /** The list position the caller's block pointer stands for. */
    method HeldPlace(b: nat) returns (i: nat)
      requires Held(lru, b)
      ensures i < |lru| && lru[i].no == b && i == Place(lru, b) && (OneCopyEach(lru) ==> lru[i].acquired)
    {
      i := Place(lru, b);
    }

    /** The caller writes the data of a block it holds. */
    method Fill(b: nat, data: Block)
      requires Tidy() && Held(lru, b) && b < |dev|
      modifies `lru
      ensures Tidy() && Contents() == old(Contents())[b := data] && SameNumbers(old(lru), lru)
      ensures forall c :: Held(lru, c) <==> Held(old(lru), c)
    {
      hide View, Views;
      var i := HeldPlace(b);
      ChangeKeeps(dev, lru, pins, i, lru[i].(data := data), dev, if lru[i].pinned then pins + {b} else pins - {b});
      PinsSame(pins, b, lru[i].pinned);
      lru := lru[i := lru[i].(data := data)];
      assert Contents() == old(Contents())[b := data];
    }

    /** `cache_sync(NULL, block)`: straight to the device. */
    method SyncDirect(b: nat)
      requires Tidy() && Held(lru, b) && b < |dev|
      modifies `dev, `writes
      ensures Tidy() && Contents() == old(Contents()) && dev == old(dev)[b := Contents()[b]]
      ensures writes == old(writes) + [Write(b, Contents()[b])]
    {
      hide View, Views;
      var i := HeldPlace(b);
      ViewAt(dev, lru, i);
      ChangeKeeps(dev, lru, pins, i, lru[i], dev[b := lru[i].data], if lru[i].pinned then pins + {b} else pins - {b});
      PinsSame(pins, b, lru[i].pinned);
      assert lru[i := lru[i]] == lru;
      writes := writes + [Write(b, lru[i].data)];
      dev := dev[b := lru[i].data];
      assert Contents() == old(Contents());
    }

    /** `write_header` goes to the device past the cache. */
    method WriteHeader()
      requires Tidy()
      modifies `dev, `writes
      ensures Tidy() && dev == old(dev)[start := HeaderBlock(hdr)]
          && writes == old(writes) + [Write(start, HeaderBlock(hdr))]
      ensures Contents() == old(Contents())[start := HeaderBlock(hdr)]
    {
      hide View, Views, HeaderBlock;
      HeaderKeeps(dev, lru, pins, start, HeaderBlock(hdr));
      writes := writes + [Write(start, HeaderBlock(hdr))];
      dev := dev[start := HeaderBlock(hdr)];
      assert Contents() == old(Contents())[start := HeaderBlock(hdr)];
    }

    /** `cache_sync` inside an operation; `panics` when the operation is over budget or the log is
        full.  A block that the log already lists costs nothing. */
    method SyncLogged(ctx: OpContext, b: nat) returns (panics: bool)
      requires Valid() && Held(lru, b) && b < |dev| && !InLog(start, b)
      modifies `lru, `hdr, `pins, ctx
      ensures panics <==> b !in old(pins) && (old(ctx.rm) == 0 || old(hdr.num) == LOG_MAX_SIZE)
      ensures hdr.num <= LOG_MAX_SIZE && SameNumbers(old(lru), lru)
      ensures !panics ==> Valid() && pins == old(pins) + {b} && Contents() == old(Contents())
      ensures !panics ==> ctx.rm == old(ctx.rm) - (if b in old(pins) then 0 else 1)
      ensures !panics ==> hdr.num == old(hdr.num) + (if b in old(pins) then 0 else 1)
      ensures !panics ==> hdr == if b in old(pins) then old(hdr) else Listing(old(hdr), b)
      ensures !panics && b !in old(pins) ==>
          hdr.nos == old(hdr).nos[old(hdr).num := b] && hdr.num == old(hdr).num + 1 && ctx.rm + 1 == old(ctx.rm)
      ensures forall c :: Held(lru, c) <==> Held(old(lru), c)
    {
      hide View, Views;
      var i := HeldPlace(b);
      ViewAt(dev, lru, i);
      ChangeKeeps(dev, lru, pins, i, lru[i].(pinned := true), dev, pins + {b});
      lru := lru[i := lru[i].(pinned := true)];
      pins := pins + {b};
      assert Contents() == old(Contents());
      var k := 0;
      while k < hdr.num
        invariant k <= hdr.num && forall j :: 0 <= j < k ==> hdr.nos[j] != b
      {
        if hdr.nos[k] == b {
          assert b in Pins(hdr);
          return false;
        }
        k := k + 1;
      }
      assert b !in old(pins);
      if ctx.rm <= 0 { return true; }
      if hdr.num >= LOG_MAX_SIZE { return true; }
      ListOneMore(start, |dev|, hdr, b);
      hdr := Header(hdr.num + 1, hdr.nos[hdr.num := b]);
      ctx.rm := ctx.rm - 1;
      return false;
    }

    /** `block->pinned = false` */
    method Unpin(b: nat)
      requires Tidy() && Held(lru, b) && b < |dev|
      modifies `lru, `pins
      ensures Tidy() && Contents() == old(Contents()) && pins == old(pins) - {b} && SameNumbers(old(lru), lru)
      ensures forall c :: Held(lru, c) <==> Held(old(lru), c)
    {
      hide View, Views;
      var i := HeldPlace(b);
      ViewAt(dev, lru, i);
      ChangeKeeps(dev, lru, pins, i, lru[i].(pinned := false), dev, pins - {b});
      lru := lru[i := lru[i].(pinned := false)];
      pins := pins - {b};
      assert Contents() == old(Contents());
    }

    /** One attempt of `cache_begin_op` under the log lock; the caller waits and tries again when
        it is not admitted. */
    method TryBeginOp(ctx: OpContext) returns (admitted: bool)
      requires Valid()
      modifies `outstanding, ctx
      ensures admitted <==> !committing && hdr.num + (old(outstanding) + 1) * OP_MAX_NUM_BLOCKS <= LOG_MAX_SIZE
      ensures ctx.rm == OP_MAX_NUM_BLOCKS && outstanding == old(outstanding) + (if admitted then 1 else 0)
      ensures Valid() && Contents() == old(Contents())
    {
      ctx.rm := OP_MAX_NUM_BLOCKS;
      if committing || hdr.num + (outstanding + 1) * OP_MAX_NUM_BLOCKS > LOG_MAX_SIZE {
        return false;
      }
      outstanding := outstanding + 1;
      return true;
    }

    /** Nobody holds a block that a commit acquires. */
    ghost predicate Undisturbed()
      reads this
    {
      forall b :: InLog(start, b) || b in Pins(hdr) ==> !Held(lru, b)
    }

    /** Fill a held block and write it to the device. */
    method WriteThrough(b: nat, data: Block)
      requires Tidy() && Held(lru, b) && b < |dev|
      modifies `dev, `lru, `writes
      ensures Tidy() && (forall c :: Held(lru, c) <==> Held(old(lru), c))
      ensures dev == old(dev)[b := data] && writes == old(writes) + [Write(b, data)]
          && Contents() == old(Contents())[b := data]
    {
      hide View, Views, Coherent, Cached, Held, GoodHeader;
      Fill(b, data);
      SyncDirect(b);
    }

    /** Lines 351-354 and 236-239: hold a log slot and a home block. */
    method HoldTwo(slot: nat, home: nat) returns (slotData: Block, homeData: Block)
      requires Tidy() && slot < |dev| && home < |dev| && slot != home && start !in {slot, home}
      requires !Held(lru, slot) && !Held(lru, home)
      modifies `lru, `count
      ensures Tidy() && Contents() == old(Contents()) && slotData == Contents()[slot] && homeData == Contents()[home]
      ensures forall c :: Held(lru, c) <==> Held(old(lru), c) || c == slot || c == home
    {
      hide View, Views, Held, Bcache.Tidy, Acquired;
      TidyShape();
      Acquire(slot);
      slotData := lru[0].data;
      Acquire(home);
      homeData := lru[0].data;
    }

    /** Lines 351-358 and 236-244: hold a log slot and a home block, copy one to the other and write
        it to the device. */
    method CopyBlock(slot: nat, home: nat, toLog: bool)
      requires Tidy() && slot < |dev| && home < |dev| && slot != home && start !in {slot, home}
      requires !Held(lru, slot) && !Held(lru, home)
      modifies `dev, `lru, `count, `writes
      ensures Tidy() && (forall c :: Held(lru, c) <==> Held(old(lru), c))
      ensures var src, dst := if toLog then home else slot, if toLog then slot else home;
              var data := old(Contents())[src];
              && dev == old(dev)[dst := data] && writes == old(writes) + [Write(dst, data)]
              && Contents() == old(Contents())[dst := data]
    {
      hide View, Views, Coherent, Cached, Held, GoodHeader, Bcache.Tidy;
      TidyShape();
      if slot !in pins { UnheldView(dev, lru, pins, slot); }
      if home !in pins { UnheldView(dev, lru, pins, home); }
      var slotData, homeData := HoldTwo(slot, home);
      if toLog {
        WriteThrough(slot, homeData);
      } else {
        WriteThrough(home, slotData);
      }
      Release(slot);
      Release(home);
    }

    /** Lines 366-370 */
    method InstallBlock(b: nat)
      requires Tidy() && b < |dev| && b != start && !Held(lru, b)
      modifies `dev, `lru, `count, `writes, `pins
      ensures Tidy() && (forall c :: Held(lru, c) <==> Held(old(lru), c)) && pins == old(pins) - {b}
      ensures var data := old(Contents())[b];
              && dev == old(dev)[b := data] && writes == old(writes) + [Write(b, data)] && Contents() == old(Contents())
    {
      hide View, Views, Coherent, Cached, Held, GoodHeader;
      Acquire(b);
      SyncDirect(b);
      Unpin(b);
      Release(b);
    }

    lemma TidyShape()
      requires Tidy()
      ensures start + LOG_MAX_SIZE < |dev| <= Pow256(8) && |hdr.nos| == LOG_MAX_SIZE && hdr.num <= LOG_MAX_SIZE
      ensures GoodHeader(start, |dev|, hdr) && Coherent(dev, lru, pins)
    {
    }

    /** The `i`-th entry of the header: its log slot and its home. */
    lemma EntryAt(i: nat)
      requires Tidy() && i < hdr.num
      ensures i < |hdr.nos| && start + 1 + i < |dev| && InLog(start, start + 1 + i)
      ensures hdr.nos[i] < |dev| && !InLog(start, hdr.nos[i]) && hdr.nos[i] in Pins(hdr)
    {
      PinAt(hdr, i);
    }

    /** Lines 350-359: copy every listed block to its log slot. */
    method CopyToLog()
      requires Valid() && Undisturbed()
      modifies `dev, `lru, `count, `writes
      ensures Valid() && (forall c :: Held(lru, c) <==> Held(old(lru), c))
      ensures var ws := LogCopies(start, GroupOf(hdr, old(Contents())));
              writes == old(writes) + ws && dev == Apply(old(dev), ws)
      ensures forall b :: 0 <= b < |dev| && !InLog(start, b) ==> Contents()[b] == old(Contents())[b]
    {
      hide View, Views, Coherent, Cached, Held, Apply, LogCopies, Pins, Bcache.Tidy, GroupOf;
      ghost var g, d := GroupOf(hdr, Contents()), dev;
      ghost var ws := LogCopies(start, g);
      GroupOfAre(hdr, Contents());
      LogCopiesAre(start, g);
      ApplyNone(d, ws[..0]);
      var i := 1;
      while i <= hdr.num
        invariant 1 <= i <= hdr.num + 1 && Valid() && forall c :: Held(lru, c) <==> Held(old(lru), c)
        invariant writes == old(writes) + ws[..i - 1] && |dev| == |d| && dev == Apply(d, ws[..i - 1])
        invariant forall b :: 0 <= b < |dev| && !InLog(start, b) ==> Contents()[b] == old(Contents())[b]
      {
        EntryAt(i - 1);
        var slot, home := start + i, hdr.nos[i - 1];
        CopyBlock(slot, home, true);
        ApplyStep(d, ws, i - 1);
        assert ws[..i] == ws[..i - 1] + [ws[i - 1]];
        i := i + 1;
      }
      assert ws[..hdr.num] == ws;
    }

    /** Lines 365-371: write every listed block home and unpin it. */
    method InstallHomes()
      requires Valid() && Undisturbed()
      modifies `dev, `lru, `count, `writes, `pins
      ensures Tidy() && pins == {} && (forall c :: Held(lru, c) <==> Held(old(lru), c))
      ensures Contents() == old(Contents())
      ensures var g := GroupOf(hdr, old(Contents())); writes == old(writes) + g && dev == Apply(old(dev), g)
    {
      hide View, Views, Coherent, Cached, Held, Apply, Bcache.Tidy, GroupOf, Pins, PinsFrom;
      ghost var g, d := GroupOf(hdr, Contents()), dev;
      TidyShape();
      GroupOfAre(hdr, Contents());
      ApplyNone(d, g[..0]);
      PinsFromAll(hdr);
      var i := 0;
      while i < hdr.num
        invariant 0 <= i <= hdr.num && Tidy() && pins == PinsFrom(hdr, i)
            && forall c :: Held(lru, c) <==> Held(old(lru), c)
        invariant writes == old(writes) + g[..i] && |dev| == |d| && dev == Apply(d, g[..i])
        invariant Contents() == old(Contents())
      {
        EntryAt(i);
        var b := hdr.nos[i];
        PinsNext(hdr, i);
        InstallBlock(b);
        ApplyStep(d, g, i);
        assert g[..i + 1] == g[..i] + [g[i]];
        i := i + 1;
      }
      assert g[..hdr.num] == g;
      PinsFromNone(hdr);
    }

    /** Lines 373-375: empty the header, on the device too. */
    method ClearHeader()
      requires Tidy() && pins == {}
      modifies `dev, `writes, `hdr
      ensures Valid() && hdr == old(hdr).Cleared() && |dev| == |old(dev)|
      ensures dev == old(dev)[start := HeaderBlock(hdr)] && writes == old(writes) + [Write(start, HeaderBlock(hdr))]
      ensures Contents() == old(Contents())[start := HeaderBlock(hdr)]
    {
      hide View, Views, Coherent, Cached, HeaderBlock, Pins;
      ClearedPins(start, |dev|, hdr);
      hdr := Header(0, [0, 0, 0, 0, 0, 0, 0, ClearLow(hdr.nos[7], 7)] + hdr.nos[8..]);
      WriteHeader();
    }

    /** Lines 347-376 */
    method CommitGroup()
      requires Valid() && Undisturbed()
      modifies `dev, `lru, `count, `writes, `pins, `hdr, `committing
      ensures Valid() && pins == {} && hdr == old(hdr).Cleared() && !committing
      ensures forall b :: Held(lru, b) <==> Held(old(lru), b)
      ensures var ws := CommitWrites(start, old(hdr), GroupOf(old(hdr), old(Contents())));
              writes == old(writes) + ws && dev == Apply(old(dev), ws)
      ensures forall b :: 0 <= b < |dev| && !InLog(start, b) ==> Contents()[b] == old(Contents())[b]
    {
      hide View, Views, Coherent, Cached, Held, Apply, LogCopies, HeaderBlock, Pins, GoodHeader, GroupOf, CommitWrites,
        Bcache.Tidy;
      TidyShape();
      committing := true;
      ghost var h, c, d, w := hdr, Contents(), dev, writes;
      ghost var g := GroupOf(h, c);
      CopyToLog();
      SameGroupOf(start, h, c, Contents());
      ghost var d1 := dev;
      WriteHeader();
      SameGroupOf(start, h, c, Contents());
      ghost var d2 := dev;
      InstallHomes();
      ghost var d3 := dev;
      ClearHeader();
      committing := false;
      CommitSteps(start, h, g, d, d1, d2, d3, dev, w);
    }

    /** Lines 330-380 up to the waiting: an operation ends, and the last one commits the group. */
    method EndOp() returns (panics: bool)
      requires Valid() && outstanding > 0 && Undisturbed()
      modifies this
      ensures Valid() && outstanding == old(outstanding) - 1 && (panics <==> old(committing))
      ensures panics || outstanding > 0 ==>
                dev == old(dev) && lru == old(lru) && hdr == old(hdr) && committing == old(committing)
                  && writes == old(writes)
      ensures !panics && outstanding == 0 ==>
                && !committing && hdr == old(hdr).Cleared() && pins == {}
                && var ws := CommitWrites(start, old(hdr), GroupOf(old(hdr), old(Contents())));
                   writes == old(writes) + ws && dev == Apply(old(dev), ws)
      ensures forall b :: 0 <= b < |dev| && !InLog(start, b) ==> Contents()[b] == old(Contents())[b]
      ensures forall b :: Held(lru, b) <==> Held(old(lru), b)
    {
      hide View, Views, Coherent, Cached, Held, Apply, LogCopies, HeaderBlock, Pins, CommitWrites;
      outstanding := outstanding - 1;
      if committing { return true; }
      if outstanding > 0 { return false; }
      CommitGroup();
      return false;
    }

    /** Lines 235-245: write every listed log slot home. */
    method ReplayHomes()
      requires Tidy() && pins == {} && GoodDisk(start, dev) && hdr == ReadHeader(dev[start]) && forall b ::
          !Held(lru, b)
      modifies `dev, `lru, `count, `writes
      ensures Tidy() && forall b :: !Held(lru, b)
      ensures var g := Logged(start, old(dev)); dev == Apply(old(dev), g) && writes == old(writes) + g
    {
      hide View, Views, Coherent, Cached, Held, Apply, HeaderBlock, ReadHeader, Pins, Bcache.Tidy, GoodDisk, Logged;
      TidyShape();
      ghost var d, g := dev, Logged(start, dev);
      LoggedAre(start, d);
      ApplyNone(d, g[..0]);
      var i := 1;
      while i <= hdr.num
        invariant 1 <= i <= hdr.num + 1 && Tidy() && pins == {} && forall b :: !Held(lru, b)
        invariant writes == old(writes) + g[..i - 1] && |dev| == |d| && dev == Apply(d, g[..i - 1])
      {
        TidyShape();
        QuietViews(dev, lru);
        LoggedHere(start, d, i - 1);
        EntryAt(i - 1);
        var slot, home := start + i, hdr.nos[i - 1];
        CopyBlock(slot, home, false);
        ApplyStep(d, g, i - 1);
        assert g[..i] == g[..i - 1] + [g[i - 1]];
        i := i + 1;
      }
      assert g[..hdr.num] == g;
    }

    /** Lines 225-252, with the list just initialised: replay the log. */
    method InitLog()
      requires lru == [] && count == 0 && pins == {} && GoodDisk(start, dev) && |dev| <= Pow256(8)
      modifies this
      ensures Valid() && pins == {} && outstanding == 0 && !committing && Contents() == dev && forall b :: !Held(lru, b)
      ensures dev == Recovered(start, old(dev)) && writes == old(writes) + RecoveryWrites(start, old(dev))
      ensures hdr == ReadHeader(old(dev)[start]).Cleared()
    {
      hide View, Views, Coherent, Cached, Apply, HeaderBlock, ReadHeader, Pins;
      outstanding := 0;
      committing := false;
      hdr := ReadHeader(dev[start]);
      ghost var d, g := dev, Logged(start, dev);
      EmptyTidy(dev, start);
      ReplayHomes();
      ClearHeader();
      QuietViews(dev, lru);
      ApplyAppend(d, g, [Write(start, HeaderBlock(hdr))]);
      ApplyOne(Apply(d, g), Write(start, HeaderBlock(hdr)));
    }

    // ---------- the bitmap ----------

    /** The bitmap block that holds the bit of block `n`. */
    function MapBlock(n: nat): nat { MapNo(bitmapStart, n) }

    ghost predicate Laid()
      reads this
    {
      LaidOut(Contents(), start, bitmapStart, numBlocks)
    }

    /** Nobody holds a bitmap block or a free block. */
    ghost predicate BitmapIdle()
      reads this
    {
      && (forall n :: 0 <= n < numBlocks ==> !Held(lru, MapBlock(n)))
      && (forall n :: 0 <= n < numBlocks && !Marked(Contents(), bitmapStart, n) ==> !Held(lru, n))
    }

    /** Lines 396-405: mark block `n`, whose bitmap block is held, then zero it. */
    method TakeBlock(ctx: OpContext, z: nat, n: nat) returns (ok: bool)
      requires Valid() && n < |dev| && z < |dev| && z == MapBlock(n) && z != n && !InLog(start, n) && !InLog(start, z)
      requires Held(lru, z) && !Held(lru, n) && lru != [] && lru[0].no == z && lru[0].data == Contents()[z]
      modifies `lru, `count, `hdr, `pins, ctx
      ensures var need := Cost(z, old(pins)) + Cost(n, old(pins));
              && (ok <==> need <= old(ctx.rm) && old(hdr.num) + need <= LOG_MAX_SIZE)
              && (ok ==> ctx.rm == old(ctx.rm) - need && hdr.num == old(hdr.num) + need)
      ensures ok ==> Valid() && pins == old(pins) + {z, n}
      ensures ok ==> Contents() == Took(old(Contents()), bitmapStart, n)
      ensures ok ==> forall c :: Held(lru, c) <==> Held(old(lru), c) && c != z
    {
      hide View, Views, Coherent, Cached, Held, GoodHeader, Pins, PutBit, Bcache.Tidy;
      TidyShape();
      Fill(z, PutBit(lru[0].data, n % BIT_PER_BLOCK, true));
      var panics := SyncLogged(ctx, z);
      if panics { return false; }
      Release(z);
      Acquire(n);
      Fill(n, ZeroBlock());
      panics := SyncLogged(ctx, n);
      if panics { return false; }
      Release(n);
      return true;
    }

    /** The state after `cache_alloc` handed out block `n`. */
    twostate predicate TookBlock(ctx: OpContext, n: nat)
      reads this, ctx
    {
      var z := MapBlock(n);
      var need := Cost(z, old(pins)) + Cost(n, old(pins));
      && Valid() && pins == old(pins) + {z, n}
      && ctx.rm == old(ctx.rm) - need && hdr.num == old(hdr.num) + need
      && Contents() == Took(old(Contents()), bitmapStart, n)
      && forall c :: Held(lru, c) <==> Held(old(lru), c)
    }

    /** Nothing but the order of the list changed. */
    twostate predicate Looked(ctx: OpContext)
      reads this, ctx
    {
      && Valid() && Contents() == old(Contents()) && pins == old(pins) && ctx.rm == old(ctx.rm) && hdr == old(hdr)
      && forall b :: Held(lru, b) <==> Held(old(lru), b)
    }

    /** Logging what block `n` needs would exceed the operation's budget or the log. */
    predicate TooMuch(n: nat, rm: nat, num: nat, pinned: set<nat>) {
      var need := Cost(MapBlock(n), pinned) + Cost(n, pinned);
      rm < need || num + need > LOG_MAX_SIZE
    }

    /** Lines 389-394: acquire one bitmap block and look for its first clear bit. */
    method ScanMap(blockCount: nat) returns (found: bool, k: nat)
      requires Valid() && Laid() && BitmapIdle() && blockCount % BIT_PER_BLOCK == 0 && blockCount < numBlocks
      modifies `lru, `count
      ensures Valid() && Contents() == old(Contents())
      ensures lru != [] && lru[0].no == MapBlock(blockCount) && lru[0].data == Contents()[MapBlock(blockCount)]
      ensures forall c :: Held(lru, c) <==> Held(old(lru), c) || c == MapBlock(blockCount)
      ensures found ==> blockCount + k < numBlocks && !Marked(Contents(), bitmapStart, blockCount + k)
      ensures found ==> MapBlock(blockCount + k) == MapBlock(blockCount)
      ensures forall m: nat ::
                blockCount <= m < (if found then blockCount + k else blockCount + BIT_PER_BLOCK) && m < numBlocks ==>
                  Marked(Contents(), bitmapStart, m)
    {
      hide View, Views, Coherent, Cached, Held, GoodHeader, Pins, Bit, LaidOut, Marked, Scanned, Bcache.Tidy;
      TidyShape();
      var z := bitmapStart + blockCount / BIT_PER_BLOCK;
      assert z == MapBlock(blockCount);
      LaidBlock(Contents(), start, bitmapStart, numBlocks, blockCount);
      Acquire(z);
      found, k := Scan(lru[0].data, blockCount, numBlocks);
      ScanMeans(Contents(), bitmapStart, blockCount, numBlocks, found, k);
    }

    /** Lines 389-409: one bitmap block; `n` is its first free block. */
    method AllocFrom(ctx: OpContext, blockCount: nat) returns (found: bool, r: Allocated, ghost n: nat)
      requires Valid() && Laid() && BitmapIdle() && blockCount % BIT_PER_BLOCK == 0 && blockCount < numBlocks
      modifies `lru, `count, `hdr, `pins, ctx
      ensures !found ==> Looked(ctx)
      ensures found ==> n < numBlocks && !Marked(old(Contents()), bitmapStart, n)
      ensures forall m: nat :: blockCount <= m < (if found then n else blockCount + BIT_PER_BLOCK) && m < numBlocks ==>
                Marked(old(Contents()), bitmapStart, m)
      ensures found && r.Got? ==> r.no == n && TookBlock(ctx, n)
      ensures found && !r.Got? ==> r.Stopped? && TooMuch(n, old(ctx.rm), old(hdr.num), old(pins))
    {
      hide View, Views, Coherent, Cached, Held, GoodHeader, Pins, PutBit, Bit, LaidOut, Marked, Bcache.Tidy, Took,
        MapNo;
      TidyShape();
      ghost var c := Contents();
      var z := MapBlock(blockCount);
      LaidBlock(c, start, bitmapStart, numBlocks, blockCount);
      if z !in pins { UnheldView(dev, lru, pins, z); }
      var k;
      found, k := ScanMap(blockCount);
      if found {
        n := blockCount + k;
        LaidBlock(c, start, bitmapStart, numBlocks, n);
        var ok := TakeBlock(ctx, z, blockCount + k);
        return true, if ok then Got(blockCount + k) else Stopped, n;
      }
      n := 0;
      Release(z);
      return false, DiskFull, n;
    }

    /** `cache_alloc`: the least free block, zeroed and marked; panics if there is none, or if the
        operation cannot log two more blocks. */
    method Alloc(ctx: OpContext) returns (r: Allocated)
      requires Valid() && Laid() && BitmapIdle()
      modifies `lru, `count, `hdr, `pins, ctx
      ensures r.DiskFull? <==> forall m: nat :: m < numBlocks ==> Marked(old(Contents()), bitmapStart, m)
      ensures r.DiskFull? ==> Looked(ctx)
      ensures r.Got? ==> LeastFree(old(Contents()), bitmapStart, numBlocks, r.no) && TookBlock(ctx, r.no)
      ensures r.Got? ==>
                && r.no < |dev| && (forall i :: 0 <= i < BLOCK_SIZE ==> Contents()[r.no][i] == 0)
                && (forall m: nat :: m < numBlocks ==>
                      (Marked(Contents(), bitmapStart, m) <==> m == r.no || Marked(old(Contents()), bitmapStart, m)))
                && forall b: nat :: b < |dev| && b != r.no && b != MapBlock(r.no) ==>
                     Contents()[b] == old(Contents())[b]
      ensures r.Stopped? ==> exists n :: LeastFree(old(Contents()), bitmapStart, numBlocks, n) &&
                                         TooMuch(n, old(ctx.rm), old(hdr.num), old(pins))
    {
      hide View, Views, Coherent, Cached, Held, GoodHeader, Pins, PutBit, Marked, LaidOut, Took, Bcache.Tidy;
      var blockCount := 0;
      while blockCount < numBlocks
        invariant blockCount % BIT_PER_BLOCK == 0 && Looked(ctx) && Laid() && BitmapIdle()
        invariant forall m: nat :: m < blockCount && m < numBlocks ==> Marked(old(Contents()), bitmapStart, m)
        decreases numBlocks - blockCount
      {
        var found;
        ghost var n;
        found, r, n := AllocFrom(ctx, blockCount);
        if found {
          if r.Got? { TookMeans(old(Contents()), start, bitmapStart, numBlocks, r.no); }
          return r;
        }
        blockCount := blockCount + BIT_PER_BLOCK;
      }
      return DiskFull;
    }

    /** `cache_free`: the bit of block `n` is cleared, whatever it was. */
    method Free(ctx: OpContext, n: nat) returns (panics: bool)
      requires Valid() && MapBlock(n) < |dev| && !InLog(start, MapBlock(n)) && !Held(lru, MapBlock(n))
      modifies `lru, `count, `hdr, `pins, ctx
      ensures var z := MapBlock(n); var need := Cost(z, old(pins));
              && (panics <==> need > old(ctx.rm) || old(hdr.num) + need > LOG_MAX_SIZE)
              && (!panics ==> ctx.rm == old(ctx.rm) - need && hdr.num == old(hdr.num) + need)
              && (!panics ==> Valid() && pins == old(pins) + {z})
              && (!panics ==> Contents() == Gave(old(Contents()), bitmapStart, n))
              && (!panics ==> forall c :: Held(lru, c) <==> Held(old(lru), c))
      ensures !panics ==>
                && (forall m: nat :: MapBlock(m) < |dev| ==>
                      (Marked(Contents(), bitmapStart, m) <==> m != n && Marked(old(Contents()), bitmapStart, m)))
                && forall b: nat :: b < |dev| && b != MapBlock(n) ==> Contents()[b] == old(Contents())[b]
    {
      hide View, Views, Coherent, Cached, Held, GoodHeader, Pins, PutBit, MapNo, Marked;
      GaveMeans(Contents(), bitmapStart, n);
      assert hdr.num <= LOG_MAX_SIZE by { NumInLog(start, |dev|, hdr); }
      var z := MapBlock(n);
      Acquire(z);
      var bit := n % BIT_PER_BLOCK;
      Fill(z, PutBit(lru[0].data, bit, false));
      panics := SyncLogged(ctx, z);
      if panics { return true; }
      Release(z);
      return false;
    }
  }

  lemma OneEach(dev: Disk, l: seq<Entry>, pins: set<nat>)
    requires Coherent(dev, l, pins)
    ensures OneCopyEach(l)
  {
  }

  lemma NumInLog(start: nat, size: nat, h: Header)
    requires GoodHeader(start, size, h)
    ensures h.num <= LOG_MAX_SIZE
  {
  }

  // ---------- the set of allocated blocks ----------

  /** Handing out the least free block adds exactly it to the set, and keeps the layout. */
  lemma AllocRefines(c: seq<Block>, start: nat, bm: nat, limit: nat, n: nat)
    requires LaidOut(c, start, bm, limit) && LeastFree(c, bm, limit, n)
    ensures MarkedSet(Took(c, bm, n), bm, limit) == MarkedSet(c, bm, limit) + {n}
    ensures LaidOut(Took(c, bm, n), start, bm, limit)
  {
    hide Bit, PutBit, Marked;
    LaidBlock(c, start, bm, limit, n);
    var z := MapNo(bm, n);
    var d := c[z := PutBit(c[z], n % BIT_PER_BLOCK, true)];
    var e := d[n := ZeroBlock()];
    forall m | 0 <= m < limit ensures Marked(e, bm, m) <==> m == n || Marked(c, bm, m) {
      LaidBlock(c, start, bm, limit, m);
      assert MapNo(bm, m) != n;
      MarkChanges(c, bm, n, true, m);
      SameMark(d, e, bm, m);
    }
  }

  /** Handing out block `n`: it is zeroed and marked; no other mark and no other block changes. */
  lemma TookMeans(c: seq<Block>, start: nat, bm: nat, limit: nat, n: nat)
    requires LaidOut(c, start, bm, limit) && n < limit && !Marked(c, bm, n)
    ensures var d := Took(c, bm, n);
            && n < |c| && (forall i :: 0 <= i < BLOCK_SIZE ==> d[n][i] == 0)
            && (forall m: nat :: m < limit ==> (Marked(d, bm, m) <==> m == n || Marked(c, bm, m)))
            && forall b: nat :: b < |c| && b != n && b != MapNo(bm, n) ==> d[b] == c[b]
  {
    hide Bit, PutBit, Marked;
    LaidBlock(c, start, bm, limit, n);
    var z := MapNo(bm, n);
    var d := c[z := PutBit(c[z], n % BIT_PER_BLOCK, true)];
    var e := d[n := ZeroBlock()];
    forall m: nat | m < limit ensures Marked(e, bm, m) <==> m == n || Marked(c, bm, m) {
      LaidBlock(c, start, bm, limit, m);
      assert MapNo(bm, m) != n;
      MarkChanges(c, bm, n, true, m);
      SameMark(d, e, bm, m);
    }
  }

  /** Giving back block `n`: its mark goes; no other mark and no other block changes. */
  lemma GaveMeans(c: seq<Block>, bm: nat, n: nat)
    requires MapNo(bm, n) < |c|
    ensures var d := Gave(c, bm, n);
            && (forall m: nat :: MapNo(bm, m) < |c| ==> (Marked(d, bm, m) <==> m != n && Marked(c, bm, m)))
            && forall b: nat :: b < |c| && b != MapNo(bm, n) ==> d[b] == c[b]
  {
    hide Bit, PutBit, Marked;
    forall m: nat | MapNo(bm, m) < |c| ensures Marked(Gave(c, bm, n), bm, m) <==> m != n && Marked(c, bm, m) {
      MarkChanges(c, bm, n, false, m);
    }
  }

  /** Freeing removes exactly the block from the set; the layout stays if the block is neither in
      the log nor part of the bitmap. */
  lemma FreeRefines(c: seq<Block>, start: nat, bm: nat, limit: nat, n: nat)
    requires LaidOut(c, start, bm, limit) && n < limit
    ensures MarkedSet(Gave(c, bm, n), bm, limit) == MarkedSet(c, bm, limit) - {n}
    ensures !InLog(start, n) && (forall m :: 0 <= m < limit ==> MapNo(bm, m) != n) ==>
              LaidOut(Gave(c, bm, n), start, bm, limit)
  {
    hide Bit, PutBit, Marked;
    LaidBlock(c, start, bm, limit, n);
    var z := MapNo(bm, n);
    var e := c[z := PutBit(c[z], n % BIT_PER_BLOCK, false)];
    forall m | 0 <= m < limit ensures Marked(e, bm, m) <==> m != n && Marked(c, bm, m) {
      LaidBlock(c, start, bm, limit, m);
      MarkChanges(c, bm, n, false, m);
    }
  }

  lemma SameMark(c: seq<Block>, e: seq<Block>, bm: nat, m: nat)
    requires |c| == |e| && (MapNo(bm, m) < |c| ==> c[MapNo(bm, m)] == e[MapNo(bm, m)])
    ensures Marked(c, bm, m) <==> Marked(e, bm, m)
  {
  }

  /** The bitmap covers all blocks, lies outside the log, and marks itself and the log as used. */
  ghost predicate LaidOut(c: seq<Block>, start: nat, bm: nat, limit: nat) {
    && limit <= |c|
    && (forall n :: 0 <= n < limit ==> MapNo(bm, n) < |c| && !InLog(start, MapNo(bm, n)))
    && (forall n :: 0 <= n < limit && MapNo(bm, n) < limit ==> Marked(c, bm, MapNo(bm, n)))
    && (forall m :: 0 <= m < limit && InLog(start, m) ==> Marked(c, bm, m))
  }

  lemma LaidBlock(c: seq<Block>, start: nat, bm: nat, limit: nat, n: nat)
    requires LaidOut(c, start, bm, limit) && n < limit
    ensures MapNo(bm, n) < |c| && n < |c| && !InLog(start, MapNo(bm, n))
    ensures !Marked(c, bm, n) ==> !InLog(start, n) && n != MapNo(bm, n)
  {
  }

  /** Block `n` is free and no lower block is. */
  ghost predicate LeastFree(c: seq<Block>, bm: nat, limit: nat, n: nat) {
    n < limit && !Marked(c, bm, n) && forall m: nat :: m < n ==> Marked(c, bm, m)
  }

  // ---------- pins and groups ----------

  lemma GroupOfAre(h: Header, c: seq<Block>)
    ensures |GroupOf(h, c)| == h.num
    ensures forall i :: 0 <= i < h.num && i < |h.nos| && h.nos[i] < |c| ==>
        GroupOf(h, c)[i] == Write(h.nos[i], c[h.nos[i]])
  {
  }

  lemma LoggedAre(start: nat, d: Disk)
    requires GoodDisk(start, d)
    ensures |Logged(start, d)| == ReadHeader(d[start]).num
  {
  }

  /** During recovery the next slot still holds what the group says. */
  lemma LoggedHere(start: nat, d: Disk, j: nat)
    requires GoodDisk(start, d) && j < |Logged(start, d)|
    ensures var e := Apply(d, Logged(start, d)[..j]);
            start + 1 + j < |e| && Logged(start, d)[j] == Write(ReadHeader(d[start]).nos[j], e[start + 1 + j])
  {
    hide ReadHeader, Apply;
    LoggedStays(start, d, j);
  }

  lemma LogCopiesAre(start: nat, g: seq<Write>)
    ensures |LogCopies(start, g)| == |g|
    ensures forall i :: 0 <= i < |g| ==> LogCopies(start, g)[i] == Write(start + 1 + i, g[i].data)
  {
  }

  lemma PinAt(h: Header, i: nat)
    requires i < h.num <= |h.nos|
    ensures h.nos[i] in Pins(h)
  {
  }

  /** The blocks still to be installed from position `i` on. */
  function PinsFrom(h: Header, i: nat): set<nat> { set j | i <= j < h.num && j < |h.nos| :: h.nos[j] }

  lemma PinsFromAll(h: Header)
    ensures PinsFrom(h, 0) == Pins(h)
  {
  }

  lemma PinsFromNone(h: Header)
    ensures PinsFrom(h, h.num) == {}
  {
  }

  lemma PinsNext(h: Header, i: nat)
    requires i < h.num <= |h.nos| && forall j, k :: 0 <= j < k < h.num ==> h.nos[j] != h.nos[k]
    ensures PinsFrom(h, i + 1) == PinsFrom(h, i) - {h.nos[i]} && h.nos[i] in PinsFrom(h, i)
  {
  }

  /** The group depends on home blocks only. */
  lemma SameGroupOf(start: nat, h: Header, c: seq<Block>, e: seq<Block>)
    requires GoodHeader(start, |c|, h) && SameHome(start, c, e)
    ensures GroupOf(h, c) == GroupOf(h, e)
  {
  }

  lemma ClearedPins(start: nat, size: nat, h: Header)
    requires GoodHeader(start, size, h)
    ensures GoodHeader(start, size, h.Cleared()) && Pins(h.Cleared()) == {}
  {
    ClearedFits(h);
  }

  /** The four parts of a commit, one after the other. */
  lemma CommitSteps(start: nat, h: Header, g: seq<Write>, d: Disk, d1: Disk, d2: Disk, d3: Disk, d4: Disk,
                    w: seq<Write>)
    requires |h.nos| == LOG_MAX_SIZE && start < |d|
    requires d1 == Apply(d, LogCopies(start, g)) && d2 == d1[start := HeaderBlock(h)]
    requires d3 == Apply(d2, g) && d4 == d3[start := HeaderBlock(h.Cleared())]
    ensures d4 == Apply(d, CommitWrites(start, h, g))
    ensures w + LogCopies(start, g) + [Write(start, HeaderBlock(h))] + g + [Write(start, HeaderBlock(h.Cleared()))]
            == w + CommitWrites(start, h, g)
  {
    hide HeaderBlock, Apply, LogCopies;
    var a, m, z := LogCopies(start, g), Write(start, HeaderBlock(h)), Write(start, HeaderBlock(h.Cleared()));
    ApplyAppend(d, a, [m]);
    ApplyOne(d1, m);
    ApplyAppend(d, a + [m], g);
    ApplyAppend(d, a + [m] + g, [z]);
    ApplyOne(d3, z);
  }

  lemma EmptyTidy(dev: Disk, start: nat)
    ensures Coherent(dev, [], {}) && !Cached([], start)
  {
  }

  /** A block that is neither held nor pinned reads as on the device. */
  lemma UnheldView(dev: Disk, l: seq<Entry>, pins: set<nat>, b: nat)
    requires Coherent(dev, l, pins) && b < |dev| && !Held(l, b) && b !in pins
    ensures Views(dev, l)[b] == dev[b]
  {
    hide View, Views;
    if Cached(l, b) {
      var i :| 0 <= i < |l| && l[i].no == b;
      ViewAt(dev, l, i);
    } else {
      ViewAbsent(dev, l, b);
    }
  }

  /** With nothing held and nothing pinned, the cache shows the device. */
  lemma QuietViews(dev: Disk, l: seq<Entry>)
    requires Coherent(dev, l, {}) && forall b :: !Held(l, b)
    ensures Views(dev, l) == dev
  {
    hide View, Views, Coherent, Held;
    forall b | 0 <= b < |dev| ensures Views(dev, l)[b] == dev[b] { UnheldView(dev, l, {}, b); }
  }

  lemma {:induction false} DropLastIs(l: seq<Entry>, v: nat)
    requires v < |l| && Evictable(l[v]) && forall j :: v < j < |l| ==> !Evictable(l[j])
    ensures DropLast(l) == Without(l, v)
  {
    var f, z := l[..|l| - 1], l[|l| - 1];
    assert l == f + [z];
    if v < |l| - 1 {
      DropLastIs(f, v);
      assert Without(l, v) == Without(f, v) + [z];
    }
  }

  lemma {:induction false} DropLastNone(l: seq<Entry>)
    requires forall j :: 0 <= j < |l| ==> !Evictable(l[j])
    ensures DropLast(l) == l
  {
    if l != [] {
      DropLastNone(l[..|l| - 1]);
      assert l == l[..|l| - 1] + [l[|l| - 1]];
    }
  }

  lemma PinsSame(pins: set<nat>, b: nat, pinned: bool)
    requires pinned <==> b in pins
    ensures (if pinned then pins + {b} else pins - {b}) == pins
  {
  }

  lemma HeaderKeeps(dev: Disk, l: seq<Entry>, pins: set<nat>, start: nat, data: Block)
    requires Coherent(dev, l, pins) && start < |dev| && !Cached(l, start)
    ensures Coherent(dev[start := data], l, pins) && Views(dev[start := data], l) == Views(dev, l)[start := data]
  {
    hide View, Views;
    var dev' := dev[start := data];
    forall b | 0 <= b < |dev| ensures Views(dev', l)[b] == Views(dev, l)[start := data][b] {
      if b == start {
        ViewAbsent(dev', l, b);
      } else if Cached(l, b) {
        var i :| 0 <= i < |l| && l[i].no == b;
        ViewAt(dev, l, i);
        ViewAt(dev', l, i);
      } else {
        ViewAbsent(dev, l, b);
        ViewAbsent(dev', l, b);
      }
    }
  }

  lemma ListOneMore(start: nat, size: nat, h: Header, b: nat)
    requires GoodHeader(start, size, h) && h.num < LOG_MAX_SIZE && b !in Pins(h) && b < size <= Pow256(8)
        && !InLog(start, b)
    ensures GoodHeader(start, size, Listing(h, b)) && Pins(Listing(h, b)) == Pins(h) + {b}
  {
    PinsListing(h, b);
    forall i | 0 <= i < h.num ensures h.nos[i] != b { assert h.nos[i] in Pins(h); }
  }

  lemma PinsListing(h: Header, b: nat)
    requires h.num < |h.nos|
    ensures Pins(Listing(h, b)) == Pins(h) + {b}
  {
    var k := Listing(h, b);
    forall c ensures c in Pins(k) <==> c in Pins(h) + {b} {
      if c in Pins(h) {
        var i :| 0 <= i < h.num && i < |h.nos| && h.nos[i] == c;
        assert k.nos[i] == c;
      }
      assert k.nos[h.num] == b;
    }
  }
}
