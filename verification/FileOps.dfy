/** `file_write`: a long write cut into operations that each fit the log. */
module FileOps {
  import opened Bytes
  import opened Sequences
  import opened Bitmap
  import opened Wal
  import opened BlockCache
  import opened CacheOps
  import opened InodeModel
  import opened InodeSteps
  import opened InodeGrowth
  import opened InodeData
  import opened InodeBill
  import opened InodeFiles
  import opened InodeRoom
  import opened LogBudget
  import opened Inodes

  class File {
    var writable: bool
    var off: nat
    const ip: Inode

    constructor (ip: Inode, off: nat, writable: bool)
      ensures this.ip == ip && this.off == off && this.writable == writable
    {
      this.ip, this.off, this.writable := ip, off, writable;
    }

    /** The file is loaded and in order, no operation is running and the log is empty. */
    ghost predicate Idle(fs: Inodes)
      reads fs, fs.cache, ip
    {
      && fs.MapReady(ip) && Sound(fs.g, ip.entry, fs.cache.Contents()) && ip.entry.kind != INODE_DEVICE
      && fs.cache.outstanding == 0 && !fs.cache.committing && fs.cache.hdr.num == 0
    }

    /** The contents as a reader of the device would find them. */
    ghost function Stored(fs: Inodes): seq<byte>
      requires Idle(fs)
      reads fs, fs.cache, ip
    {
      FileBytes(ip.entry, fs.cache.Contents())
    }

    /** The log is empty and the device is up to date, so begin_op admits the operation at once. */
    method BeginChunk(fs: Inodes, ctx: OpContext)
      requires fs.Ready({}) && fs.cache.outstanding == 0 && !fs.cache.committing && fs.cache.hdr.num == 0
      modifies fs.cache`outstanding, ctx
      ensures fs.Ready({}) && fs.cache.Contents() == old(fs.cache.Contents())
      ensures ctx.rm == OP_MAX_NUM_BLOCKS && fs.cache.outstanding == 1
    {
      hide View, Views, Held, Coherent, Cached, GoodHeader, Pins, Geometry.Laid;
      var admitted := fs.cache.TryBeginOp(ctx);
      assert admitted;
    }

    /** The operation is the last one to end, so its blocks are committed before end_op returns. */
    method EndChunk(fs: Inodes)
      requires fs.Ready({}) && fs.cache.outstanding == 1 && !fs.cache.committing
      modifies fs.cache
      ensures fs.Ready({}) && SameHome(fs.g.logStart, old(fs.cache.Contents()), fs.cache.Contents())
      ensures fs.cache.outstanding == 0 && !fs.cache.committing && fs.cache.hdr.num == 0
      ensures fs.cache.dev == fs.cache.Contents()
    {
      hide View, Views, Held, Coherent, Cached, GoodHeader, Pins, Geometry.Laid, CommitWrites, GroupOf, Apply;
      ghost var c := fs.cache.Contents();
      var panics := fs.cache.EndOp();
      assert !panics;
      QuietViews(fs.cache.dev, fs.cache.lru);
      LaidSame(fs.g, c, fs.cache.Contents());
    }

    /** Lines 151-159: one chunk in an operation of its own.  It never runs out of log space, and it
        is on the device when it ends. */
    method WriteChunk(fs: Inodes, src: seq<byte>) returns (st: Status, n: nat)
      requires Idle(fs) && |src| <= CHUNK && off < U64
      modifies fs.cache, ip`entry, ip`valid
      ensures st == Refused <==> off > old(ip.entry.size) || off + |src| > INODE_MAX_BYTES
      ensures st == Fine || st == Refused || st == NoSpace
      ensures |old(ip.entry).addrs| == INODE_NUM_DIRECT
      ensures st != Refused ==>
                (st == NoSpace <==> Short(fs.g, old(fs.cache.Contents()),
                  WriteNeed(old(ip.entry), old(fs.cache.Contents()), off, |src|)))
      ensures st == Fine ==> Idle(fs) && n == |src| && off <= old(ip.entry.size) && fs.cache.dev == fs.cache.Contents()
      ensures st == Fine ==> Stored(fs) == Overwrite(old(Stored(fs)), off, src)
      ensures st == Fine ==> FileExtends(fs, off, |src|)
    {
      hide Slot, Geometry.Laid, Owns, Inodes.Ready, NoHoles, FileBytes, Overwrite, Extends, WriteBill, Charged, Exceeds,
        Short, WriteNeed, HasLogged, Filled, Spent;
      ghost var e, c := ip.entry, fs.cache.Contents();
      OwnsShape(fs.g, e, c);
      var ctx := new OpContext();
      BeginChunk(fs, ctx);
      ghost var foot, rm, num, pins := {}, ctx.rm, fs.cache.hdr.num, fs.cache.pins;
      st, n, foot := fs.Write(ctx, ip, src, off);
      if st == Refused { return; }
      ChunkBill(e.size, off, |src|);
      WithinBudget(rm, num, pins, foot);
      if st != Fine { return; }
      ghost var f, d := ip.entry, fs.cache.Contents();
      OwnsShape(fs.g, f, d);
      ExtendsShape(fs.g, ip.no, e, c, f, d);
      EndChunk(fs);
      CommitExtends(fs.g, ip.no, f, d, fs.cache.Contents());
      CommitKeepsFile(fs.g, ip.no, f, d, fs.cache.Contents());
      ExtendsOn(fs.g, ip.no, e, c, f, d, f, fs.cache.Contents());
      CommitRoom(fs.g, ip.no, e, c, f, d, fs.cache.Contents(), off, |src|);
    }

    /** `file_write` on a regular file: all of `addr[..n]` is written at the file position, in chunks,
        and is on the device when the call returns. */
    method WriteFile(fs: Inodes, addr: seq<byte>, n: int) returns (st: Status, r: int)
      requires Idle(fs) && n <= |addr| && off < U64
      modifies fs.cache, `off, ip`entry, ip`valid
      ensures !writable || n <= 0 ==>
                st == Fine && Idle(fs) && off == old(off) && Stored(fs) == old(Stored(fs))
                  && r == (if writable && n == 0 then 0 else -1)
      ensures |old(ip.entry).addrs| == INODE_NUM_DIRECT && old(ip.entry.size) <= INODE_MAX_BYTES
      ensures writable && n > 0 ==>
                && (st == Fine || st == Refused || st == NoSpace)
                && (st == NoSpace <==>
                      && old(off) <= old(ip.entry.size)
                      && Short(fs.g, old(fs.cache.Contents()),
                               WriteNeed(old(ip.entry), old(fs.cache.Contents()), old(off), Accepted(old(off), n))))
                && (st == Refused <==>
                    old(off) > old(ip.entry.size) || (old(off) + n > INODE_MAX_BYTES && st != NoSpace))
                && (st == Fine ==> Idle(fs) && r == n && off == old(off) + n && fs.cache.dev == fs.cache.Contents())
                && (st == Fine ==>
                    Stored(fs) == Overwrite(old(Stored(fs)), old(off), addr[..n]) && FileExtends(fs, old(off), n))
    {
      hide Slot, Geometry.Laid, Owns, Inodes.Ready, NoHoles, FileBytes, Overwrite, Extends, Filled, Spent, Short,
        WriteNeed, FarWritten;
      ghost var e, c, s, start := ip.entry, fs.cache.Contents(), Stored(fs), off;
      OwnsShape(fs.g, e, c);
      fs.ReadyLaid({});
      if !writable { return Fine, -1; }
      if off <= |s| {
        OverwriteNothing(s, off);
        NothingYet(fs.g, ip.no, e, c, off);
      }
      assert addr[..0] == [];
      var cur := 0;
      while cur < n
        invariant 0 <= cur <= |addr| && (cur <= n || cur == 0) && Idle(fs) && off == start + cur
            && (cur == 0 ==> off < U64)
        invariant (cur % CHUNK == 0 || cur == n) && (cur > 0 ==> start <= |s| && fs.cache.dev == fs.cache.Contents())
        invariant start <= |s| ==> off <= INODE_MAX_BYTES && off <= ip.entry.size
        invariant start <= |s| ==> Stored(fs) == Overwrite(s, start, addr[..cur])
        invariant ip.entry.size >= |s| && (ip.entry.size == |s| || ip.entry.size == off)
            && (cur == 0 ==> Stored(fs) == s)
        invariant |ip.entry.addrs| == INODE_NUM_DIRECT
        invariant start <= |s| ==> FarWritten(fs.g, ip.no, e, c, ip.entry, fs.cache.Contents(), start, cur)
        decreases n - cur
      {
        var len := Min(n - cur, CHUNK);
        ghost var f, d, t := ip.entry, fs.cache.Contents(), Stored(fs);
        var wlen;
        st, wlen := WriteChunk(fs, addr[cur..cur + len]);
        if start <= |s| { AcceptedHere(start, n, cur, len); }
        if st == NoSpace { FarShort(fs.g, ip.no, e, c, f, d, start, cur, len, Accepted(start, n)); }
        if st == Refused && start <= |s| { FarEnough(fs.g, ip.no, e, c, f, d, start, cur); }
        if st != Fine { return st, -1; }
        FarThen(fs.g, ip.no, e, c, f, d, ip.entry, fs.cache.Contents(), start, cur, len);
        OverwriteTwice(s, start, addr[..cur], addr[cur..cur + len]);
        OverwriteLength(t, off, addr[cur..cur + len]);
        assert addr[..cur] + addr[cur..cur + len] == addr[..cur + len];
        if wlen > 0 { off := off + wlen; }
        cur := cur + wlen;
      }
      if n > 0 { FarEnough(fs.g, ip.no, e, c, ip.entry, fs.cache.Contents(), start, cur); }
      return Fine, if cur == n then n else -1;
    }

    /** The file was written at `offset` for `n` bytes, and the other files are as they were. */
    twostate predicate FileExtends(fs: Inodes, offset: nat, n: nat)
      reads this, fs, fs.cache, ip
    {
      && |old(ip.entry).addrs| == |ip.entry.addrs| == INODE_NUM_DIRECT
      && FarWritten(fs.g, ip.no, old(ip.entry), old(fs.cache.Contents()), ip.entry, fs.cache.Contents(), offset, n)
    }
  }

  /** How much of `n` bytes at `offset` lies in chunks that end within the greatest file size. */
  function Accepted(offset: nat, n: nat): (k: nat)
    ensures k <= n && (offset <= INODE_MAX_BYTES ==> offset + k <= INODE_MAX_BYTES)
  {
    if offset + n <= INODE_MAX_BYTES then n
    else if offset <= INODE_MAX_BYTES then (INODE_MAX_BYTES - offset) / CHUNK * CHUNK
    else 0
  }

  lemma AcceptedHere(offset: nat, n: nat, cur: nat, len: nat)
    requires cur % CHUNK == 0 && cur < n && len == Min(n - cur, CHUNK) && offset + cur <= INODE_MAX_BYTES
    ensures offset + cur + len <= INODE_MAX_BYTES ==> cur + len <= Accepted(offset, n)
    ensures offset + cur + len > INODE_MAX_BYTES ==> cur == Accepted(offset, n) && offset + n > INODE_MAX_BYTES
  {
    var q := cur / CHUNK;
    assert cur == q * CHUNK;
    if offset + n > INODE_MAX_BYTES {
      var m := INODE_MAX_BYTES - offset;
      if offset + cur + len <= INODE_MAX_BYTES {
        assert len == CHUNK && (q + 1) * CHUNK <= m;
        Multiples(m, q + 1);
      } else {
        assert q * CHUNK <= m < (q + 1) * CHUNK;
        Multiples(m, q);
      }
    }
  }

  lemma Multiples(m: nat, q: nat)
    requires q * CHUNK <= m
    ensures q <= m / CHUNK && q * CHUNK <= m / CHUNK * CHUNK && (m < (q + 1) * CHUNK ==> q == m / CHUNK)
  {
  }

  /** The file `f` on `d` is the file `e` on `c` after `n` bytes at `offset`: others kept, slots filled,
      free blocks taken. */
  ghost predicate FarWritten(g: Geometry, no: nat, e: Dinode, c: seq<Block>, f: Dinode, d: seq<Block>, offset: nat,
      n: nat)
    requires |e.addrs| == INODE_NUM_DIRECT && |f.addrs| == INODE_NUM_DIRECT
  {
    && offset + n <= INODE_MAX_BYTES && Extends(g, no, e, c, f, d)
    && Filled(e, c, f, d, offset, n) && Spent(g, c, d, WriteNeed(e, c, offset, n))
  }

  lemma NothingYet(g: Geometry, no: nat, e: Dinode, c: seq<Block>, offset: nat)
    requires g.Laid(c) && Owns(g, e, c) && offset <= INODE_MAX_BYTES && |e.addrs| == INODE_NUM_DIRECT
    ensures FarWritten(g, no, e, c, e, c, offset, 0)
  {
    hide Slot, Extends, Owns, Geometry.Laid;
    ExtendsStart(g, no, e, c);
    FilledStart(e, c, e, c, offset);
  }

  lemma FarThen(g: Geometry, no: nat, e: Dinode, c: seq<Block>, f: Dinode, d: seq<Block>, h: Dinode, z: seq<Block>,
                offset: nat, a: nat, b: nat)
    requires |e.addrs| == INODE_NUM_DIRECT && |f.addrs| == INODE_NUM_DIRECT && |h.addrs| == INODE_NUM_DIRECT
    requires FarWritten(g, no, e, c, f, d, offset, a) && FarWritten(g, no, f, d, h, z, offset + a, b)
    ensures FarWritten(g, no, e, c, h, z, offset, a + b)
  {
    hide Slot, Extends, WriteNeed, Filled, Spent;
    ExtendsOn(g, no, e, c, f, d, h, z);
    FilledThen(g, no, e, c, f, d, h, z, offset, a, b);
    NeedThen(e, c, f, d, offset, a, b);
    SpentOn(g, c, d, z, WriteNeed(e, c, offset, a), WriteNeed(f, d, offset + a, b));
  }

  lemma FilledThen(g: Geometry, no: nat, e: Dinode, c: seq<Block>, f: Dinode, d: seq<Block>, h: Dinode, z: seq<Block>,
                   offset: nat, a: nat, b: nat)
    requires |e.addrs| == INODE_NUM_DIRECT && |f.addrs| == INODE_NUM_DIRECT && |h.addrs| == INODE_NUM_DIRECT
    requires Filled(e, c, f, d, offset, a) && Filled(f, d, h, z, offset + a, b) && Extends(g, no, f, d, h, z)
    ensures Filled(e, c, h, z, offset, a + b)
  {
    hide Slot, Owns, Evolves, Marked, OnDisk, Geometry.Laid;
    forall k | 0 <= k < INODE_MAX_BLOCKS
      ensures if InRange(offset, a + b, k) then Slot(h, z, k) != 0 else Slot(h, z, k) == Slot(e, c, k)
    {
      RangeThen(offset, a, b, k);
    }
    assert a > 0 && b > 0 ==> BlocksFor(offset + a) <= BlocksFor(offset + a + b);
  }

  lemma RangeThen(offset: nat, a: nat, b: nat, k: nat)
    ensures InRange(offset, a + b, k) <==> InRange(offset, a, k) || InRange(offset + a, b, k)
  {
  }

  lemma FarShort(g: Geometry, no: nat, e: Dinode, c: seq<Block>, f: Dinode, d: seq<Block>, offset: nat, a: nat,
      b: nat, all: nat)
    requires |e.addrs| == INODE_NUM_DIRECT && |f.addrs| == INODE_NUM_DIRECT && FarWritten(g, no, e, c, f, d, offset, a)
    requires a + b <= all && offset + all <= INODE_MAX_BYTES && Short(g, d, WriteNeed(f, d, offset + a, b))
    ensures Short(g, c, WriteNeed(e, c, offset, all))
  {
    hide Slot, Extends, WriteNeed, Filled, Spent, Short;
    NeedThen(e, c, f, d, offset, a, b);
    SpentOn(g, c, d, d, WriteNeed(e, c, offset, a), WriteNeed(f, d, offset + a, b));
    NeedGrows(e, c, offset, a + b, all);
    ShortMore(g, c, WriteNeed(e, c, offset, a + b), WriteNeed(e, c, offset, all));
  }

  lemma FarEnough(g: Geometry, no: nat, e: Dinode, c: seq<Block>, f: Dinode, d: seq<Block>, offset: nat, n: nat)
    requires |e.addrs| == INODE_NUM_DIRECT && |f.addrs| == INODE_NUM_DIRECT && FarWritten(g, no, e, c, f, d, offset, n)
    ensures !Short(g, c, WriteNeed(e, c, offset, n))
  {
    hide Slot, Extends, WriteNeed, Filled;
  }

  /** A commit moves no slot and frees nothing. */
  lemma CommitRoom(g: Geometry, no: nat, e: Dinode, c: seq<Block>, f: Dinode, d: seq<Block>, z: seq<Block>,
      offset: nat, n: nat)
    requires |e.addrs| == INODE_NUM_DIRECT && |f.addrs| == INODE_NUM_DIRECT && no < g.numInodes
    requires g.Laid(d) && Owns(g, f, d) && SameHome(g.logStart, d, z)
    requires offset + n <= INODE_MAX_BYTES && Filled(e, c, f, d, offset, n)
        && Spent(g, c, d, WriteNeed(e, c, offset, n))
    ensures Filled(e, c, f, z, offset, n) && Spent(g, c, z, WriteNeed(e, c, offset, n))
  {
    hide Slot, WriteNeed, Spent, Extends, SameBytes;
    CommitExtends(g, no, f, d, z);
    CommitMarks(g, d, z);
    SpentNothing(g, d, z);
    SpentOn(g, c, d, z, WriteNeed(e, c, offset, n), 0);
  }

  lemma CommitMarks(g: Geometry, c: seq<Block>, d: seq<Block>)
    requires g.Laid(c) && SameHome(g.logStart, c, d)
    ensures forall n :: 0 <= n < g.numBlocks ==> (Marked(d, g.bitmapStart, n) <==> Marked(c, g.bitmapStart, n))
  {
    hide Bit;
  }

  lemma LaidSame(g: Geometry, c: seq<Block>, d: seq<Block>)
    requires g.Laid(c) && SameHome(g.logStart, c, d)
    ensures g.Laid(d)
  {
  }

  lemma OverwriteLength(s: seq<byte>, offset: nat, data: seq<byte>)
    requires offset <= |s|
    ensures |Overwrite(s, offset, data)| == if |s| < offset + |data| then offset + |data| else |s|
  {
  }
}
