/** All files of the disk together, and what the operations on one file mean for them. */
module InodeFiles {
  import opened Bytes
  import opened Bitmap
  import opened Wal
  import opened InodeModel
  import opened InodeSteps
  import opened InodeGrowth
  import opened InodeData
  import opened InodeClear

  /** Every file is in order, no block serves two files, and the allocated blocks are exactly the
      metadata and the blocks of the files. */
  ghost predicate Files(g: Geometry, es: seq<Dinode>, c: seq<Block>) {
    && g.Laid(c) && |es| == g.numInodes
    && (forall m :: 0 <= m < |es| ==> Sound(g, es[m], c))
    && (forall m, n :: 0 <= m < n < |es| ==> Owned(es[m], c) !! Owned(es[n], c))
    && (forall b :: 0 <= b < g.numBlocks ==>
          (Marked(c, g.bitmapStart, b) <==> g.Meta(b) || exists m :: 0 <= m < |es| && b in Owned(es[m], c)))
  }

  /** Growing or overwriting one file, or clearing one, is all the inode layer does to the files. */
  ghost predicate Changed(g: Geometry, no: nat, e: Dinode, c: seq<Block>, f: Dinode, d: seq<Block>)
    requires |e.addrs| == INODE_NUM_DIRECT && |f.addrs| == INODE_NUM_DIRECT
  {
    (Sound(g, f, d) && Extends(g, no, e, c, f, d)) || Cleared(g, no, e, c, f, d)
  }

  /** An operation on one file keeps the whole in order and leaves every other file as it was. */
  lemma FilesKept(g: Geometry, es: seq<Dinode>, c: seq<Block>, no: nat, f: Dinode, d: seq<Block>)
    requires Files(g, es, c) && no < |es| && |f.addrs| == INODE_NUM_DIRECT && Changed(g, no, es[no], c, f, d)
    ensures Files(g, es[no := f], d)
    ensures forall m :: 0 <= m < |es| && m != no ==> FileBytes(es[m], d) == FileBytes(es[m], c)
  {
    hide Marked, Slot, OnDisk, Geometry.Laid, Owned, FileBytes, NoHoles, Sound, Cleared, Extends, Geometry.Meta;
    var fs := es[no := f];
    forall m | 0 <= m < |es| ensures |es[m].addrs| == INODE_NUM_DIRECT && es[m].size <= INODE_MAX_BYTES {
      SoundShape(g, es[m], c);
    }
    forall m | 0 <= m < |es| && m != no
      ensures Sound(g, es[m], d) && FileBytes(es[m], d) == FileBytes(es[m], c)
      ensures Owned(es[m], d) == Owned(es[m], c) && Owned(es[m], d) !! Owned(f, d)
    {
      OtherKept(g, no, es[no], c, f, d, es[m]);
    }
    ChangedSelf(g, no, es[no], c, f, d);
    forall b | 0 <= b < g.numBlocks
      ensures Marked(d, g.bitmapStart, b) <==> g.Meta(b) || exists m :: 0 <= m < |fs| && b in Owned(fs[m], d)
    {
      MarksAgree(g, es, c, no, f, d, b);
    }
  }

  lemma OtherKept(g: Geometry, no: nat, e: Dinode, c: seq<Block>, f: Dinode, d: seq<Block>, o: Dinode)
    requires g.Laid(c) && Sound(g, e, c) && Sound(g, o, c) && no < g.numInodes && |f.addrs| == INODE_NUM_DIRECT
    requires Owned(o, c) !! Owned(e, c) && Changed(g, no, e, c, f, d)
    ensures Sound(g, o, d) && FileBytes(o, d) == FileBytes(o, c)
    ensures Owned(o, d) == Owned(o, c) && Owned(o, d) !! Owned(f, d)
  {
    hide Marked, Slot, OnDisk, Geometry.Laid, Owned, FileBytes, NoHoles, Evolves;
    if Cleared(g, no, e, c, f, d) {
      ClearedOthers(g, no, e, c, f, d, o);
    } else {
      OthersSafe(g, no, e, c, f, d, o);
    }
  }

  lemma ChangedSelf(g: Geometry, no: nat, e: Dinode, c: seq<Block>, f: Dinode, d: seq<Block>)
    requires |e.addrs| == INODE_NUM_DIRECT && |f.addrs| == INODE_NUM_DIRECT && Changed(g, no, e, c, f, d)
    ensures g.Laid(d) && Sound(g, f, d) && Owns(g, f, d)
  {
  }

  lemma OwnedMarked(g: Geometry, e: Dinode, c: seq<Block>, b: nat)
    requires Owns(g, e, c) && b in Owned(e, c)
    ensures b < g.numBlocks && !g.Meta(b) && Marked(c, g.bitmapStart, b)
  {
    hide Slot, Marked;
    var k :| 0 <= k <= INDIRECT_SLOT && Slot(e, c, k) != 0 && Slot(e, c, k) == b;
    assert g.Data(c, b);
  }

  lemma MarksAgree(g: Geometry, es: seq<Dinode>, c: seq<Block>, no: nat, f: Dinode, d: seq<Block>, b: nat)
    requires Files(g, es, c) && no < |es| && |f.addrs| == INODE_NUM_DIRECT && Changed(g, no, es[no], c, f, d)
    requires forall m :: 0 <= m < |es| ==> |es[m].addrs| == INODE_NUM_DIRECT
    requires b < g.numBlocks && forall m :: 0 <= m < |es| && m != no ==> Owned(es[m], d) == Owned(es[m], c)
    ensures var fs := es[no := f];
            Marked(d, g.bitmapStart, b) <==> g.Meta(b) || exists m :: 0 <= m < |fs| && b in Owned(fs[m], d)
  {
    hide Marked, Slot, OnDisk, FileBytes, NoHoles, Geometry.Meta, Owned, Sound, Owns;
    forall k | 0 <= k < |es| ensures Owns(g, es[k], c) && |es[k].addrs| == INODE_NUM_DIRECT { SoundShape(g, es[k], c); }
    var e, fs := es[no], es[no := f];
    if g.Meta(b) {
      if b in Owned(e, c) { OwnedMarked(g, e, c, b); }
      return;
    }
    if Marked(d, g.bitmapStart, b) {
      if b in Owned(f, d) {
        assert b in Owned(fs[no], d);
      } else {
        var m :| 0 <= m < |es| && b in Owned(es[m], c);
        if m == no && Extends(g, no, e, c, f, d) { ExtendsOwned(g, no, e, c, f, d, b); }
        assert b in Owned(fs[m], d);
      }
    } else if m :| 0 <= m < |fs| && b in Owned(fs[m], d) {
      if m == no {
        ChangedSelf(g, no, e, c, f, d);
        OwnedMarked(g, f, d, b);
      } else {
        assert b in Owned(es[m], c) && Marked(c, g.bitmapStart, b);
        DisjointAt(g, es, c, m, no, b);
      }
    }
  }

  lemma DisjointAt(g: Geometry, es: seq<Dinode>, c: seq<Block>, m: nat, n: nat, b: nat)
    requires Files(g, es, c) && m < |es| && n < |es| && m != n && b in Owned(es[m], c)
    ensures b !in Owned(es[n], c)
  {
    hide Owned, Marked, Sound;
    forall k | 0 <= k < |es| ensures |es[k].addrs| == INODE_NUM_DIRECT { SoundShape(g, es[k], c); }
    if m < n {
      assert Owned(es[m], c) !! Owned(es[n], c);
    } else {
      assert Owned(es[n], c) !! Owned(es[m], c);
    }
  }

  lemma SoundShape(g: Geometry, e: Dinode, c: seq<Block>)
    requires Sound(g, e, c)
    ensures Owns(g, e, c) && |e.addrs| == INODE_NUM_DIRECT && e.size <= INODE_MAX_BYTES
  {
  }

  lemma ExtendsOwned(g: Geometry, no: nat, e: Dinode, c: seq<Block>, f: Dinode, d: seq<Block>, b: nat)
    requires |e.addrs| == INODE_NUM_DIRECT && |f.addrs| == INODE_NUM_DIRECT && Extends(g, no, e, c, f, d)
    requires b in Owned(e, c)
    ensures b in Owned(f, d)
  {
    hide Slot, Owns, Marked, Evolves, OnDisk;
    var k :| 0 <= k <= INDIRECT_SLOT && Slot(e, c, k) != 0 && Slot(e, c, k) == b;
    assert Slot(f, d, k) == b;
  }

  // ---------- the end of an operation ----------

  /** A commit changes the log area only, which no file sees. */
  lemma CommitExtends(g: Geometry, no: nat, e: Dinode, c: seq<Block>, d: seq<Block>)
    requires g.Laid(c) && Owns(g, e, c) && SameHome(g.logStart, c, d) && no < g.numInodes
    ensures |e.addrs| == INODE_NUM_DIRECT && Extends(g, no, e, c, e, d) && SameBytes(e, c, e, d)
    ensures forall k :: 0 <= k <= INDIRECT_SLOT ==> Slot(e, d, k) == Slot(e, c, k)
  {
    hide Bit, Slot, OnDisk;
    forall n | 0 <= n < g.numBlocks ensures Marked(d, g.bitmapStart, n) <==> Marked(c, g.bitmapStart, n) {
      assert !InLog(g.logStart, MapNo(g.bitmapStart, n));
    }
    hide Marked;
    forall k | 0 <= k <= INDIRECT_SLOT && Slot(e, c, k) != 0 && Slot(e, c, k) < |c|
      ensures d[Slot(e, c, k)] == c[Slot(e, c, k)]
    {
      assert g.Data(c, Slot(e, c, k));
    }
    KeepsFile(g, e, c, d);
    assert Owned(e, d) == Owned(e, c);
    ExtendsStart(g, no, e, c);
    forall m | 0 <= m < g.numInodes ensures OnDisk(g, d, m) == OnDisk(g, c, m) {
      MetaBlock(g, c, m);
      SameOnDisk(g, c, d, m);
    }
  }

  lemma CommitKeepsFile(g: Geometry, no: nat, e: Dinode, c: seq<Block>, d: seq<Block>)
    requires g.Laid(c) && Sound(g, e, c) && SameHome(g.logStart, c, d) && no < g.numInodes
    ensures g.Laid(d) && Sound(g, e, d) && FileBytes(e, d) == FileBytes(e, c)
  {
    hide Bit, Slot, OnDisk, Owns, Marked, Evolves, ByteAt;
    CommitExtends(g, no, e, c, d);
    forall i | 0 <= i < e.size ensures ByteAt(e, d, i) == ByteAt(e, c, i) {
      assert i / BLOCK_SIZE < BlocksFor(e.size);
    }
  }

  /** Two writes in a row are one longer write. */
  lemma OverwriteTwice(s: seq<byte>, offset: nat, a: seq<byte>, b: seq<byte>)
    requires offset <= |s|
    ensures offset + |a| <= |Overwrite(s, offset, a)|
    ensures Overwrite(Overwrite(s, offset, a), offset + |a|, b) == Overwrite(s, offset, a + b)
  {
    var t := Overwrite(s, offset, a);
    assert t[..offset + |a|] == s[..offset] + a;
    assert s[..offset] + a + b == s[..offset] + (a + b);
    if offset + |a + b| <= |s| {
      assert t[offset + |a| + |b|..] == s[offset + |a + b|..];
    }
  }

  lemma OverwriteNothing(s: seq<byte>, offset: nat)
    requires offset <= |s|
    ensures Overwrite(s, offset, []) == s
  {
  }
}
