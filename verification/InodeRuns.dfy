/** Runs of the inode layer: what holds of all inodes and blocks after any number of operations. */
module InodeRuns {
  import opened Bytes
  import opened Bitmap
  import opened Wal
  import opened InodeModel
  import opened InodeSteps
  import opened InodeGrowth
  import opened InodeClear
  import opened InodeFiles

  /** All inodes, as loaded or as on disk, and the contents of the disk. */
  datatype State = State(es: seq<Dinode>, c: seq<Block>)

  /** What an operation made of inode `no` and of the disk; `f` and `d` are their new values. */
  datatype Event =
    | Write(no: nat, f: Dinode, d: seq<Block>)   // inode_write
    | Clear(no: nat, f: Dinode, d: seq<Block>)   // inode_clear
    | Put(no: nat, f: Dinode, d: seq<Block>)     // inode_put of the last reference without links
    | Alloc(no: nat, f: Dinode, d: seq<Block>)   // inode_alloc
    | Relabel(no: nat, f: Dinode, d: seq<Block>) // inode_sync after a change of links or device numbers
    | Commit(no: nat, f: Dinode, d: seq<Block>)  // the end of an operation

  ghost predicate Enabled(g: Geometry, s: State, e: Event) {
    && e.no < |s.es| && |s.es[e.no].addrs| == |e.f.addrs| == INODE_NUM_DIRECT
    && var i := s.es[e.no];
       match e
       case Write(no, f, d) => i.kind != INODE_INVALID && Sound(g, f, d) && Extends(g, no, i, s.c, f, d)
       case Clear(no, f, d) => Cleared(g, no, i, s.c, f, d)
       case Put(no, f, d) => Cleared(g, no, i.(kind := INODE_INVALID), s.c, f, d)
       case Alloc(no, f, d) =>
         i.kind == INODE_INVALID && INODE_INVALID < f.kind < 0x1_0000 && f == NewInode(f.kind)
           && d == Synced(g, no, f, s.c)
       case Relabel(no, f, d) =>
         && i.kind != INODE_INVALID && f == i.(links := f.links, major := f.major, minor := f.minor) && Encodable(f)
         && d == Synced(g, no, f, s.c)
       case Commit(no, f, d) => f == i && SameHome(g.logStart, s.c, d)
  }

  function Next(s: State, e: Event): State {
    if e.no < |s.es| then State(s.es[e.no := e.f], e.d) else s
  }

  /** The files are in order, every inode is on disk as it is loaded, and a free inode has no blocks. */
  ghost predicate InOrder(g: Geometry, s: State) {
    && Files(g, s.es, s.c)
    && (forall m :: 0 <= m < |s.es| ==> OnDisk(g, s.c, m) == s.es[m])
    && (forall m :: 0 <= m < |s.es| ==> FreeHasNone(s.es[m], s.c))
  }

  ghost predicate FreeHasNone(e: Dinode, c: seq<Block>) {
    e.kind == INODE_INVALID ==> |e.addrs| == INODE_NUM_DIRECT && Owned(e, c) == {}
  }

  /** What an operation on inode `no` leaves behind: everything in order, the other files untouched. */
  ghost predicate Kept(g: Geometry, s: State, no: nat, t: State) {
    && InOrder(g, t) && |t.es| == |s.es|
    && forall m :: 0 <= m < |s.es| && m != no ==> t.es[m] == s.es[m] && SameFile(s.es[m], s.c, t.c)
  }

  ghost predicate SameFile(e: Dinode, c: seq<Block>, d: seq<Block>) {
    |e.addrs| == INODE_NUM_DIRECT && e.size <= INODE_MAX_BYTES && FileBytes(e, d) == FileBytes(e, c)
  }

  /** Another inode with the same blocks in the same place. */
  lemma Swapped(g: Geometry, es: seq<Dinode>, c: seq<Block>, no: nat, f: Dinode)
    requires Files(g, es, c) && no < |es| && Sound(g, f, c) && |f.addrs| == |es[no].addrs| == INODE_NUM_DIRECT
    requires Owned(f, c) == Owned(es[no], c)
    ensures Files(g, es[no := f], c)
  {
    hide Sound, Owned, Marked, Geometry.Meta, Geometry.Laid;
    var fs := es[no := f];
    forall m | 0 <= m < |es| ensures |es[m].addrs| == INODE_NUM_DIRECT { SoundShape(g, es[m], c); }
    forall m | 0 <= m < |es| ensures Sound(g, fs[m], c) && |fs[m].addrs| == INODE_NUM_DIRECT && Owned(fs[m], c)
      == Owned(es[m], c) {}
    forall m, n | 0 <= m < n < |fs| ensures Owned(fs[m], c) !! Owned(fs[n], c) {
      assert Owned(es[m], c) !! Owned(es[n], c);
    }
    forall b | 0 <= b < g.numBlocks
      ensures Marked(c, g.bitmapStart, b) <==> g.Meta(b) || exists m :: 0 <= m < |fs| && b in Owned(fs[m], c)
    {
      if m :| 0 <= m < |es| && b in Owned(es[m], c) { assert b in Owned(fs[m], c); }
      if m :| 0 <= m < |fs| && b in Owned(fs[m], c) { assert b in Owned(es[m], c); }
    }
  }

  /** The common part: `i` is the inode as the operation finds it, with the blocks of `s.es[no]`. */
  lemma ChangeKeeps(g: Geometry, s: State, no: nat, i: Dinode, f: Dinode, d: seq<Block>)
    requires InOrder(g, s) && no < |s.es| && |i.addrs| == |f.addrs| == |s.es[no].addrs| == INODE_NUM_DIRECT
    requires Sound(g, i, s.c) && Owned(i, s.c) == Owned(s.es[no], s.c) && Changed(g, no, i, s.c, f, d)
    requires OnDisk(g, d, no) == f && (f.kind == INODE_INVALID ==> Owned(f, d) == {})
    requires forall m :: 0 <= m < g.numInodes && m != no ==> OnDisk(g, d, m) == OnDisk(g, s.c, m)
    ensures Kept(g, s, no, State(s.es[no := f], d))
  {
    hide Sound, Owned, Marked, OnDisk, Files, FileBytes, Changed;
    FilesShape(g, s.es, s.c);
    Swapped(g, s.es, s.c, no, i);
    FilesKept(g, s.es[no := i], s.c, no, f, d);
    assert s.es[no := i][no := f] == s.es[no := f];
    forall m | 0 <= m < |s.es| && m != no
      ensures FreeHasNone(s.es[m], d) && SameFile(s.es[m], s.c, d)
    {
      OneKept(g, s.es[no := i], s.c, no, f, d, m);
      assert s.es[no := i][m] == s.es[m];
    }
  }

  lemma FilesShape(g: Geometry, es: seq<Dinode>, c: seq<Block>)
    requires Files(g, es, c)
    ensures |es| == g.numInodes && g.Laid(c)
    ensures forall m :: 0 <= m < |es| ==>
        Sound(g, es[m], c) && |es[m].addrs| == INODE_NUM_DIRECT && es[m].size <= INODE_MAX_BYTES
  {
    hide Owned, Marked, Geometry.Laid, Sound;
    forall m | 0 <= m < |es| ensures |es[m].addrs| == INODE_NUM_DIRECT && es[m].size <= INODE_MAX_BYTES
    {
      SoundShape(g, es[m], c);
    }
  }

  lemma OneKept(g: Geometry, es: seq<Dinode>, c: seq<Block>, no: nat, f: Dinode, d: seq<Block>, m: nat)
    requires Files(g, es, c) && no < |es| && m < |es| && m != no && |f.addrs| == INODE_NUM_DIRECT
    requires |es[no].addrs| == INODE_NUM_DIRECT && Changed(g, no, es[no], c, f, d)
    ensures |es[m].addrs| == INODE_NUM_DIRECT && Owned(es[m], d) == Owned(es[m], c)
  {
    hide Sound, Owned, Marked, Changed, Geometry.Laid;
    FilesShape(g, es, c);
    if m < no { assert Owned(es[m], c) !! Owned(es[no], c); } else { assert Owned(es[no], c) !! Owned(es[m], c); }
    OtherKept(g, no, es[no], c, f, d, es[m]);
  }

  lemma WriteKeeps(g: Geometry, s: State, no: nat, f: Dinode, d: seq<Block>)
    requires InOrder(g, s) && Enabled(g, s, Event.Write(no, f, d))
    ensures Kept(g, s, no, Next(s, Event.Write(no, f, d)))
  {
    hide Sound, Owned, Marked, OnDisk, Files, Geometry.Laid, Owns;
    FilesShape(g, s.es, s.c);
    ChangeKeeps(g, s, no, s.es[no], f, d);
  }

  lemma ClearKeeps(g: Geometry, s: State, no: nat, f: Dinode, d: seq<Block>)
    requires InOrder(g, s) && Enabled(g, s, Clear(no, f, d))
    ensures Kept(g, s, no, Next(s, Clear(no, f, d)))
  {
    hide Sound, Owned, Marked, OnDisk, Files, Geometry.Laid;
    FilesShape(g, s.es, s.c);
    ChangeKeeps(g, s, no, s.es[no], f, d);
  }

  /** Other type, links or device numbers, same blocks and size. */
  lemma SameBlocks(g: Geometry, e: Dinode, f: Dinode, c: seq<Block>)
    requires Sound(g, e, c) && Encodable(f) && f == e.(kind := f.kind, links := f.links, major := f.major,
        minor := f.minor)
    ensures |e.addrs| == INODE_NUM_DIRECT && Sound(g, f, c) && Owned(f, c) == Owned(e, c)
  {
    hide Word, Marked;
    forall k | 0 <= k <= INDIRECT_SLOT ensures Slot(f, c, k) == Slot(e, c, k) {}
    hide Slot;
  }

  lemma PutKeeps(g: Geometry, s: State, no: nat, f: Dinode, d: seq<Block>)
    requires InOrder(g, s) && Enabled(g, s, Put(no, f, d))
    ensures Kept(g, s, no, Next(s, Put(no, f, d)))
  {
    hide Sound, Owned, Marked, OnDisk, Files, Geometry.Laid;
    FilesShape(g, s.es, s.c);
    var i := s.es[no].(kind := INODE_INVALID);
    KindEncodes(g, s.es[no], s.c);
    SameBlocks(g, s.es[no], i, s.c);
    ChangeKeeps(g, s, no, i, f, d);
  }

  lemma KindEncodes(g: Geometry, e: Dinode, c: seq<Block>)
    requires Sound(g, e, c)
    ensures Encodable(e.(kind := INODE_INVALID))
  {
    assert Pow256(2) == 65536;
  }

  lemma AllocKeeps(g: Geometry, s: State, no: nat, f: Dinode, d: seq<Block>)
    requires InOrder(g, s) && Enabled(g, s, Alloc(no, f, d))
    ensures Kept(g, s, no, Next(s, Alloc(no, f, d)))
  {
    hide Sound, Owned, Marked, OnDisk, Files, Geometry.Laid, Synced, Extends, Owns;
    FilesShape(g, s.es, s.c);
    NewSound(g, f.kind, s.c);
    assert FreeHasNone(s.es[no], s.c);
    SyncedChange(g, no, f, s.c);
    ChangeKeeps(g, s, no, f, f, d);
  }

  /** Writing an inode with unchanged blocks back. */
  lemma SyncedChange(g: Geometry, no: nat, f: Dinode, c: seq<Block>)
    requires g.Laid(c) && Sound(g, f, c) && no < g.numInodes
    ensures |f.addrs| == INODE_NUM_DIRECT && var d := Synced(g, no, f, c);
            && Changed(g, no, f, c, f, d) && OnDisk(g, d, no) == f && Owned(f, d) == Owned(f, c)
            && forall m :: 0 <= m < g.numInodes && m != no ==> OnDisk(g, d, m) == OnDisk(g, c, m)
  {
    hide Marked, OnDisk, Synced, SameBytes, Slot;
    SyncExtends(g, no, f, c);
    assert Owned(f, Synced(g, no, f, c)) == Owned(f, c);
  }

  lemma RelabelKeeps(g: Geometry, s: State, no: nat, f: Dinode, d: seq<Block>)
    requires InOrder(g, s) && Enabled(g, s, Relabel(no, f, d))
    ensures Kept(g, s, no, Next(s, Relabel(no, f, d)))
  {
    hide Sound, Owned, Marked, OnDisk, Files, Geometry.Laid, Synced, Extends, Owns;
    FilesShape(g, s.es, s.c);
    SameBlocks(g, s.es[no], f, s.c);
    SyncedChange(g, no, f, s.c);
    ChangeKeeps(g, s, no, f, f, d);
  }

  lemma CommitKeeps(g: Geometry, s: State, no: nat, d: seq<Block>)
    requires InOrder(g, s) && no < |s.es| && SameHome(g.logStart, s.c, d)
    ensures Kept(g, s, no, State(s.es, d)) && SameFile(s.es[no], s.c, d)
  {
    hide Sound, Owned, Marked, OnDisk, Files, Geometry.Laid, Extends, FileBytes;
    FilesShape(g, s.es, s.c);
    var e := s.es[no];
    CommitHere(g, no, e, s.c, d);
    ChangeKeeps(g, s, no, e, e, d);
    assert s.es[no := e] == s.es;
  }

  lemma CommitHere(g: Geometry, no: nat, e: Dinode, c: seq<Block>, d: seq<Block>)
    requires g.Laid(c) && Sound(g, e, c) && SameHome(g.logStart, c, d) && no < g.numInodes
    ensures |e.addrs| == INODE_NUM_DIRECT && Changed(g, no, e, c, e, d) && Owned(e, d) == Owned(e, c)
        && SameFile(e, c, d)
    ensures forall m :: 0 <= m < g.numInodes ==> OnDisk(g, d, m) == OnDisk(g, c, m)
  {
    hide Marked, OnDisk, Slot, SameBytes, FileBytes, NoHoles, SameHome;
    CommitExtends(g, no, e, c, d);
    CommitKeepsFile(g, no, e, c, d);
    forall m | 0 <= m < g.numInodes ensures OnDisk(g, d, m) == OnDisk(g, c, m) { CommitOnDisk(g, c, d, m); }
    assert Owned(e, d) == Owned(e, c);
  }

  lemma CommitOnDisk(g: Geometry, c: seq<Block>, d: seq<Block>, m: nat)
    requires g.Laid(c) && SameHome(g.logStart, c, d) && m < g.numInodes
    ensures OnDisk(g, d, m) == OnDisk(g, c, m)
  {
    hide OnDisk;
    MetaBlock(g, c, m);
    SameOnDisk(g, c, d, m);
  }

  /** Every operation keeps everything in order, and the files of all other inodes as they were. */
  lemma StepKeeps(g: Geometry, s: State, e: Event)
    requires InOrder(g, s) && Enabled(g, s, e)
    ensures Kept(g, s, e.no, Next(s, e))
  {
    hide InOrder, Kept, Sound, Extends, Cleared, Synced, SameHome, Encodable;
    match e
    case Write(no, f, d) => WriteKeeps(g, s, no, f, d);
    case Clear(no, f, d) => ClearKeeps(g, s, no, f, d);
    case Put(no, f, d) => PutKeeps(g, s, no, f, d);
    case Alloc(no, f, d) => AllocKeeps(g, s, no, f, d);
    case Relabel(no, f, d) => RelabelKeeps(g, s, no, f, d);
    case Commit(no, f, d) =>
      assert s.es[no := f] == s.es;
      CommitKeeps(g, s, no, d);
  }

  // ---------- runs ----------

  ghost predicate Runs(g: Geometry, s: State, es: seq<Event>)
    decreases |es|
  {
    es == [] || (Enabled(g, s, es[0]) && Runs(g, Next(s, es[0]), es[1..]))
  }

  function After(s: State, es: seq<Event>): State
    decreases |es|
  {
    if es == [] then s else After(Next(s, es[0]), es[1..])
  }

  /** After any run the allocated blocks are exactly the metadata and the disjoint union of the blocks of
      all files, every inode on disk is up to date, and free inodes own nothing. */
  lemma {:induction false} RunKeeps(g: Geometry, s: State, es: seq<Event>)
    requires InOrder(g, s) && Runs(g, s, es)
    ensures InOrder(g, After(s, es)) && |After(s, es).es| == |s.es|
    decreases |es|
  {
    hide InOrder, Enabled, Next;
    if es != [] {
      StepKeeps(g, s, es[0]);
      RunKeeps(g, Next(s, es[0]), es[1..]);
    }
  }

  /** A file that no operation of the run is about has its bytes at the end. */
  lemma {:induction false} UntouchedFile(g: Geometry, s: State, es: seq<Event>, m: nat)
    requires InOrder(g, s) && Runs(g, s, es) && m < |s.es| && forall i :: 0 <= i < |es| ==> es[i].no != m
    ensures m < |After(s, es).es| && After(s, es).es[m] == s.es[m] && SameFile(s.es[m], s.c, After(s, es).c)
    decreases |es|
  {
    hide InOrder, Enabled, Next, FileBytes;
    if es == [] {
      InOrderShape(g, s, m);
    } else {
      StepKeeps(g, s, es[0]);
      UntouchedFile(g, Next(s, es[0]), es[1..], m);
    }
  }

  lemma InOrderShape(g: Geometry, s: State, m: nat)
    requires InOrder(g, s) && m < |s.es|
    ensures SameFile(s.es[m], s.c, s.c)
  {
    SoundShape(g, s.es[m], s.c);
  }
}
