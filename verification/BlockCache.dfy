/** The block cache of `fs/cache.c`: the LRU list, direct and logged writes, commit and recovery. */
module BlockCache {
  import opened Bytes
  import opened Wal

  const EVICTION_THRESHOLD: nat := 20

  datatype Entry = Entry(no: nat, acquired: bool, pinned: bool, data: Block)

  /** The contents a reader of block `b` gets: the cached copy, else the device's. */
  function View(dev: Disk, l: seq<Entry>, b: nat): Block
    requires b < |dev|
  {
    if l == [] then dev[b] else if l[0].no == b then l[0].data else View(dev, l[1..], b)
  }

  /** The latest contents of every block. */
  function Views(dev: Disk, l: seq<Entry>): (c: seq<Block>)
    ensures |c| == |dev| && forall b :: 0 <= b < |dev| ==> c[b] == View(dev, l, b)
  {
    seq(|dev|, b requires 0 <= b < |dev| => View(dev, l, b))
  }

  predicate Cached(l: seq<Entry>, b: nat) { exists i :: 0 <= i < |l| && l[i].no == b }

  predicate Held(l: seq<Entry>, b: nat) { exists i :: 0 <= i < |l| && l[i].no == b && l[i].acquired }

  predicate OneCopyEach(l: seq<Entry>) { forall i, j :: 0 <= i < j < |l| ==> l[i].no != l[j].no }

  /** The list agrees with the device: one copy per block, `pins` are exactly the pinned blocks,
      and a block that is neither held nor pinned is as on the device. */
  ghost predicate Coherent(dev: Disk, l: seq<Entry>, pins: set<nat>) {
    && OneCopyEach(l)
    && (forall i :: 0 <= i < |l| ==> l[i].no < |dev|)
    && (forall i :: 0 <= i < |l| ==> (l[i].pinned <==> l[i].no in pins))
    && (forall i :: 0 <= i < |l| && !l[i].acquired && !l[i].pinned ==> l[i].data == dev[l[i].no])
    && (forall b :: b in pins ==> Cached(l, b))
  }

  /** The same blocks in the same places; releasing, filling, syncing and pinning are like this. */
  predicate SameNumbers(l: seq<Entry>, m: seq<Entry>) {
    |l| == |m| && forall i :: 0 <= i < |l| ==> m[i].no == l[i].no
  }

  function Without(l: seq<Entry>, i: nat): seq<Entry>
    requires i < |l|
  {
    l[..i] + l[i + 1..]
  }

  predicate Evictable(e: Entry) { !e.acquired && !e.pinned }

  /** The list after making room: the least recent evictable entry is dropped if the cache is
      full. */
  function MakeRoom(l: seq<Entry>): seq<Entry> {
    if |l| < EVICTION_THRESHOLD then l else DropLast(l)
  }

  function DropLast(l: seq<Entry>): seq<Entry> {
    if l == [] then l
    else if Evictable(l[|l| - 1]) then l[..|l| - 1]
    else DropLast(l[..|l| - 1]) + [l[|l| - 1]]
  }

  /** The list after `cache_acquire(b)`: the block comes first, with its present contents. */
  function Acquired(dev: Disk, l: seq<Entry>, b: nat): seq<Entry>
    requires b < |dev|
  {
    if Cached(l, b) then
      var i := Place(l, b);
      [l[i].(acquired := true)] + Without(l, i)
    else [Entry(b, true, false, dev[b])] + MakeRoom(l)
  }

  function Place(l: seq<Entry>, b: nat): (i: nat)
    requires Cached(l, b)
    ensures i < |l| && l[i].no == b && forall j :: 0 <= j < i ==> l[j].no != b
  {
    if l[0].no == b then 0 else
      assert Cached(l[1..], b) by {
        var i :| 0 <= i < |l| && l[i].no == b;
        assert l[1..][i - 1].no == b;
      }
      1 + Place(l[1..], b)
  }

  // ---------- views ----------

  lemma {:induction false} ViewAt(dev: Disk, l: seq<Entry>, i: nat)
    requires OneCopyEach(l) && i < |l| && l[i].no < |dev|
    ensures View(dev, l, l[i].no) == l[i].data
  {
    if i > 0 { ViewAt(dev, l[1..], i - 1); }
  }

  lemma {:induction false} ViewAbsent(dev: Disk, l: seq<Entry>, b: nat)
    requires b < |dev| && !Cached(l, b)
    ensures View(dev, l, b) == dev[b]
  {
    if l != [] {
      assert l[0].no != b;
      forall i | 0 <= i < |l[1..]| ensures l[1..][i].no != b { assert l[1..][i] == l[i + 1]; }
      ViewAbsent(dev, l[1..], b);
    }
  }

  /** Two lists that hold the same copy of `b`, or both none, show the same contents. */
  lemma ViewSame(dev: Disk, l: seq<Entry>, m: seq<Entry>, b: nat)
    requires OneCopyEach(l) && OneCopyEach(m) && b < |dev|
    requires Cached(l, b) <==> Cached(m, b)
    requires forall i, j :: 0 <= i < |l| && 0 <= j < |m| && l[i].no == b && m[j].no == b ==> l[i].data == m[j].data
    ensures View(dev, l, b) == View(dev, m, b)
  {
    if Cached(l, b) {
      var i :| 0 <= i < |l| && l[i].no == b;
      var j :| 0 <= j < |m| && m[j].no == b;
      ViewAt(dev, l, i);
      ViewAt(dev, m, j);
    } else {
      ViewAbsent(dev, l, b);
      ViewAbsent(dev, m, b);
    }
  }

  /** Where the entry is that goes, or `|l|` if none may go. */
  lemma {:induction false} DropLastSpec(l: seq<Entry>) returns (v: nat)
    ensures v <= |l| && forall i :: v < i < |l| ==> !Evictable(l[i])
    ensures if v < |l| then Evictable(l[v]) && DropLast(l) == Without(l, v)
            else DropLast(l) == l && forall i :: 0 <= i < |l| ==> !Evictable(l[i])
  {
    if l == [] {
      v := 0;
    } else {
      var f, z := l[..|l| - 1], l[|l| - 1];
      assert l == f + [z];
      if Evictable(z) {
        v := |l| - 1;
        assert Without(l, v) == f;
      } else {
        v := DropLastSpec(f);
        if v < |f| {
          assert Without(l, v) == Without(f, v) + [z];
        } else {
          v := |l|;
        }
      }
    }
  }

  /** Where an entry of the shorter list was in the longer one. */
  function Back(v: nat, i: nat): nat { if i < v then i else i + 1 }

  lemma WithoutAt(l: seq<Entry>, v: nat, i: nat)
    requires v < |l|
    ensures |Without(l, v)| == |l| - 1
    ensures i < |l| - 1 ==> Without(l, v)[i] == l[Back(v, i)]
    ensures v < i < |l| ==> Without(l, v)[i - 1] == l[i]
    ensures i < v ==> Without(l, v)[i] == l[i]
  {
  }

  lemma WithoutOneCopy(l: seq<Entry>, v: nat)
    requires v < |l| && OneCopyEach(l)
    ensures OneCopyEach(Without(l, v)) && !Cached(Without(l, v), l[v].no)
  {
    var m := Without(l, v);
    forall i, j | 0 <= i < j < |m| ensures m[i].no != m[j].no {
      WithoutAt(l, v, i);
      WithoutAt(l, v, j);
    }
    forall i | 0 <= i < |m| ensures m[i].no != l[v].no { WithoutAt(l, v, i); }
  }

  lemma WithoutCached(l: seq<Entry>, v: nat, b: nat)
    requires v < |l|
    ensures Cached(Without(l, v), b) ==> Cached(l, b)
    ensures Cached(l, b) && b != l[v].no ==> Cached(Without(l, v), b)
    ensures Held(Without(l, v), b) ==> Held(l, b)
    ensures Held(l, b) && b != l[v].no ==> Held(Without(l, v), b)
  {
    var m := Without(l, v);
    if i :| 0 <= i < |m| && m[i].no == b {
      WithoutAt(l, v, i);
      assert l[Back(v, i)].no == b;
    }
    if i :| 0 <= i < |m| && m[i].no == b && m[i].acquired {
      WithoutAt(l, v, i);
      assert l[Back(v, i)].no == b && l[Back(v, i)].acquired;
    }
    if b != l[v].no {
      if i :| 0 <= i < |l| && l[i].no == b {
        WithoutAt(l, v, i);
        assert m[if i < v then i else i - 1].no == b;
      }
      if i :| 0 <= i < |l| && l[i].no == b && l[i].acquired {
        WithoutAt(l, v, i);
        assert m[if i < v then i else i - 1].no == b && m[if i < v then i else i - 1].acquired;
      }
    }
  }

  lemma WithoutView(dev: Disk, l: seq<Entry>, v: nat, b: nat)
    requires v < |l| && OneCopyEach(l) && b < |dev| && b != l[v].no
    ensures View(dev, Without(l, v), b) == View(dev, l, b)
  {
    hide View;
    var m := Without(l, v);
    WithoutOneCopy(l, v);
    WithoutCached(l, v, b);
    forall i, j | 0 <= i < |m| && 0 <= j < |l| && m[i].no == b && l[j].no == b ensures m[i].data == l[j].data {
      WithoutAt(l, v, i);
    }
    ViewSame(dev, m, l, b);
  }

  lemma WithoutCoherent(dev: Disk, l: seq<Entry>, pins: set<nat>, v: nat)
    requires Coherent(dev, l, pins) && v < |l| && !l[v].pinned
    ensures Coherent(dev, Without(l, v), pins)
  {
    var m := Without(l, v);
    WithoutOneCopy(l, v);
    forall i | 0 <= i < |m|
      ensures m[i].no < |dev| && (m[i].pinned <==> m[i].no in pins)
      ensures !m[i].acquired && !m[i].pinned ==> m[i].data == dev[m[i].no]
    {
      WithoutAt(l, v, i);
    }
    forall b | b in pins ensures Cached(m, b) { WithoutCached(l, v, b); }
  }

  /** Dropping an evictable entry changes nobody's view and keeps the list coherent. */
  lemma EvictKeeps(dev: Disk, l: seq<Entry>, pins: set<nat>, v: nat)
    requires Coherent(dev, l, pins) && v < |l| && Evictable(l[v])
    ensures Coherent(dev, Without(l, v), pins)
    ensures forall b :: 0 <= b < |dev| ==> View(dev, Without(l, v), b) == View(dev, l, b)
    ensures forall b :: Cached(Without(l, v), b) <==> Cached(l, b) && b != l[v].no
    ensures forall b :: Held(Without(l, v), b) <==> Held(l, b)
  {
    hide View;
    WithoutCoherent(dev, l, pins, v);
    WithoutOneCopy(l, v);
    forall b: nat ensures Cached(Without(l, v), b) <==> Cached(l, b) && b != l[v].no { WithoutCached(l, v, b); }
    forall b: nat ensures Held(Without(l, v), b) <==> Held(l, b) { WithoutCached(l, v, b); }
    forall b | 0 <= b < |dev| ensures View(dev, Without(l, v), b) == View(dev, l, b) {
      if b == l[v].no {
        ViewAt(dev, l, v);
        ViewAbsent(dev, Without(l, v), b);
      } else {
        WithoutView(dev, l, v, b);
      }
    }
  }

  /** Making room changes nobody's view; it drops at most one entry. */
  lemma MakeRoomKeeps(dev: Disk, l: seq<Entry>, pins: set<nat>)
    requires Coherent(dev, l, pins)
    ensures Coherent(dev, MakeRoom(l), pins)
    ensures forall b :: 0 <= b < |dev| ==> View(dev, MakeRoom(l), b) == View(dev, l, b)
    ensures forall b :: Cached(MakeRoom(l), b) ==> Cached(l, b)
    ensures forall b :: Held(MakeRoom(l), b) <==> Held(l, b)
    ensures MakeRoom(l) == l || |MakeRoom(l)| == |l| - 1
  {
    hide View, DropLast;
    var v := DropLastSpec(l);
    if MakeRoom(l) != l {
      EvictKeeps(dev, l, pins, v);
    }
  }

  /** `cache_acquire` gives the latest contents to the caller and changes nobody else's. */
  lemma AcquireKeeps(dev: Disk, l: seq<Entry>, pins: set<nat>, b: nat)
    requires Coherent(dev, l, pins) && b < |dev|
    ensures var m := Acquired(dev, l, b);
            && Coherent(dev, m, pins) && m != [] && m[0] == Entry(b, true, b in pins, View(dev, l, b))
            && Views(dev, m) == Views(dev, l)
            && (forall c :: Cached(m, c) ==> Cached(l, c) || c == b)
            && (forall c :: Held(m, c) <==> Held(l, c) || c == b)
  {
    hide View, Cached, Held;
    if Cached(l, b) {
      var i := Place(l, b);
      var m := Without(l, i);
      ViewAt(dev, l, i);
      WithoutOneCopy(l, i);
      TakeOut(dev, l, pins, i);
      PushKeeps(dev, m, pins, l[i].(acquired := true));
      forall c: nat ensures Held(Acquired(dev, l, b), c) <==> Held(l, c) || c == b { WithoutCached(l, i, c); }
      forall c: nat ensures Cached(Acquired(dev, l, b), c) ==> Cached(l, c) || c == b { WithoutCached(l, i, c); }
      forall c | 0 <= c < |dev| ensures View(dev, Acquired(dev, l, b), c) == View(dev, l, c) {
        if c != b { WithoutView(dev, l, i, c); }
      }
    } else {
      ViewAbsent(dev, l, b);
      MakeRoomKeeps(dev, l, pins);
      assert pins - {b} == pins;
      PushKeeps(dev, MakeRoom(l), pins, Entry(b, true, false, dev[b]));
    }
  }

  lemma WithoutExactly(l: seq<Entry>, v: nat)
    requires v < |l| && OneCopyEach(l)
    ensures |Without(l, v)| == |l| - 1
    ensures forall c: nat :: Cached(Without(l, v), c) <==> Cached(l, c) && c != l[v].no
  {
    hide Cached;
    WithoutOneCopy(l, v);
    forall c: nat ensures Cached(Without(l, v), c) <==> Cached(l, c) && c != l[v].no { WithoutCached(l, v, c); }
  }

  lemma PushedCached(e: Entry, l: seq<Entry>, c: nat)
    ensures Cached([e] + l, c) <==> c == e.no || Cached(l, c)
  {
    var m := [e] + l;
    assert m[0] == e;
    if i :| 0 <= i < |l| && l[i].no == c { assert m[i + 1].no == c; }
    if i :| 0 <= i < |m| && m[i].no == c && c != e.no { assert l[i - 1].no == c; }
  }

  /** A hit drops nothing; a miss adds the block, and drops at most one other that may go, only if the cache
      is full. */
  lemma AcquiredBlocks(dev: Disk, l: seq<Entry>, b: nat) returns (v: nat)
    requires b < |dev| && OneCopyEach(l)
    ensures var m := Acquired(dev, l, b);
            if Cached(l, b) then |m| == |l| && forall c: nat :: Cached(m, c) <==> Cached(l, c)
            else if |l| < EVICTION_THRESHOLD || v == |l| then
              && |m| == |l| + 1 && (forall c: nat :: Cached(m, c) <==> Cached(l, c) || c == b)
              && (|l| >= EVICTION_THRESHOLD ==> forall i :: 0 <= i < |l| ==> !Evictable(l[i]))
            else
              && |m| == |l| && v < |l| && Evictable(l[v]) && (forall i :: v < i < |l| ==> !Evictable(l[i]))
              && forall c: nat :: Cached(m, c) <==> c == b || (Cached(l, c) && c != l[v].no)
  {
    hide Cached, DropLast, OneCopyEach;
    if Cached(l, b) {
      v := Place(l, b);
      WithoutExactly(l, v);
      forall c: nat ensures Cached(Acquired(dev, l, b), c) <==> Cached(l, c) {
        PushedCached(l[v].(acquired := true), Without(l, v), c);
        if c == b { PlacedCached(l, b); }
      }
    } else {
      v := DropLastSpec(l);
      if v < |l| && |l| >= EVICTION_THRESHOLD { WithoutExactly(l, v); }
      forall c: nat ensures Cached(Acquired(dev, l, b), c) <==> c == b || Cached(MakeRoom(l), c) {
        PushedCached(Entry(b, true, false, dev[b]), MakeRoom(l), c);
      }
    }
  }

  lemma PlacedCached(l: seq<Entry>, b: nat)
    requires Cached(l, b)
    ensures l[Place(l, b)].no == b
  {
  }

  /** Taking any one block out leaves the rest coherent with its pin set aside. */
  lemma TakeOut(dev: Disk, l: seq<Entry>, pins: set<nat>, v: nat)
    requires Coherent(dev, l, pins) && v < |l|
    ensures Coherent(dev, Without(l, v), pins - {l[v].no})
  {
    var m := Without(l, v);
    WithoutOneCopy(l, v);
    forall i | 0 <= i < |m|
      ensures m[i].no < |dev| && (m[i].pinned <==> m[i].no in pins - {l[v].no})
      ensures !m[i].acquired && !m[i].pinned ==> m[i].data == dev[m[i].no]
    {
      WithoutAt(l, v, i);
      assert m[i].no != l[v].no;
    }
    forall b | b in pins - {l[v].no} ensures Cached(m, b) { WithoutCached(l, v, b); }
  }

  /** Putting a block first that is not in the list. */
  lemma PushKeeps(dev: Disk, l: seq<Entry>, pins: set<nat>, e: Entry)
    requires Coherent(dev, l, pins - {e.no}) && !Cached(l, e.no) && e.no < |dev| && (e.pinned <==> e.no in pins)
    requires e.acquired || e.pinned || e.data == dev[e.no]
    ensures Coherent(dev, [e] + l, pins)
    ensures forall b :: 0 <= b < |dev| ==> View(dev, [e] + l, b) == if b == e.no then e.data else View(dev, l, b)
    ensures forall b :: Cached([e] + l, b) <==> Cached(l, b) || b == e.no
    ensures forall b :: Held([e] + l, b) <==> Held(l, b) || (b == e.no && e.acquired)
  {
    hide Coherent;
    var m := [e] + l;
    assert m[0] == e && m[1..] == l;
    PushMembers(l, e);
    PushCoherent(dev, l, pins, e);
  }

  lemma PushMembers(l: seq<Entry>, e: Entry)
    ensures forall b :: Cached([e] + l, b) <==> Cached(l, b) || b == e.no
    ensures forall b :: Held([e] + l, b) <==> Held(l, b) || (b == e.no && e.acquired)
  {
    var m := [e] + l;
    assert m[0] == e;
    forall b ensures Cached(m, b) <==> Cached(l, b) || b == e.no {
      if i :| 0 <= i < |l| && l[i].no == b { assert m[i + 1].no == b; }
    }
    forall b ensures Held(m, b) <==> Held(l, b) || (b == e.no && e.acquired) {
      if i :| 0 <= i < |l| && l[i].no == b && l[i].acquired { assert m[i + 1].no == b && m[i + 1].acquired; }
    }
  }

  lemma PushCoherent(dev: Disk, l: seq<Entry>, pins: set<nat>, e: Entry)
    requires Coherent(dev, l, pins - {e.no}) && !Cached(l, e.no) && e.no < |dev| && (e.pinned <==> e.no in pins)
    requires e.acquired || e.pinned || e.data == dev[e.no]
    requires forall b :: Cached([e] + l, b) <==> Cached(l, b) || b == e.no
    ensures Coherent(dev, [e] + l, pins)
  {
    hide Cached;
    var m := [e] + l;
    forall i | 0 <= i < |l| ensures l[i].no != e.no { CachedAt(l, i); }
    forall i | 0 <= i < |m| ensures m[i].pinned <==> m[i].no in pins {
      if i > 0 { assert m[i] == l[i - 1]; }
    }
  }

  lemma CachedAt(l: seq<Entry>, i: nat)
    requires i < |l|
    ensures Cached(l, l[i].no)
  {
  }

  /** Changing one entry in place, together with its device block. */
  lemma ChangeKeeps(dev: Disk, l: seq<Entry>, pins: set<nat>, i: nat, e: Entry, dev': Disk, pins': set<nat>)
    requires Coherent(dev, l, pins) && i < |l| && e.no == l[i].no
    requires |dev'| == |dev| && forall b :: 0 <= b < |dev| && b != e.no ==> dev'[b] == dev[b]
    requires pins' == if e.pinned then pins + {e.no} else pins - {e.no}
    requires !e.acquired && !e.pinned ==> e.data == dev'[e.no]
    ensures Coherent(dev', l[i := e], pins')
    ensures e.no < |dev| && Views(dev', l[i := e]) == Views(dev, l)[e.no := e.data]
    ensures forall b :: Cached(l[i := e], b) <==> Cached(l, b)
    ensures forall b :: Held(l[i := e], b) <==> if b == e.no then e.acquired else Held(l, b)
  {
    var m := l[i := e];
    forall b ensures Cached(m, b) <==> Cached(l, b) {
      if j :| 0 <= j < |l| && l[j].no == b { assert m[j].no == b; }
      if j :| 0 <= j < |m| && m[j].no == b { assert l[j].no == b; }
    }
    forall b ensures Held(m, b) <==> if b == e.no then e.acquired else Held(l, b) {
      if j :| 0 <= j < |l| && l[j].no == b && l[j].acquired && b != e.no { assert m[j] == l[j]; }
      if j :| 0 <= j < |m| && m[j].no == b && m[j].acquired && b != e.no { assert m[j] == l[j]; }
      if e.acquired { assert m[i].no == e.no && m[i].acquired; }
    }
    assert Coherent(dev', m, pins');
    hide View;
    forall b | 0 <= b < |dev| ensures View(dev', m, b) == if b == e.no then e.data else View(dev, l, b) {
      if b == e.no {
        ViewAt(dev', m, i);
      } else if Cached(l, b) {
        var j :| 0 <= j < |l| && l[j].no == b;
        ViewAt(dev, l, j);
        assert m[j] == l[j];
        ViewAt(dev', m, j);
      } else {
        ViewAbsent(dev, l, b);
        ViewAbsent(dev', m, b);
      }
    }
  }
}
