/** The cache list is in the order of last use, and eviction takes the oldest block that may go. */
module LruOrder {
  import opened Wal
  import opened BlockCache

  /** The time of the last acquisition of `b` in the history, -1 if there is none. */
  function LastUse(hist: seq<nat>, b: nat): int {
    if hist == [] then -1 else if hist[|hist| - 1] == b then |hist| - 1 else LastUse(hist[..|hist| - 1], b)
  }

  ghost predicate InUseOrder(l: seq<Entry>, hist: seq<nat>) {
    forall i, j :: 0 <= i < j < |l| ==> LastUse(hist, l[i].no) > LastUse(hist, l[j].no)
  }

  lemma ChangedInOrder(l: seq<Entry>, m: seq<Entry>, hist: seq<nat>)
    requires InUseOrder(l, hist) && SameNumbers(l, m)
    ensures InUseOrder(m, hist)
  {
    hide LastUse;
    forall i, j | 0 <= i < j < |m| ensures LastUse(hist, m[i].no) > LastUse(hist, m[j].no) {
      assert m[i].no == l[i].no && m[j].no == l[j].no;
    }
  }

  lemma LastUseNext(hist: seq<nat>, b: nat, c: nat)
    ensures LastUse(hist + [b], c) == if c == b then |hist| else LastUse(hist, c)
  {
    assert (hist + [b])[..|hist|] == hist;
  }

  lemma {:induction false} LastUseBound(hist: seq<nat>, c: nat)
    ensures LastUse(hist, c) < |hist|
  {
    if hist != [] { LastUseBound(hist[..|hist| - 1], c); }
  }

  lemma DroppedInOrder(l: seq<Entry>, v: nat, hist: seq<nat>)
    requires InUseOrder(l, hist) && v < |l|
    ensures InUseOrder(Without(l, v), hist)
  {
    hide LastUse;
    var m := Without(l, v);
    forall i, j | 0 <= i < j < |m| ensures LastUse(hist, m[i].no) > LastUse(hist, m[j].no) {
      WithoutAt(l, v, i);
      WithoutAt(l, v, j);
    }
  }

  /** Acquiring a block keeps the list in the order of last use. */
  lemma AcquiredInOrder(dev: Disk, l: seq<Entry>, b: nat, hist: seq<nat>)
    requires b < |dev| && OneCopyEach(l) && InUseOrder(l, hist)
    ensures InUseOrder(Acquired(dev, l, b), hist + [b])
  {
    hide LastUse, DropLast, Cached, InUseOrder;
    var rest := if Cached(l, b) then Without(l, Place(l, b)) else MakeRoom(l);
    var m := Acquired(dev, l, b);
    if Cached(l, b) {
      DroppedInOrder(l, Place(l, b), hist);
      WithoutOneCopy(l, Place(l, b));
    } else {
      RoomInOrder(l, b, hist);
    }
    assert m == [m[0]] + rest && m[0].no == b && !Cached(rest, b);
    PushedInOrder(m[0], rest, hist);
  }

  /** The block used just now goes in front of the others. */
  lemma PushedInOrder(e: Entry, rest: seq<Entry>, hist: seq<nat>)
    requires InUseOrder(rest, hist) && !Cached(rest, e.no)
    ensures InUseOrder([e] + rest, hist + [e.no])
  {
    hide LastUse, Cached;
    var m, now := [e] + rest, hist + [e.no];
    forall i, j | 0 <= i < j < |m| ensures LastUse(now, m[i].no) > LastUse(now, m[j].no) {
      PushedUse(e, rest, hist, i);
      PushedUse(e, rest, hist, j);
      assert i > 0 ==> LastUse(hist, rest[i - 1].no) > LastUse(hist, rest[j - 1].no);
    }
  }

  lemma PushedUse(e: Entry, rest: seq<Entry>, hist: seq<nat>, i: nat)
    requires !Cached(rest, e.no) && i <= |rest|
    ensures var m, now := [e] + rest, hist + [e.no];
            LastUse(now, m[i].no) == if i == 0 then |hist| else LastUse(hist, rest[i - 1].no)
    ensures i > 0 ==> LastUse(hist, rest[i - 1].no) < |hist|
  {
    hide LastUse, Cached;
    var m := [e] + rest;
    LastUseNext(hist, e.no, m[i].no);
    if i > 0 {
      NotCached(rest, e.no, i - 1);
      LastUseBound(hist, rest[i - 1].no);
    }
  }

  lemma NotCached(l: seq<Entry>, b: nat, i: nat)
    requires !Cached(l, b) && i < |l|
    ensures l[i].no != b
  {
  }

  lemma RoomInOrder(l: seq<Entry>, b: nat, hist: seq<nat>)
    requires InUseOrder(l, hist) && !Cached(l, b)
    ensures InUseOrder(MakeRoom(l), hist) && !Cached(MakeRoom(l), b)
  {
    hide LastUse, DropLast;
    var v := DropLastSpec(l);
    if MakeRoom(l) != l {
      DroppedInOrder(l, v, hist);
      WithoutCached(l, v, b);
    }
  }

  /** What is evicted is the block used longest ago among those neither acquired nor pinned; nothing is
      evicted below the threshold, nor if every block is acquired or pinned. */
  lemma VictimIsOldest(l: seq<Entry>, hist: seq<nat>)
    requires InUseOrder(l, hist)
    ensures MakeRoom(l) == l <==> |l| < EVICTION_THRESHOLD || forall i :: 0 <= i < |l| ==> !Evictable(l[i])
    ensures MakeRoom(l) != l ==> exists v :: Victim(l, v, hist) && MakeRoom(l) == Without(l, v)
  {
    hide LastUse, DropLast;
    var v := DropLastSpec(l);
    if v < |l| {
      assert |Without(l, v)| == |l| - 1;
      assert Victim(l, v, hist);
    }
  }

  ghost predicate Victim(l: seq<Entry>, v: nat, hist: seq<nat>) {
    v < |l| && Evictable(l[v])
    && forall i :: 0 <= i < |l| && i != v && Evictable(l[i]) ==> LastUse(hist, l[v].no) < LastUse(hist, l[i].no)
  }

  /** What acquiring does to the set of cached blocks: a hit drops none, a miss drops the victim if the
      cache is full and there is one. */
  lemma AcquireDrops(dev: Disk, l: seq<Entry>, b: nat, hist: seq<nat>)
    requires b < |dev| && OneCopyEach(l) && InUseOrder(l, hist)
    ensures var m := Acquired(dev, l, b);
            if Cached(l, b) then |m| == |l| && forall c: nat :: Cached(m, c) <==> Cached(l, c)
            else if |l| < EVICTION_THRESHOLD || forall i :: 0 <= i < |l| ==> !Evictable(l[i]) then
              |m| == |l| + 1 && forall c: nat :: Cached(m, c) <==> Cached(l, c) || c == b
            else
              |m| == |l| && exists v: nat ::
                Victim(l, v, hist) && forall c: nat :: Cached(m, c) <==> c == b || (Cached(l, c) && c != l[v].no)
  {
    hide LastUse, DropLast, Cached, OneCopyEach, Acquired, MakeRoom;
    var v := AcquiredBlocks(dev, l, b);
    if !Cached(l, b) && |l| >= EVICTION_THRESHOLD && v < |l| { assert Victim(l, v, hist); }
  }

  // ---------- runs ----------

  /** `cache_acquire` with the device as it is then, or a release, a write, a sync or a pin. */
  datatype Step = Acquire(dev: Disk, b: nat) | Change(now: seq<Entry>)

  predicate Enabled(l: seq<Entry>, s: Step) {
    match s
    case Acquire(dev, b) => b < |dev|
    case Change(now) => SameNumbers(l, now)
  }

  function Next(l: seq<Entry>, s: Step): seq<Entry>
    requires Enabled(l, s)
  {
    match s
    case Acquire(dev, b) => Acquired(dev, l, b)
    case Change(now) => now
  }

  predicate Runs(l: seq<Entry>, ss: seq<Step>)
    decreases |ss|
  {
    ss == [] || (Enabled(l, ss[0]) && Runs(Next(l, ss[0]), ss[1..]))
  }

  function After(l: seq<Entry>, ss: seq<Step>): seq<Entry>
    requires Runs(l, ss)
    decreases |ss|
  {
    if ss == [] then l else After(Next(l, ss[0]), ss[1..])
  }

  /** The blocks acquired in a run, in order. */
  function Uses(ss: seq<Step>): seq<nat> {
    if ss == [] then [] else (if ss[0].Acquire? then [ss[0].b] else []) + Uses(ss[1..])
  }

  /** Over any run the list stays in the order of last use, one copy each. */
  lemma {:induction false} RunInOrder(l: seq<Entry>, ss: seq<Step>, hist: seq<nat>)
    requires Runs(l, ss) && InUseOrder(l, hist) && OneCopyEach(l)
    ensures InUseOrder(After(l, ss), hist + Uses(ss)) && OneCopyEach(After(l, ss))
    decreases |ss|
  {
    hide LastUse, DropLast, InUseOrder, Acquired;
    if ss == [] {
      assert hist + Uses(ss) == hist;
    } else {
      var m := Next(l, ss[0]);
      match ss[0]
      case Acquire(dev, b) =>
        AcquiredInOrder(dev, l, b, hist);
        InOrderDistinct(m, hist + [b]);
        RunInOrder(m, ss[1..], hist + [b]);
        assert hist + [b] + Uses(ss[1..]) == hist + Uses(ss);
      case Change(now) =>
        ChangedInOrder(l, now, hist);
        InOrderDistinct(m, hist);
        RunInOrder(m, ss[1..], hist);
        assert hist + Uses(ss[1..]) == hist + Uses(ss);
    }
  }

  lemma InOrderDistinct(l: seq<Entry>, hist: seq<nat>)
    requires InUseOrder(l, hist)
    ensures OneCopyEach(l)
  {
    hide LastUse;
    forall i, j | 0 <= i < j < |l| ensures l[i].no != l[j].no {
      assert LastUse(hist, l[i].no) > LastUse(hist, l[j].no);
    }
  }
}
