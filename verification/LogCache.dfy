/** The block cache carries out the steps of the log machine: every run of calls is one of its runs. */
module LogCache {
  import opened Bytes
  import opened Wal
  import opened LogRuns
  import opened BlockCache
  import opened CacheOps

  /** Device, header and pinned contents of a cache, as a state of the machine. */
  ghost predicate Pictured(s: State, dev: Disk, h: Header, c: seq<Block>) {
    && s.disk == dev && s.hdr == h && |h.nos| == LOG_MAX_SIZE && h.num <= LOG_MAX_SIZE
    && (forall b :: b in s.dirty <==> b in Pins(h)) && (forall b :: b in s.dirty ==> b < |c| && s.dirty[b] == c[b])
  }

  /** The pinned blocks of the cache are the dirty blocks of the machine. */
  lemma PinsAreListed(h: Header, b: nat)
    ensures b in Pins(h) <==> ListedIn(h, b)
  {
  }

  lemma GroupIs(s: State, dev: Disk, h: Header, c: seq<Block>)
    requires Pictured(s, dev, h, c)
    ensures Group(s) == GroupOf(h, c)
  {
    forall i | 0 <= i < h.num ensures Group(s)[i] == GroupOf(h, c)[i] {
      assert h.nos[i] in Pins(h);
    }
  }

  // ---------- device writes ----------

  function Ticks(n: nat): (es: seq<Event>)
    ensures |es| == n && forall i :: 0 <= i < n ==> es[i] == Tick
  {
    seq(n, _ => Tick)
  }

  /** The state after a commit that started from device `d`. */
  ghost predicate Committed(s: State, t: State, d: Disk, ws: seq<Write>) {
    && |s.hdr.nos| == LOG_MAX_SIZE && t.disk == Apply(d, ws) && t.phase == Up && t.hdr == s.hdr.Cleared() && t.ops == []
    && t.dirty == map[]
  }

  /** The machine's commit, tick by tick. */
  lemma {:induction false} CommitTicks(start: nat, s: State, d: Disk, k: nat)
    requires |s.hdr.nos| == LOG_MAX_SIZE && s.phase == Commit(d, k) && s.ops == []
    requires k < |CommitWrites(start, s.hdr, Group(s))| && s.disk == Apply(d, CommitWrites(start, s.hdr, Group(s))[..k])
    ensures Runs(start, s, Ticks(|CommitWrites(start, s.hdr, Group(s))| - k))
    ensures Committed(s, After(start, s, Ticks(|CommitWrites(start, s.hdr, Group(s))| - k)), d,
        CommitWrites(start, s.hdr, Group(s)))
    decreases |CommitWrites(start, s.hdr, Group(s))| - k
  {
    hide CommitWrites, Apply, Put, Group;
    var ws := CommitWrites(start, s.hdr, Group(s));
    var t := Next(start, s, Tick);
    var es := Ticks(|ws| - k);
    assert es[0] == Tick && es[1..] == Ticks(|ws| - k - 1);
    ApplyStep(d, ws, k);
    assert ws[..|ws|] == ws;
    if k + 1 < |ws| {
      SameGroup(s, t);
      CommitTicks(start, t, d, k + 1);
    }
  }

  /** The machine's recovery, tick by tick. */
  lemma {:induction false} ReplayTicks(start: nat, s: State, d: Disk, k: nat)
    requires GoodDisk(start, d) && s.phase == Replay(d, k) && s.ops == [] && s.dirty == map[]
    requires k < |RecoveryWrites(start, d)| && s.disk == Apply(d, RecoveryWrites(start, d)[..k])
    ensures Runs(start, s, Ticks(|RecoveryWrites(start, d)| - k))
    ensures After(start, s, Ticks(|RecoveryWrites(start, d)| - k)) ==
            State(Recovered(start, d), Up, ReadHeader(d[start]).Cleared(), [], map[], s.groups)
    decreases |RecoveryWrites(start, d)| - k
  {
    hide RecoveryWrites, Apply, Put, ReadHeader;
    var ws := RecoveryWrites(start, d);
    var t := Next(start, s, Tick);
    var es := Ticks(|ws| - k);
    assert es[0] == Tick && es[1..] == Ticks(|ws| - k - 1);
    ApplyStep(d, ws, k);
    assert ws[..|ws|] == ws;
    if k + 1 < |ws| { ReplayTicks(start, t, d, k + 1); }
  }

  /** When the last operation ends, the writes of the cache and the device they leave are those of the
      machine's commit. */
  lemma EndMatches(start: nat, s: State, k: nat, dev: Disk, h: Header, c: seq<Block>, after: Disk)
    requires Pictured(s, dev, h, c) && s.phase.Up? && |s.ops| == 1 && Enabled(start, s, End(0))
    requires after == Apply(dev, CommitWrites(start, h, GroupOf(h, c)))
    ensures var t := Next(start, s, End(0));
            var n := |CommitWrites(start, h, GroupOf(h, c))|;
            && Runs(start, t, Ticks(n)) && var z := After(start, t, Ticks(n));
               z.disk == after && z.phase == Up && z.hdr == h.Cleared() && z.ops == [] && z.dirty == map[]
  {
    hide CommitWrites, Apply, Put;
    var t := Next(start, s, End(0));
    GroupIs(s, dev, h, c);
    SameGroup(s, t);
    ApplyNone(dev, CommitWrites(start, h, Group(t))[..0]);
    CommitWritesLength(start, h, Group(t));
    CommitTicks(start, t, dev, 0);
  }

  // ---------- runs in a row ----------

  lemma {:induction false} RunsOn(start: nat, s: State, es: seq<Event>, fs: seq<Event>)
    requires Runs(start, s, es) && Runs(start, After(start, s, es), fs)
    ensures Runs(start, s, es + fs) && After(start, s, es + fs) == After(start, After(start, s, es), fs)
    decreases es
  {
    hide Enabled, Next;
    if es == [] {
      assert es + fs == fs;
    } else {
      assert (es + fs)[1..] == es[1..] + fs;
      RunsOn(start, Next(start, s, es[0]), es[1..], fs);
    }
  }

  lemma NoEvent(start: nat, s: State)
    ensures Runs(start, s, []) && After(start, s, []) == s
  {
  }

  lemma OneStep(start: nat, s: State, e: Event)
    requires Enabled(start, s, e)
    ensures Runs(start, s, [e]) && After(start, s, [e]) == Next(start, s, e)
  {
    hide Enabled, Next;
    assert [e][1..] == [];
  }

  // ---------- the cache and the machine, call by call ----------

  /** Nobody is in the middle of a call, and the cache is what the machine says. */
  ghost predicate Matches(cache: Bcache, ctxs: seq<OpContext>, s: State)
    reads cache, ctxs
  {
    && cache.Valid() && !cache.committing && s.phase.Up? && Pictured(s, cache.dev, cache.hdr, cache.Contents())
    && cache.outstanding == |s.ops| == |ctxs| && (forall b :: !Held(cache.lru, b))
    && (forall k :: 0 <= k < |ctxs| ==> ctxs[k].rm == s.ops[k].rm)
    && (forall j, k :: 0 <= j < k < |ctxs| ==> ctxs[j] != ctxs[k])
  }

  predicate IdsBelow(ops: seq<Op>, n: nat) { forall j :: 0 <= j < |ops| ==> ops[j].id < n }

  /** `init_bcache` after power came back: the machine boots and recovers, write by write. */
  method PowerOn(start: nat, bitmapStart: nat, numBlocks: nat, disk: Disk, ghost s: State)
    returns (cache: Bcache, ghost es: seq<Event>)
    requires GoodDisk(start, disk) && |disk| <= Pow256(8) && s.phase.Off? && s.disk == disk && s.ops == []
        && s.dirty == map[]
    ensures fresh(cache) && cache.start == start && Runs(start, s, es) && Matches(cache, [], After(start, s, es))
    ensures es == [Boot] + Ticks(|RecoveryWrites(start, disk)|) && cache.writes == RecoveryWrites(start, disk)
  {
    hide View, Views, Coherent, Held, Apply, Recovered, RecoveryWrites, ReadHeader, Bcache.Tidy;
    cache := new Bcache(start, bitmapStart, numBlocks, disk);
    ghost var t := Next(start, s, Boot);
    OneStep(start, s, Boot);
    ApplyNone(disk, RecoveryWrites(start, disk)[..0]);
    SomeWrites(start, disk);
    ReplayTicks(start, t, disk, 0);
    es := [Boot] + Ticks(|RecoveryWrites(start, disk)|);
    RunsOn(start, s, [Boot], Ticks(|RecoveryWrites(start, disk)|));
    TidyHeader(cache);
  }

  lemma SomeWrites(start: nat, disk: Disk)
    requires GoodDisk(start, disk)
    ensures |RecoveryWrites(start, disk)| > 0
  {
  }

  lemma TidyHeader(cache: Bcache)
    requires cache.Valid()
    ensures cache.start + LOG_MAX_SIZE < |cache.dev| <= Pow256(8) && |cache.hdr.nos| == LOG_MAX_SIZE
        && cache.hdr.num <= LOG_MAX_SIZE
    ensures cache.pins == Pins(cache.hdr)
    ensures forall b :: b in cache.pins ==> b < |cache.dev| && !InLog(cache.start, b)
  {
  }

  /** One attempt to begin an operation: admitted exactly if the machine admits it. */
  method BeginMatches(cache: Bcache, ctxs: seq<OpContext>, id: nat, ghost s: State)
    returns (admitted: bool, more: seq<OpContext>, ghost es: seq<Event>)
    requires Matches(cache, ctxs, s) && IdsBelow(s.ops, id)
    modifies cache`outstanding
    ensures admitted <==> Admits(s)
    ensures es == (if admitted then [Begin(id)] else []) && Runs(cache.start, s, es)
    ensures Matches(cache, more, After(cache.start, s, es)) && (!admitted ==> more == ctxs)
    ensures IdsBelow(After(cache.start, s, es).ops, id + 1)
    ensures forall c :: c in more ==> c in ctxs || fresh(c)
  {
    hide View, Views, Coherent, Held, GoodHeader, Pins, Bcache.Tidy, Runs, After;
    NoEvent(cache.start, s);
    var ctx := new OpContext();
    admitted := cache.TryBeginOp(ctx);
    more, es := ctxs, [];
    if admitted {
      OneStep(cache.start, s, Begin(id));
      more, es := ctxs + [ctx], [Begin(id)];
    }
  }

  lemma SyncPictured(start: nat, s: State, k: nat, b: nat, data: Block, dev: Disk, h: Header, c: seq<Block>)
    requires Pictured(s, dev, h, c) && s.phase.Up? && k < |s.ops| && b < |dev| == |c| && !InLog(start, b)
    ensures Panics(s, Sync(k, b, data)) <==> b !in Pins(h) && (s.ops[k].rm == 0 || h.num == LOG_MAX_SIZE)
    ensures !Panics(s, Sync(k, b, data)) ==>
              && Enabled(start, s, Sync(k, b, data))
              && var t := Next(start, s, Sync(k, b, data));
                 && t.phase == s.phase && Pictured(t, dev, if b in Pins(h) then h else Listing(h, b), c[b := data])
                 && (if b in Pins(h) then t.ops == s.ops else t.ops == s.ops[k := s.ops[k].(rm := s.ops[k].rm - 1)])
  {
    PinsAreListed(h, b);
    if !Panics(s, Sync(k, b, data)) && b !in Pins(h) { PinsListing(h, b); }
  }

  lemma IdsSame(ops: seq<Op>, now: seq<Op>)
    requires |now| == |ops| && forall j :: 0 <= j < |ops| ==> now[j].id == ops[j].id
    ensures forall n :: IdsBelow(ops, n) ==> IdsBelow(now, n)
  {
  }

  /** What a caller does with one block: acquire, overwrite, sync and release. */
  method LogBlock(cache: Bcache, ctx: OpContext, b: nat, data: Block) returns (panics: bool)
    requires cache.Valid() && b < |cache.dev| && !InLog(cache.start, b) && forall c :: !Held(cache.lru, c)
    modifies cache`lru, cache`count, cache`hdr, cache`pins, ctx
    ensures panics <==> b !in old(Pins(cache.hdr)) && (old(ctx.rm) == 0 || old(cache.hdr.num) == LOG_MAX_SIZE)
    ensures !panics ==>
              && cache.Valid() && (forall c :: !Held(cache.lru, c))
                && cache.Contents() == old(cache.Contents())[b := data]
              && ctx.rm == old(ctx.rm) - (if b in old(Pins(cache.hdr)) then 0 else 1)
              && cache.hdr == if b in old(Pins(cache.hdr)) then old(cache.hdr) else Listing(old(cache.hdr), b)
  {
    hide View, Views, Coherent, Held, GoodHeader, Pins, Bcache.Tidy, Acquired, SameNumbers, Listing;
    TidyHeader(cache);
    cache.Acquire(b);
    cache.Fill(b, data);
    panics := cache.SyncLogged(ctx, b);
    if panics { return; }
    cache.Release(b);
  }

  /** An operation takes a block, changes it, logs it and releases it: this panics exactly if the machine
      panics. */
  method StoreMatches(cache: Bcache, ctxs: seq<OpContext>, k: nat, b: nat, data: Block, ghost s: State)
    returns (panics: bool, ghost es: seq<Event>)
    requires Matches(cache, ctxs, s) && k < |ctxs| && b < |cache.dev| && !InLog(cache.start, b)
    modifies cache`lru, cache`count, cache`hdr, cache`pins, ctxs[k]
    ensures panics <==> Panics(s, Sync(k, b, data))
    ensures !panics ==>
              es == [Sync(k, b, data)] && Runs(cache.start, s, es) && Matches(cache, ctxs, After(cache.start, s, es))
    ensures !panics ==> forall n :: IdsBelow(s.ops, n) ==> IdsBelow(After(cache.start, s, es).ops, n)
  {
    hide View, Views, Coherent, Held, GoodHeader, Pins, Bcache.Valid, Pictured, Next, Panics, Enabled, Listing,
      IdsBelow;
    SyncPictured(cache.start, s, k, b, data, cache.dev, cache.hdr, cache.Contents());
    panics := LogBlock(cache, ctxs[k], b, data);
    es := [Sync(k, b, data)];
    if panics { return; }
    OneStep(cache.start, s, Sync(k, b, data));
    IdsSame(s.ops, After(cache.start, s, es).ops);
  }

  lemma PicturedShape(s: State, dev: Disk, h: Header, c: seq<Block>)
    requires Pictured(s, dev, h, c)
    ensures |h.nos| == LOG_MAX_SIZE && s.hdr == h && s.disk == dev
  {
  }

  /** The machine's side of the end of an operation. */
  lemma EndRuns(start: nat, s: State, k: nat, dev: Disk, h: Header, c: seq<Block>) returns (es: seq<Event>)
    requires Pictured(s, dev, h, c) && s.phase.Up? && k < |s.ops|
    ensures Runs(start, s, es) && forall n :: IdsBelow(s.ops, n) ==> IdsBelow(After(start, s, es).ops, n)
    ensures |s.ops| > 1 ==> es == [End(k)] && After(start, s, es) == s.(ops := Drop(s.ops, k))
    ensures |s.ops| == 1 ==>
              var ws := CommitWrites(start, h, GroupOf(h, c));
              && es == [End(k)] + Ticks(|ws|)
              && var t := After(start, s, es);
                 t.disk == Apply(dev, ws) && t.phase == Up && t.hdr == h.Cleared() && t.ops == [] && t.dirty == map[]
  {
    hide CommitWrites, Apply, GroupOf, Pictured;
    es := [End(k)];
    PicturedShape(s, dev, h, c);
    OneStep(start, s, End(k));
    if |s.ops| == 1 {
      var ws := CommitWrites(start, h, GroupOf(h, c));
      EndMatches(start, s, 0, dev, h, c, Apply(dev, ws));
      RunsOn(start, s, [End(0)], Ticks(|ws|));
      es := [End(0)] + Ticks(|ws|);
    }
  }

  /** An operation ends; the last one commits, write by write. */
  method EndMatchesCall(cache: Bcache, ctxs: seq<OpContext>, k: nat, ghost s: State)
    returns (rest: seq<OpContext>, ghost es: seq<Event>)
    requires Matches(cache, ctxs, s) && k < |ctxs|
    modifies cache
    ensures rest == ctxs[..k] + ctxs[k + 1..] && Runs(cache.start, s, es)
        && Matches(cache, rest, After(cache.start, s, es))
    ensures (forall n :: IdsBelow(s.ops, n) ==> IdsBelow(After(cache.start, s, es).ops, n)) && forall c ::
        c in rest ==> c in ctxs
    ensures |ctxs| > 1 ==> es == [End(k)]
    ensures |ctxs| == 1 ==>
              var ws := CommitWrites(cache.start, old(cache.hdr), GroupOf(old(cache.hdr), old(cache.Contents())));
              es == [End(k)] + Ticks(|ws|) && cache.writes == old(cache.writes) + ws
  {
    hide View, Views, Coherent, Held, GoodHeader, Pins, CommitWrites, GroupOf, Apply, Bcache.Tidy, IdsBelow, Ticks,
      Runs, After;
    TidyHeader(cache);
    es := EndRuns(cache.start, s, k, cache.dev, cache.hdr, cache.Contents());
    NoPins(cache.hdr);
    var panics := cache.EndOp();
    assert !panics;
    rest := ctxs[..k] + ctxs[k + 1..];
    TidyHeader(cache);
  }

  lemma NoPins(h: Header)
    requires |h.nos| == LOG_MAX_SIZE
    ensures Pins(h.Cleared()) == {}
  {
  }

  // ---------- any run of calls ----------

  datatype Call = Start | Store(k: nat, b: nat, data: Block) | Finish(k: nat)

  /** Any sequence of calls is a run of the machine, so everything that holds of its runs holds of the
      cache.  Calls nobody can make are passed over: by an operation that is not running, or on a block
      that is not on the disk or lies in the log.  `panics` if one of the assertions stops the program. */
  method Serve(cache: Bcache, calls: seq<Call>, ghost s: State)
      returns (ctxs: seq<OpContext>, panics: bool, ghost es: seq<Event>)
    requires Matches(cache, [], s)
    modifies cache
    ensures Runs(cache.start, s, es)
    ensures !panics ==> Matches(cache, ctxs, After(cache.start, s, es))
    ensures panics ==> exists k, b, data :: Panics(After(cache.start, s, es), Sync(k, b, data))
  {
    hide View, Views, Coherent, Held, GoodHeader, Pins, Bcache.Tidy, Pictured, Next, Enabled, Panics;
    ctxs, panics, es := [], false, [];
    var i := 0;
    while i < |calls|
      invariant 0 <= i <= |calls| && Runs(cache.start, s, es) && Matches(cache, ctxs, After(cache.start, s, es))
      invariant IdsBelow(After(cache.start, s, es).ops, i)
      invariant forall c :: c in ctxs ==> fresh(c)
    {
      ghost var t := After(cache.start, s, es);
      ghost var fs := [];
      match calls[i] {
        case Start =>
          var admitted;
          admitted, ctxs, fs := BeginMatches(cache, ctxs, i, t);
        case Store(k, b, data) =>
          if k < |ctxs| && b < |cache.dev| && !InLog(cache.start, b) {
            assert ctxs[k] in ctxs;
            panics, fs := StoreMatches(cache, ctxs, k, b, data, t);
            if panics { return; }
          }
        case Finish(k) =>
          if k < |ctxs| {
            ctxs, fs := EndMatchesCall(cache, ctxs, k, t);
          }
      }
      RunsOn(cache.start, s, es, fs);
      es := es + fs;
      i := i + 1;
    }
  }
}
