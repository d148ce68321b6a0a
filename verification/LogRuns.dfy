/**
 Whole runs of the log layer: operations begin, log blocks and end in any interleaving, a commit
 and a recovery advance by one device write at a time, and the machine may lose power between
 any two of these steps.
 */
module LogRuns {
  import opened Bytes
  import opened Wal

  /** A running operation and the number of new blocks it may still log. */
  datatype Op = Op(id: nat, rm: nat)

  datatype Phase =
    | Up                                  // operations may run
    | Commit(before: Disk, done: nat)     // `committing` is set; `done` writes have reached the disk
    | Off                                 // no power
    | Replay(before: Disk, done: nat)     // `init_log` is running

  /** `dirty` holds the cached contents of the pinned blocks; `groups` is the history of the
      groups whose header has reached the disk. */
  datatype State = State(disk: Disk, phase: Phase, hdr: Header, ops: seq<Op>, dirty: map<nat, Block>,
                         groups: seq<seq<Write>>)

  datatype Event =
    | Begin(id: nat)
    | Sync(k: nat, b: nat, data: Block)   // the k-th running operation logs block b
    | End(k: nat)
    | Tick                                // one device write of a commit or of a recovery
    | Crash
    | Boot

  predicate ListedIn(h: Header, b: nat) {
    exists i :: 0 <= i < h.num && i < |h.nos| && h.nos[i] == b
  }

  /** What the header and the pinned blocks say is to be committed. */
  function Group(s: State): seq<Write> {
    seq(s.hdr.num, i requires 0 <= i < s.hdr.num =>
      if i < |s.hdr.nos| && s.hdr.nos[i] in s.dirty then Write(s.hdr.nos[i], s.dirty[s.hdr.nos[i]])
      else Write(0, ZeroBlock()))
  }

  function Idle(h: Header): Header {
    if |h.nos| == LOG_MAX_SIZE then h.Cleared() else h
  }

  function Drop(ops: seq<Op>, k: nat): seq<Op>
    requires k < |ops|
  {
    ops[..k] + ops[k + 1..]
  }

  /** The admission test of `cache_begin_op`. */
  predicate Admits(s: State) {
    s.phase.Up? && s.hdr.num + (|s.ops| + 1) * OP_MAX_NUM_BLOCKS <= LOG_MAX_SIZE
  }

  /** Calls that the program's own assertions stop. */
  predicate Panics(s: State, e: Event) {
    match e
    case Sync(k, b, _) =>
      k < |s.ops| && !ListedIn(s.hdr, b) && (s.ops[k].rm == 0 || s.hdr.num >= LOG_MAX_SIZE)
    case End(k) => k < |s.ops| && s.phase.Commit?
    case _ => false
  }

  predicate Enabled(start: nat, s: State, e: Event) {
    match e
    case Begin(id) => Admits(s) && forall i :: 0 <= i < |s.ops| ==> s.ops[i].id != id
    case Sync(k, b, _) =>
      && !s.phase.Off? && !s.phase.Replay? && k < |s.ops| && b < |s.disk| && !InLog(start, b) && !Panics(s, e)
    case End(k) => !s.phase.Off? && !s.phase.Replay? && k < |s.ops| && !Panics(s, e)
    case Tick =>
      match s.phase {
        case Commit(_, done) => |s.hdr.nos| == LOG_MAX_SIZE && done < |CommitWrites(start, s.hdr, Group(s))|
        case Replay(d, done) =>
          start + LOG_MAX_SIZE < |d| && ReadHeader(d[start]).num <= LOG_MAX_SIZE && done < |RecoveryWrites(start, d)|
        case _ => false
      }
    case Crash => true
    case Boot => s.phase.Off?
  }

  function Next(start: nat, s: State, e: Event): State
    requires Enabled(start, s, e)
  {
    match e
    case Begin(id) => s.(ops := s.ops + [Op(id, OP_MAX_NUM_BLOCKS)])
    case Sync(k, b, data) =>
      var t := s.(dirty := s.dirty[b := data]);
      if ListedIn(s.hdr, b) || s.hdr.num >= |s.hdr.nos| then t
      else t.(hdr := Header(s.hdr.num + 1, s.hdr.nos[s.hdr.num := b]),
              ops := s.ops[k := s.ops[k].(rm := s.ops[k].rm - 1)])
    case End(k) =>
      var t := s.(ops := Drop(s.ops, k));
      if |t.ops| > 0 then t else t.(phase := Commit(s.disk, 0))
    case Tick =>
      (match s.phase
       case Commit(d, done) =>
         var g := Group(s);
         var ws := CommitWrites(start, s.hdr, g);
         var disk, groups := Put(s.disk, ws[done]), if done == |g| then s.groups + [g] else s.groups;
         if done + 1 < |ws| then s.(disk := disk, groups := groups, phase := Commit(d, done + 1))
         else State(disk, Up, s.hdr.Cleared(), [], map[], groups)
       case Replay(d, done) =>
         var ws := RecoveryWrites(start, d);
         var disk := Put(s.disk, ws[done]);
         if done + 1 < |ws| then s.(disk := disk, phase := Replay(d, done + 1))
         else State(disk, Up, ReadHeader(d[start]).Cleared(), [], map[], s.groups)
       case _ => s)
    case Crash => s.(phase := Off, ops := [], dirty := map[])
    case Boot => s.(phase := Replay(s.disk, 0))
  }

  // ---------- the invariant ----------

  function SumRm(ops: seq<Op>): nat {
    if ops == [] then 0 else ops[0].rm + SumRm(ops[1..])
  }

  /** The home blocks after the given groups, each applied whole, in order. */
  function Durable(base: Disk, groups: seq<seq<Write>>): (d: Disk)
    ensures |d| == |base|
  {
    if groups == [] then base else Apply(Durable(base, groups[..|groups| - 1]), groups[|groups| - 1])
  }

  /** The in-memory header: room is reserved for every running operation, entries are distinct
      home blocks, and exactly these blocks are pinned. */
  ghost predicate Reserved(start: nat, s: State) {
    && GoodHeader(start, |s.disk|, s.hdr)
    && s.hdr.num + SumRm(s.ops) <= LOG_MAX_SIZE
    && (forall i :: 0 <= i < |s.ops| ==> s.ops[i].rm <= OP_MAX_NUM_BLOCKS)
    && (forall i, j :: 0 <= i < j < |s.ops| ==> s.ops[i].id != s.ops[j].id)
    && (forall b :: b in s.dirty <==> ListedIn(s.hdr, b))
  }

  ghost predicate Inv(start: nat, base: Disk, s: State) {
    && |s.disk| == |base| <= Pow256(8) && GoodDisk(start, s.disk)
    && SameHome(start, Recovered(start, s.disk), Durable(base, s.groups))
    && match s.phase {
         case Up => Reserved(start, s) && ReadHeader(s.disk[start]).num == 0
         case Commit(d, done) =>
           && Reserved(start, s) && s.ops == []
           && CommitOk(start, d, s.hdr, Group(s)) && |d| == |s.disk|
           && done < |CommitWrites(start, s.hdr, Group(s))|
           && s.disk == Apply(d, CommitWrites(start, s.hdr, Group(s))[..done])
           && (done <= |Group(s)| ==> SameHome(start, d, Durable(base, s.groups)))
           && (done > |Group(s)| ==>
                 && SameHome(start, Apply(d, Group(s)), Durable(base, s.groups))
                 && s.groups != [] && s.groups[|s.groups| - 1] == Group(s))
         case Off => true
         case Replay(d, done) =>
           && GoodDisk(start, d) && |d| == |s.disk| && done < |RecoveryWrites(start, d)|
           && s.disk == Apply(d, RecoveryWrites(start, d)[..done])
           && SameHome(start, Recovered(start, d), Durable(base, s.groups))
       }
  }

  // ---------- sums and groups ----------

  lemma {:induction false} SumAppend(a: seq<Op>, b: seq<Op>)
    ensures SumRm(a + b) == SumRm(a) + SumRm(b)
  {
    if a == [] {
      assert a + b == b;
    } else {
      SumAppend(a[1..], b);
      assert (a + b)[1..] == a[1..] + b;
    }
  }

  lemma SumSplit(ops: seq<Op>, k: nat)
    requires k < |ops|
    ensures SumRm(ops) == SumRm(ops[..k]) + ops[k].rm + SumRm(ops[k + 1..])
    ensures SumRm(Drop(ops, k)) == SumRm(ops[..k]) + SumRm(ops[k + 1..])
  {
    assert ops == ops[..k] + ([ops[k]] + ops[k + 1..]);
    SumAppend(ops[..k], [ops[k]] + ops[k + 1..]);
    SumAppend([ops[k]], ops[k + 1..]);
    SumAppend(ops[..k], ops[k + 1..]);
  }

  lemma SumUpdate(ops: seq<Op>, k: nat, op: Op)
    requires k < |ops|
    ensures SumRm(ops[k := op]) == SumRm(ops) - ops[k].rm + op.rm
  {
    SumSplit(ops, k);
    SumSplit(ops[k := op], k);
    assert ops[k := op][..k] == ops[..k] && ops[k := op][k + 1..] == ops[k + 1..];
  }

  lemma {:induction false} SumBound(ops: seq<Op>, m: nat)
    requires forall i :: 0 <= i < |ops| ==> ops[i].rm <= m
    ensures SumRm(ops) <= |ops| * m
  {
    if ops != [] { SumBound(ops[1..], m); }
  }

  /** The header and the pinned blocks describe a proper group. */
  lemma GroupOk(start: nat, s: State)
    requires Reserved(start, s)
    ensures IsGroup(start, |s.disk|, Group(s)) && Lists(s.hdr, Group(s))
    ensures forall b :: b in s.dirty ==> exists i :: 0 <= i < |Group(s)| && Group(s)[i] == Write(b, s.dirty[b])
  {
    hide GoodHeader, Group, ListedIn, SumRm, Header.Fits;
    ReservedHeader(start, s);
    forall i | 0 <= i < s.hdr.num
      ensures |Group(s)| == s.hdr.num && s.hdr.nos[i] in s.dirty
      ensures Group(s)[i] == Write(s.hdr.nos[i], s.dirty[s.hdr.nos[i]])
    {
      GroupAt(s, i);
    }
    GroupLength(s);
    forall b | b in s.dirty ensures exists i :: 0 <= i < |Group(s)| && Group(s)[i] == Write(b, s.dirty[b]) {
      var i := PlaceIn(s.hdr, b);
      assert Group(s)[i] == Write(b, s.dirty[b]);
    }
  }

  lemma ReservedHeader(start: nat, s: State)
    requires Reserved(start, s)
    ensures s.hdr.Fits() && s.hdr.num <= LOG_MAX_SIZE && |s.hdr.nos| == LOG_MAX_SIZE
    ensures forall i, j :: 0 <= i < j < s.hdr.num ==> s.hdr.nos[i] != s.hdr.nos[j]
    ensures forall i :: 0 <= i < s.hdr.num ==> s.hdr.nos[i] < |s.disk| && !InLog(start, s.hdr.nos[i])
  {
  }

  lemma GroupLength(s: State)
    ensures |Group(s)| == s.hdr.num
  {
  }

  lemma GroupAt(s: State, i: nat)
    requires i < s.hdr.num <= |s.hdr.nos| && forall b :: b in s.dirty <==> ListedIn(s.hdr, b)
    ensures |Group(s)| == s.hdr.num && s.hdr.nos[i] in s.dirty
    ensures Group(s)[i] == Write(s.hdr.nos[i], s.dirty[s.hdr.nos[i]])
  {
    assert ListedIn(s.hdr, s.hdr.nos[i]);
  }

  lemma PlaceIn(h: Header, b: nat) returns (i: nat)
    requires ListedIn(h, b)
    ensures i < h.num && i < |h.nos| && h.nos[i] == b
  {
    i :| 0 <= i < h.num && i < |h.nos| && h.nos[i] == b;
  }

  // ---------- every step keeps the invariant ----------

  lemma SyncKeeps(start: nat, base: Disk, s: State, k: nat, b: nat, data: Block)
    requires Inv(start, base, s) && Enabled(start, s, Sync(k, b, data))
    ensures s.phase.Up? && Inv(start, base, Next(start, s, Sync(k, b, data)))
  {
    hide Durable, Recovered, ReadHeader, SumRm;
    var t := Next(start, s, Sync(k, b, data));
    if !ListedIn(s.hdr, b) {
      SumUpdate(s.ops, k, s.ops[k].(rm := s.ops[k].rm - 1));
      SumSplit(s.ops, k);
      var n := s.hdr.num;
      forall c ensures ListedIn(t.hdr, c) <==> ListedIn(s.hdr, c) || c == b {
        if ListedIn(s.hdr, c) {
          var i :| 0 <= i < n && s.hdr.nos[i] == c;
          assert t.hdr.nos[i] == c;
        }
        assert t.hdr.nos[n] == b;
      }
    }
  }

  lemma BeginKeeps(start: nat, base: Disk, s: State, id: nat)
    requires Inv(start, base, s) && Enabled(start, s, Begin(id))
    ensures Inv(start, base, Next(start, s, Begin(id)))
  {
    hide Durable, Recovered, ReadHeader;
    SumAppend(s.ops, [Op(id, OP_MAX_NUM_BLOCKS)]);
    SumBound(s.ops, OP_MAX_NUM_BLOCKS);
  }

  lemma EndKeeps(start: nat, base: Disk, s: State, k: nat)
    requires Inv(start, base, s) && Enabled(start, s, End(k))
    ensures Inv(start, base, Next(start, s, End(k)))
  {
    hide ReadHeader, CommitWrites, Apply, Recovered, Durable, Group, SumRm, ListedIn;
    SumSplit(s.ops, k);
    var t := Next(start, s, End(k));
    assert Group(t) == Group(s) by { SameGroup(s, t); }
    if |t.ops| == 0 {
      GroupOk(start, s);
      RecoverIdle(start, s.disk);
      CommitWritesLength(start, s.hdr, Group(s));
      ApplyNone(s.disk, CommitWrites(start, s.hdr, Group(s))[..0]);
    }
  }

  lemma SameGroup(s: State, t: State)
    requires s.hdr == t.hdr && s.dirty == t.dirty
    ensures Group(s) == Group(t)
  {
  }

  lemma CommitWritesLength(start: nat, h: Header, g: seq<Write>)
    requires |h.nos| == LOG_MAX_SIZE
    ensures |CommitWrites(start, h, g)| == 2 * |g| + 2
  {
  }

  lemma DurableStep(base: Disk, groups: seq<seq<Write>>, g: seq<Write>)
    ensures Durable(base, groups + [g]) == Apply(Durable(base, groups), g)
  {
    assert (groups + [g])[..|groups|] == groups;
  }

  lemma CommitTickKeeps(start: nat, base: Disk, s: State)
    requires Inv(start, base, s) && s.phase.Commit? && Enabled(start, s, Tick)
    ensures Inv(start, base, Next(start, s, Tick))
  {
    hide ReadHeader, CommitWrites, Durable, Apply, Recovered, GoodDisk, Next, Group, CommitOk, GoodHeader;
    var Commit(d, done) := s.phase;
    var g, ws, t := Group(s), CommitWrites(start, s.hdr, Group(s)), Next(start, s, Tick);
    CommitWritesLength(start, s.hdr, g);
    CommitTickIs(start, s);
    ApplyStep(d, ws, done);
    CommitPrefix(start, d, s.hdr, g, done + 1);
    if done == |g| {
      DurableStep(base, s.groups, g);
      CommitShape(start, d, s.hdr, g);
      SamePrefix(start, d, Durable(base, s.groups), g);
    }
    if done + 1 < |ws| {
      SameGroup(s, t);
      SameReserved(start, s, t);
    } else {
      IdleReserved(start, s, t);
    }
  }

  /** What one device write of a commit does to the state. */
  lemma CommitTickIs(start: nat, s: State)
    requires s.phase.Commit? && Enabled(start, s, Tick)
    ensures var t, g, ws := Next(start, s, Tick), Group(s), CommitWrites(start, s.hdr, Group(s));
            var done := s.phase.done;
            && t.disk == Put(s.disk, ws[done]) && t.groups == (if done == |g| then s.groups + [g] else s.groups)
            && if done + 1 < |ws| then t.phase == Commit(s.phase.before, done + 1) && t.hdr == s.hdr && t.ops == s.ops
              && t.dirty == s.dirty
               else t.phase == Up && t.hdr == s.hdr.Cleared() && t.ops == [] && t.dirty == map[]
  {
    hide CommitWrites, Group, Put;
  }

  lemma CommitShape(start: nat, d: Disk, h: Header, g: seq<Write>)
    requires CommitOk(start, d, h, g)
    ensures IsGroup(start, |d|, g)
  {
  }

  lemma SameReserved(start: nat, s: State, t: State)
    requires Reserved(start, s) && t.hdr == s.hdr && t.ops == s.ops && t.dirty == s.dirty && |t.disk| == |s.disk|
    ensures Reserved(start, t)
  {
  }

  lemma IdleReserved(start: nat, s: State, t: State)
    requires Reserved(start, s) && t.hdr == s.hdr.Cleared() && t.ops == [] && t.dirty == map[] && |t.disk| == |s.disk|
    ensures Reserved(start, t)
  {
    ClearedFits(s.hdr);
  }

  lemma ReplayTickKeeps(start: nat, base: Disk, s: State)
    requires Inv(start, base, s) && s.phase.Replay? && Enabled(start, s, Tick)
    ensures Inv(start, base, Next(start, s, Tick))
  {
    hide ReadHeader, Durable, Apply, Recovered, RecoveryWrites;
    var Replay(d, done) := s.phase;
    ApplyStep(d, RecoveryWrites(start, d), done);
    RecoveryPrefix(start, d, done + 1);
    ClearedFits(ReadHeader(d[start]));
  }

  lemma StepKeeps(start: nat, base: Disk, s: State, e: Event)
    requires Inv(start, base, s) && Enabled(start, s, e)
    ensures Inv(start, base, Next(start, s, e))
  {
    hide Durable, Recovered, ReadHeader, Apply;
    match e
    case Begin(id) => BeginKeeps(start, base, s, id);
    case Sync(k, b, data) => SyncKeeps(start, base, s, k, b, data);
    case End(k) => EndKeeps(start, base, s, k);
    case Tick => if s.phase.Commit? { CommitTickKeeps(start, base, s); } else { ReplayTickKeeps(start, base, s); }
    case Crash =>
    case Boot => ApplyNone(s.disk, RecoveryWrites(start, s.disk)[..0]);
  }

  /** In a reachable state the log is never full when an operation with budget left logs a new
      block, and nobody ends while a commit runs. */
  lemma NoPanic(start: nat, base: Disk, s: State, e: Event)
    requires Inv(start, base, s) && (s.phase.Up? || s.phase.Commit?)
    requires e.Sync? && e.k < |s.ops| ==> s.ops[e.k].rm > 0
    ensures !Panics(s, e)
  {
    hide ReadHeader, CommitWrites, Apply, Recovered, Durable, Group, SumRm, ListedIn, GoodDisk;
    match e
    case Sync(k, b, _) => if k < |s.ops| { SumSplit(s.ops, k); }
    case _ =>
  }

  /** While a commit runs no operation is outstanding, and every step up to its end leaves the
      in-memory header as it is. */
  lemma CommitFreezes(start: nat, base: Disk, s: State, e: Event)
    requires Inv(start, base, s) && s.phase.Commit? && Enabled(start, s, e)
    ensures s.ops == [] && (e.Tick? || e.Crash?)
    ensures Next(start, s, e).phase.Commit? ==> Next(start, s, e).hdr == s.hdr && Group(Next(start, s, e)) == Group(s)
  {
    hide Group, CommitWrites, Apply, Recovered, Durable, ReadHeader, GoodDisk, RecoveryWrites, Reserved;
    var t := Next(start, s, e);
    if t.phase.Commit? { SameGroup(s, t); }
  }

  // ---------- runs ----------

  predicate Runs(start: nat, s: State, es: seq<Event>)
    decreases es
  {
    es == [] || (Enabled(start, s, es[0]) && Runs(start, Next(start, s, es[0]), es[1..]))
  }

  function After(start: nat, s: State, es: seq<Event>): State
    requires Runs(start, s, es)
    decreases es
  {
    if es == [] then s else After(start, Next(start, s, es[0]), es[1..])
  }

  lemma {:induction false} RunKeeps(start: nat, base: Disk, s: State, es: seq<Event>)
    requires Inv(start, base, s) && Runs(start, s, es)
    ensures Inv(start, base, After(start, s, es))
    decreases es
  {
    if es != [] {
      StepKeeps(start, base, s, es[0]);
      RunKeeps(start, base, Next(start, s, es[0]), es[1..]);
    }
  }

  /** A machine that is off, with a disk whose log is empty. */
  ghost predicate Fresh(start: nat, s: State) {
    && s.phase.Off? && s.groups == [] && |s.disk| <= Pow256(8)
    && GoodDisk(start, s.disk) && ReadHeader(s.disk[start]).num == 0
  }

  /** Crash atomicity.  After any run from a fresh disk, with any number of power failures, also
      during recoveries, the next completed recovery leaves every home block as it is after a
      whole number of commit groups; and between commits the on-disk header counts no block. */
  lemma CrashAtomic(start: nat, s: State, es: seq<Event>)
    requires Fresh(start, s) && Runs(start, s, es)
    ensures var t := After(start, s, es);
            && GoodDisk(start, t.disk)
            && SameHome(start, Recovered(start, t.disk), Durable(s.disk, t.groups))
            && (t.phase.Up? ==>
                ReadHeader(t.disk[start]).num == 0 && SameHome(start, t.disk, Durable(s.disk, t.groups)))
  {
    hide Recovered, ReadHeader, Apply;
    RecoverIdle(start, s.disk);
    assert Durable(s.disk, []) == s.disk;
    RunKeeps(start, s.disk, s, es);
    if After(start, s, es).phase.Up? { RecoverIdle(start, After(start, s, es).disk); }
  }

  lemma GroupsGrow(start: nat, s: State, e: Event)
    requires Enabled(start, s, e)
    ensures s.groups <= Next(start, s, e).groups
  {
    hide Group, CommitWrites, RecoveryWrites, ReadHeader, ListedIn;
  }

  /** A group that was committed stays: later steps and crashes only add groups to the history. */
  lemma {:induction false} GroupsStay(start: nat, s: State, es: seq<Event>)
    requires Runs(start, s, es)
    ensures s.groups <= After(start, s, es).groups
    decreases es
  {
    hide Enabled, Next;
    if es != [] {
      GroupsGrow(start, s, es[0]);
      GroupsStay(start, Next(start, s, es[0]), es[1..]);
    }
  }

  ghost predicate OnDisk(d: Disk, m: map<nat, Block>) {
    forall b :: b in m ==> b < |d| && d[b] == m[b]
  }

  /** When a commit ends, its whole group is the newest of the history, so every block the ended
      operations logged has its last logged contents on its home block. */
  lemma CommitEnds(start: nat, base: Disk, s: State)
    requires Inv(start, base, s) && s.phase.Commit? && Enabled(start, s, Tick) && Next(start, s, Tick).phase.Up?
    ensures s.groups != [] && s.groups == Next(start, s, Tick).groups && s.groups[|s.groups| - 1] == Group(s)
    ensures OnDisk(Next(start, s, Tick).disk, s.dirty)
  {
    hide ReadHeader, CommitWrites, Apply, Recovered, Durable, GoodDisk, SumRm, Group, ListedIn, RecoveryWrites;
    var g, t := Group(s), Next(start, s, Tick);
    CommitWritesLength(start, s.hdr, g);
    GroupOk(start, s);
    CommitTickKeeps(start, base, s);
    var d := s.phase.before;
    ApplyStep(d, CommitWrites(start, s.hdr, g), s.phase.done);
    CommitPrefix(start, d, s.hdr, g, |CommitWrites(start, s.hdr, g)|);
    forall b | b in s.dirty ensures b < |s.disk| && t.disk[b] == s.dirty[b] {
      var i :| 0 <= i < |g| && g[i] == Write(b, s.dirty[b]);
      ApplyAt(d, g, i);
    }
  }
}
