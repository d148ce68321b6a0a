/** Whole runs of the scheduler: what holds in every reachable state, and fairness. */
module SchedRuns {
  import opened SchedModel
  import opened Sequences

  datatype Event =
    | Sched(cpu: nat, st: ProcState, next: nat)   // `sched(st)` on a CPU, which picks `next`
    | Activate(p: nat, onalert: bool)
    | Create(p: nat)
    | Kill(p: nat)
    | Reap(p: nat)

  /** The state from which `sched` picks. */
  function Waiting(s: Sys, c: nat, st: ProcState): Sys
    requires c < |s.cur| == |s.idle| && s.cur[c] in s.procs
  {
    Aged(Updated(s, c, st))
  }

  /** Whether `sched` gets as far as picking a process. */
  predicate Picks(s: Sys, e: Event) {
    e.Sched? && MaySched(s, e.cpu, e.st) && !Stays(s, e.cpu, e.st)
  }

  ghost predicate Enabled(s: Sys, e: Event) {
    match e
    case Sched(c, st, next) => MaySched(s, c, st) && (Stays(s, c, st) || Chosen(Waiting(s, c, st), c, next))
    case Activate(p, onalert) => p in s.procs
    case Create(p) => p !in s.procs && p !in s.rq
    case Kill(p) => p in s.procs
    case Reap(p) => p in s.procs && s.procs[p].state == ZOMBIE
  }

  function Next(s: Sys, e: Event): Sys {
    match e
    case Sched(c, st, next) =>
      if !MaySched(s, c, st) || Stays(s, c, st) then s
      else if next in s.procs then Switched(Waiting(s, c, st), c, next) else s
    case Activate(p, onalert) => if p in s.procs then Activated(s, p, onalert) else s
    case Create(p) => s.(procs := s.procs[p := Proc(UNUSED, 0, false)])
    case Kill(p) => if p in s.procs then s.(procs := s.procs[p := s.procs[p].(killed := true)]) else s
    case Reap(p) => s.(procs := s.procs - {p})
  }

  /** Every step keeps the invariant. */
  lemma StepKeeps(s: Sys, e: Event)
    requires Inv(s) && Enabled(s, e)
    ensures Inv(Next(s, e))
  {
    hide Shape, CpusOk, RunOk, QueueOk, Updated, Aged, Switched, Activated, Chosen;
    match e
    case Sched(c, st, next) =>
      if !Stays(s, c, st) { SchedKeeps(s, c, st, next); }
    case Activate(p, onalert) => ActivatedKeeps(s, p, onalert);
    case _ => OtherKeeps(s, e);
  }

  lemma OtherKeeps(s: Sys, e: Event)
    requires Inv(s) && Enabled(s, e) && (e.Create? || e.Kill? || e.Reap?)
    ensures Inv(Next(s, e))
  {
    hide Shape, CpusOk, RunOk, QueueOk;
    OtherShape(s, e);
    OtherRun(s, e);
    OtherQueue(s, e);
  }

  lemma OtherShape(s: Sys, e: Event)
    requires Shape(s) && CpusOk(s, -1) && Enabled(s, e) && (e.Create? || e.Kill? || e.Reap?)
    ensures Shape(Next(s, e)) && CpusOk(Next(s, e), -1)
  {
    hide Distinct;
  }

  lemma OtherRun(s: Sys, e: Event)
    requires RunOk(s, -1) && Enabled(s, e) && (e.Create? || e.Kill? || e.Reap?)
    ensures RunOk(Next(s, e), -1)
  {
    var t := Next(s, e);
    forall q | q in t.procs && t.procs[q].state == RUNNING ensures OnCpu(t, -1, q) { assert OnCpu(s, -1, q); }
  }

  lemma OtherQueue(s: Sys, e: Event)
    requires QueueOk(s) && Enabled(s, e) && (e.Create? || e.Kill? || e.Reap?)
    ensures QueueOk(Next(s, e))
  {
    hide Distinct;
  }

  /** Both assertions of `sched` hold, and the step ends in order. */
  lemma SchedKeeps(s: Sys, c: nat, st: ProcState, next: nat)
    requires Inv(s) && MaySched(s, c, st) && Chosen(Waiting(s, c, st), c, next)
    ensures s.procs[s.cur[c]].state == RUNNING && Ready(Waiting(s, c, st), next) && next in s.procs
    ensures Inv(Switched(Waiting(s, c, st), c, next))
  {
    hide Shape, RunOk, QueueOk, Switched, Chosen;
    UpdatedKeeps(s, c, st);
    AgedKeeps(Updated(s, c, st), c);
    ChosenReady(Waiting(s, c, st), c, next);
    SwitchedKeeps(Waiting(s, c, st), c, next);
  }

  /** Without the rule that an idle process only yields, the second assertion fails exactly when the
      idle process goes to sleep or exits and nobody is RUNNABLE. */
  lemma IdleMustYield(s: Sys, c: nat, st: ProcState, next: nat)
    requires Inv(s) && c < |s.cur| && s.cur[c] in s.procs && st != RUNNING && st != UNUSED
    requires Chosen(Waiting(s, c, st), c, next)
    ensures Ready(Waiting(s, c, st), next) <==>
              !(s.cur[c] == s.idle[c] && st != RUNNABLE && forall p :: p in s.rq ==> !Ready(s, p))
  {
    if s.cur[c] != s.idle[c] || st == RUNNABLE {
      SchedKeeps(s, c, st, next);
    } else {
      var u := Updated(s, c, st);
      var w := Aged(u);
      assert u.rq == s.rq == w.rq;
      assert forall p :: p in s.rq ==> p != s.cur[c] by { assert IsIdle(s, s.cur[c]); }
      assert forall p :: p in s.rq ==> (Ready(w, p) <==> Ready(s, p));
    }
  }

  // ---------- what a switch changes ----------

  lemma AgedEach(s: Sys)
    ensures var t := Aged(s);
            && t.procs.Keys == s.procs.Keys && t.rq == s.rq && t.cur == s.cur && t.idle == s.idle
            && forall p :: p in s.procs ==>
                 t.procs[p] == if p in s.rq && s.procs[p].state == RUNNABLE
                 then s.procs[p].(wait := s.procs[p].wait + 1) else s.procs[p]
  {
  }

  /** `next` is RUNNABLE and in the queue; those before it have waited less, those behind it not more. */
  ghost predicate FirstLongest(s: Sys, next: nat) {
    exists i :: 0 <= i < |s.rq| && next == s.rq[i] && Ready(s, next)
      && (forall j :: 0 <= j < i && Ready(s, s.rq[j]) ==> s.procs[s.rq[j]].wait < s.procs[next].wait)
      && (forall j :: i < j < |s.rq| && Ready(s, s.rq[j]) ==> s.procs[s.rq[j]].wait <= s.procs[next].wait)
  }

  lemma ChosenFirst(s: Sys, c: nat, r: nat)
    requires Chosen(s, c, r)
    ensures if exists p :: p in s.rq && Ready(s, p) then FirstLongest(s, r) else r == s.idle[c]
  {
  }

  /** From `s` to `t` the CPU has passed to `next`, its process has got the state it asked for, and of the
      others those that are waiting have waited for one more pick. */
  ghost predicate Passed(s: Sys, t: Sys, c: nat, st: ProcState, next: nat)
    requires c < |s.cur| == |s.idle|
  {
    PassedStates(s, t, c, st, next) && PassedQueue(s, t, c, st)
  }

  ghost predicate PassedStates(s: Sys, t: Sys, c: nat, st: ProcState, next: nat)
    requires c < |s.cur| == |s.idle|
  {
    var me := s.cur[c];
    && me in s.procs && t.procs.Keys == s.procs.Keys && next in t.procs
    && t.cur == s.cur[c := next] && t.idle == s.idle && t.procs[next].state == RUNNING
    && (next != me ==> t.procs[me].state == st)
    && (forall q :: q in s.procs && q != me && q != next ==> t.procs[q].state == s.procs[q].state)
    && (forall q :: q in s.procs ==> t.procs[q].killed == s.procs[q].killed)
  }

  ghost predicate PassedQueue(s: Sys, t: Sys, c: nat, st: ProcState)
    requires c < |s.cur| == |s.idle|
  {
    var me := s.cur[c];
    && me in s.procs && t.procs.Keys == s.procs.Keys
    && (forall q :: q in s.procs && q != me ==>
          t.procs[q].wait == s.procs[q].wait + if q in s.rq && s.procs[q].state == RUNNABLE then 1 else 0)
    && t.procs[me].wait == (if me != s.idle[c] && st == RUNNABLE then 1 else s.procs[me].wait)
    && t.rq == if me == s.idle[c] then s.rq else (if st == RUNNABLE then [me] else []) + Without(s.rq, me)
  }

  /** `next` comes from the queue and is the first that has waited longest, or is the idle process, if
      nobody in the queue was RUNNABLE. */
  ghost predicate Longest(t: Sys, c: nat, next: nat) {
    && c < |t.idle| && next in t.procs
    && if next == t.idle[c] then forall p :: p in t.rq ==> !Ready(t, p)
       else exists i :: 0 <= i < |t.rq| && next == t.rq[i]
              && (forall j :: 0 <= j < i && Ready(t, t.rq[j]) ==> t.procs[t.rq[j]].wait < t.procs[next].wait)
              && (forall j :: i < j < |t.rq| && Ready(t, t.rq[j]) ==> t.procs[t.rq[j]].wait <= t.procs[next].wait)
  }

  lemma SchedPasses(s: Sys, c: nat, st: ProcState, next: nat)
    requires Inv(s) && MaySched(s, c, st) && Chosen(Waiting(s, c, st), c, next) && next in s.procs
    ensures var t := Switched(Waiting(s, c, st), c, next); Passed(s, t, c, st, next) && Longest(t, c, next)
  {
    hide RunOk, QueueOk, Shape, CpusOk, Chosen, Passed, Updated, Aged, Longest, Switched;
    var u := Updated(s, c, st);
    UpdatedKeeps(s, c, st);
    AgedKeeps(u, c);
    RunningHere(s, c);
    UpdatedIs(s, c, st);
    AgedEach(u);
    SwitchPasses(s, u, Aged(u), c, st, next);
    ChosenLongest(Aged(u), c, next);
  }

  lemma RunningHere(s: Sys, c: nat)
    requires Inv(s) && c < |s.cur|
    ensures s.cur[c] in s.procs && s.procs[s.cur[c]].state == RUNNING && (s.cur[c] in s.rq <==> s.cur[c] != s.idle[c])
    ensures Without(s.rq, s.cur[c]) == s.rq || s.cur[c] != s.idle[c]
    ensures forall q :: q in Without(s.rq, s.cur[c]) <==> q in s.rq && q != s.cur[c]
  {
    hide Without;
    DistinctWithout(s.rq, s.cur[c]);
    if s.cur[c] == s.idle[c] {
      assert IsIdle(s, s.cur[c]);
      WithoutJoins(s.rq, s.cur[c], []);
    } else {
      assert !IsIdle(s, s.cur[c]);
    }
  }

  lemma UpdatedIs(s: Sys, c: nat, st: ProcState)
    requires c < |s.cur| == |s.idle| && s.cur[c] in s.procs && s.procs[s.cur[c]].state == RUNNING
    ensures var t, me := Updated(s, c, st), s.cur[c];
            && t.procs.Keys == s.procs.Keys && t.cur == s.cur && t.idle == s.idle
            && (forall q :: q in s.procs && q != me ==> t.procs[q] == s.procs[q])
            && t.procs[me].state == st && t.procs[me].killed == s.procs[me].killed
            && t.procs[me].wait == (if me != s.idle[c] && Live(st) then 0 else s.procs[me].wait)
            && t.rq == if me == s.idle[c] then s.rq else (if Live(st) then [me] else []) + Without(s.rq, me)
  {
    hide Without;
  }

  lemma SwitchPasses(s: Sys, u: Sys, w: Sys, c: nat, st: ProcState, next: nat)
    requires c < |s.cur| == |s.idle| && s.cur[c] in s.procs && st != RUNNING && next in s.procs
    requires forall q :: q in Without(s.rq, s.cur[c]) <==> q in s.rq && q != s.cur[c]
    requires (s.cur[c] in s.rq <==> s.cur[c] != s.idle[c]) && w == Aged(u)
    requires && u.procs.Keys == s.procs.Keys && u.cur == s.cur && u.idle == s.idle
             && (forall q :: q in s.procs && q != s.cur[c] ==> u.procs[q] == s.procs[q])
             && u.procs[s.cur[c]].state == st && u.procs[s.cur[c]].killed == s.procs[s.cur[c]].killed
             && u.procs[s.cur[c]].wait == (if s.cur[c] != s.idle[c] && Live(st) then 0 else s.procs[s.cur[c]].wait)
             && u.rq == if s.cur[c] == s.idle[c] then s.rq
                else (if Live(st) then [s.cur[c]] else []) + Without(s.rq, s.cur[c])
    ensures Passed(s, Switched(w, c, next), c, st, next)
  {
    hide Without, PassedStates, PassedQueue, Aged, Switched;
    SwitchStates(s, u, w, c, st, next);
    SwitchQueue(s, u, w, c, st, next);
  }

  lemma SwitchStates(s: Sys, u: Sys, w: Sys, c: nat, st: ProcState, next: nat)
    requires c < |s.cur| == |s.idle| && s.cur[c] in s.procs && st != RUNNING && next in s.procs
    requires forall q :: q in Without(s.rq, s.cur[c]) <==> q in s.rq && q != s.cur[c]
    requires (s.cur[c] in s.rq <==> s.cur[c] != s.idle[c]) && w == Aged(u)
    requires && u.procs.Keys == s.procs.Keys && u.cur == s.cur && u.idle == s.idle
             && (forall q :: q in s.procs && q != s.cur[c] ==> u.procs[q] == s.procs[q])
             && u.procs[s.cur[c]].state == st && u.procs[s.cur[c]].killed == s.procs[s.cur[c]].killed
             && u.procs[s.cur[c]].wait == (if s.cur[c] != s.idle[c] && Live(st) then 0 else s.procs[s.cur[c]].wait)
             && u.rq == if s.cur[c] == s.idle[c] then s.rq
                else (if Live(st) then [s.cur[c]] else []) + Without(s.rq, s.cur[c])
    ensures PassedStates(s, Switched(w, c, next), c, st, next)
  {
    hide Without;
  }

  lemma SwitchQueue(s: Sys, u: Sys, w: Sys, c: nat, st: ProcState, next: nat)
    requires c < |s.cur| == |s.idle| && s.cur[c] in s.procs && st != RUNNING && next in s.procs
    requires forall q :: q in Without(s.rq, s.cur[c]) <==> q in s.rq && q != s.cur[c]
    requires (s.cur[c] in s.rq <==> s.cur[c] != s.idle[c]) && w == Aged(u)
    requires && u.procs.Keys == s.procs.Keys && u.cur == s.cur && u.idle == s.idle
             && (forall q :: q in s.procs && q != s.cur[c] ==> u.procs[q] == s.procs[q])
             && u.procs[s.cur[c]].state == st && u.procs[s.cur[c]].killed == s.procs[s.cur[c]].killed
             && u.procs[s.cur[c]].wait == (if s.cur[c] != s.idle[c] && Live(st) then 0 else s.procs[s.cur[c]].wait)
             && u.rq == if s.cur[c] == s.idle[c] then s.rq
                else (if Live(st) then [s.cur[c]] else []) + Without(s.rq, s.cur[c])
    ensures PassedQueue(s, Switched(w, c, next), c, st)
  {
    hide Without;
  }

  lemma ChosenLongest(w: Sys, c: nat, next: nat)
    requires QueueOk(w) && Chosen(w, c, next) && next in w.procs && c < |w.cur|
    ensures Longest(Switched(w, c, next), c, next)
  {
    hide QueueOk;
    var t := Switched(w, c, next);
    assert forall q :: q != next ==> (Ready(t, q) <==> Ready(w, q));
    IdleNotQueued(w, c);
    ChosenFirst(w, c, next);
  }

  lemma IdleNotQueued(s: Sys, c: nat)
    requires QueueOk(s) && c < |s.idle|
    ensures s.idle[c] !in s.rq
  {
    assert IsIdle(s, s.idle[c]);
  }

  // ---------- runs ----------

  ghost predicate Runs(s: Sys, es: seq<Event>)
    decreases |es|
  {
    es == [] || (Enabled(s, es[0]) && Runs(Next(s, es[0]), es[1..]))
  }

  function After(s: Sys, es: seq<Event>): Sys
    decreases |es|
  {
    if es == [] then s else After(Next(s, es[0]), es[1..])
  }

  lemma {:induction false} RunKeeps(s: Sys, es: seq<Event>)
    requires Inv(s) && Runs(s, es)
    ensures Inv(After(s, es))
    decreases |es|
  {
    hide Inv, Next, Enabled;
    if es != [] {
      StepKeeps(s, es[0]);
      RunKeeps(Next(s, es[0]), es[1..]);
    }
  }

  /** `init_sched` */
  function Start(n: nat): Sys {
    Sys(Cpus(n), Cpus(n), map p | p in Cpus(n) :: Proc(RUNNING, 0, false), [])
  }

  function Cpus(n: nat): seq<nat> { seq(n, c => c) }

  /** In every reachable state each CPU runs its own process, and the queue is exact. */
  lemma Reachable(n: nat, es: seq<Event>)
    requires Runs(Start(n), es)
    ensures Inv(After(Start(n), es))
  {
    var s := Start(n);
    forall p | p in s.procs && s.procs[p].state == RUNNING ensures OnCpu(s, -1, p) { assert s.cur[p] == p; }
    RunKeeps(s, es);
  }

  // ---------- fairness ----------

  /** The other RUNNABLE processes that have waited at least as long. */
  ghost function Ahead(s: Sys, p: nat): set<nat>
    requires p in s.procs
  {
    set q | q in s.rq && q != p && Ready(s, q) && s.procs[q].wait >= s.procs[p].wait
  }

  /** A RUNNABLE process that has been through a pick. */
  ghost predicate Waited(s: Sys, p: nat) {
    Ready(s, p) && p in s.rq && s.procs[p].wait >= 1
  }

  /** A pick that passes `p` over takes one of those ahead of it, and puts nobody ahead of it. */
  lemma PickPasses(s: Sys, c: nat, st: ProcState, r: nat, p: nat)
    requires Inv(s) && MaySched(s, c, st) && Chosen(Waiting(s, c, st), c, r) && Waited(s, p) && r != p && r in s.procs
    ensures var t := Switched(Waiting(s, c, st), c, r);
            Waited(t, p) && r in Ahead(s, p) && Ahead(t, p) <= Ahead(s, p) - {r}
  {
    hide RunOk, QueueOk, Shape, Updated, Aged, Waiting;
    assert p != s.cur[c];
    WaitedMore(s, c, st, p);
    var w := Waiting(s, c, st);
    var t := Switched(w, c, r);
    forall q | q in w.rq && Ready(w, q) && q != p && w.procs[q].wait >= w.procs[p].wait ensures q in Ahead(s, p) {
      WaitedMore(s, c, st, q);
    }
    assert t.rq == w.rq && t.procs[p] == w.procs[p];
  }

  /** What the wait of a RUNNABLE process is when it comes to picking. */
  lemma WaitedMore(s: Sys, c: nat, st: ProcState, q: nat)
    requires Inv(s) && MaySched(s, c, st)
    ensures var w := Waiting(s, c, st);
            && w.cur == s.cur && w.idle == s.idle
            && (q in s.rq && Ready(s, q) ==> q in w.rq && Ready(w, q))
            && (q in w.rq && Ready(w, q) ==>
                  if q == s.cur[c] then w.procs[q].wait == 1
                  else q in s.rq && Ready(s, q) && w.procs[q].wait == s.procs[q].wait + 1)
  {
    hide RunOk, Without, Shape;
    DistinctWithout(s.rq, s.cur[c]);
  }

  lemma StepAhead(s: Sys, e: Event, p: nat)
    requires Inv(s) && Enabled(s, e) && Waited(s, p) && Ready(Next(s, e), p)
    ensures Waited(Next(s, e), p) && |Ahead(Next(s, e), p)| + (if Picks(s, e) then 1 else 0) <= |Ahead(s, p)|
  {
    hide Inv;
    var t := Next(s, e);
    if Picks(s, e) {
      SchedKeeps(s, e.cpu, e.st, e.next);
      PickPasses(s, e.cpu, e.st, e.next, p);
      Fewer(Ahead(t, p), Ahead(s, p), e.next);
    } else {
      OthersPass(s, e, p);
      Subset(Ahead(t, p), Ahead(s, p));
    }
  }

  lemma OthersPass(s: Sys, e: Event, p: nat)
    requires Inv(s) && Enabled(s, e) && Waited(s, p) && Ready(Next(s, e), p) && !Picks(s, e)
    ensures Waited(Next(s, e), p) && Ahead(Next(s, e), p) <= Ahead(s, p)
  {
  }

  /** A RUNNABLE process stops being RUNNABLE only by being picked. */
  lemma LeavesByPick(s: Sys, e: Event, p: nat)
    requires Inv(s) && Enabled(s, e) && Ready(s, p) && !IsIdle(s, p) && !Ready(Next(s, e), p)
    ensures Picks(s, e) && e.next == p && Next(s, e).cur[e.cpu] == p
  {
    hide RunOk, QueueOk, Without, Chosen;
    if Picks(s, e) {
      SchedKeeps(s, e.cpu, e.st, e.next);
      assert p != s.cur[e.cpu];
    }
  }

  lemma Fewer(a: set<nat>, b: set<nat>, r: nat)
    requires r in b && a <= b - {r}
    ensures |a| + 1 <= |b|
  {
    Subset(a, b - {r});
  }

  /** The number of picks in a run. */
  function CountPicks(s: Sys, es: seq<Event>): nat
    decreases |es|
  {
    if es == [] then 0 else (if Picks(s, es[0]) then 1 else 0) + CountPicks(Next(s, es[0]), es[1..])
  }

  /** `p` is RUNNABLE all along, that is, never picked. */
  predicate PassedOver(s: Sys, es: seq<Event>, p: nat)
    decreases |es|
  {
    Ready(s, p) && (es == [] || PassedOver(Next(s, es[0]), es[1..], p))
  }

  /** A RUNNABLE process that has waited is passed over by at most as many picks as there are others
      ahead of it: the next pick takes it. */
  lemma {:induction false} Fair(s: Sys, es: seq<Event>, p: nat)
    requires Inv(s) && Runs(s, es) && Waited(s, p) && PassedOver(s, es, p)
    ensures CountPicks(s, es) <= |Ahead(s, p)|
    decreases |es|
  {
    hide Inv, Next, Enabled, Picks, Waited;
    if es != [] {
      assert Ready(Next(s, es[0]), p);
      StepAhead(s, es[0], p);
      StepKeeps(s, es[0]);
      Fair(Next(s, es[0]), es[1..], p);
    }
  }

  // ---------- waking up ----------

  /** Whether `e` activates a process that is in state `st`. */
  predicate Wakes(e: Event, p: nat, st: ProcState) {
    e.Activate? && e.p == p && (st == SLEEPING || st == UNUSED || (st == DEEPSLEEPING && !e.onalert))
  }

  /** A process that is not RUNNABLE or RUNNING stays as it is until it is activated or reaped, and an alert
      does not wake a deep sleeper. */
  lemma StaysPut(s: Sys, e: Event, p: nat)
    requires Inv(s) && Enabled(s, e) && p in s.procs && !Live(s.procs[p].state)
    ensures if e == Reap(p) then p !in Next(s, e).procs
            else
              && p in Next(s, e).procs
              && Next(s, e).procs[p].state == if Wakes(e, p, s.procs[p].state) then RUNNABLE else s.procs[p].state
  {
    hide Shape, RunOk, QueueOk, Without, Chosen, Passed, Longest, Switched, Waiting;
    if Picks(s, e) {
      SchedKeeps(s, e.cpu, e.st, e.next);
      SchedPasses(s, e.cpu, e.st, e.next);
      PickedReady(s, e.cpu, e.st, e.next);
      IdlePassed(s, Next(s, e), e.cpu, e.st, e.next, p);
    }
  }

  lemma IdlePassed(s: Sys, t: Sys, c: nat, st: ProcState, next: nat, p: nat)
    requires c < |s.cur| == |s.idle| && Passed(s, t, c, st, next) && p in s.procs && p != s.cur[c] && p != next
    ensures p in t.procs && t.procs[p].state == s.procs[p].state
  {
    hide Without;
  }

  /** Nobody wakes up by himself: over a run without a waking event he stays in his state. */
  lemma {:induction false} SleepsOn(s: Sys, es: seq<Event>, p: nat)
    requires Inv(s) && Runs(s, es) && p in s.procs && !Live(s.procs[p].state)
    requires forall e :: e in es ==> e != Reap(p) && !Wakes(e, p, s.procs[p].state)
    ensures p in After(s, es).procs && After(s, es).procs[p].state == s.procs[p].state
    decreases |es|
  {
    hide Inv, Next, Enabled;
    if es != [] {
      assert es[0] in es && forall e :: e in es[1..] ==> e in es;
      StaysPut(s, es[0], p);
      StepKeeps(s, es[0]);
      SleepsOn(Next(s, es[0]), es[1..], p);
    }
  }

  /** A new process does not run before it is activated. */
  lemma NewWaits(s: Sys, es: seq<Event>, p: nat)
    requires Inv(s) && Runs(s, [Create(p)] + es) && forall e :: e in es ==> !(e.Activate? && e.p == p) && e != Reap(p)
    ensures var t := After(s, [Create(p)] + es); p in t.procs && t.procs[p].state == UNUSED
  {
    hide Inv, Enabled;
    assert ([Create(p)] + es)[1..] == es;
    StepKeeps(s, Create(p));
    SleepsOn(Next(s, Create(p)), es, p);
  }

  // ---------- killed processes ----------

  /** A killed process that runs goes on running until it exits. */
  lemma KilledStep(s: Sys, e: Event, p: nat)
    requires Inv(s) && Enabled(s, e) && p in s.procs && s.procs[p].killed && e != Reap(p)
    requires s.procs[p].state == RUNNING || s.procs[p].state == ZOMBIE
    ensures p in Next(s, e).procs && Next(s, e).procs[p].killed
    ensures var st := Next(s, e).procs[p].state;
            if s.procs[p].state == RUNNING && e.Sched? && s.cur[e.cpu] == p && e.st == ZOMBIE then st == ZOMBIE
            else st == s.procs[p].state
  {
    hide Shape, RunOk, QueueOk, Without, Chosen, Passed, Longest, Switched, Waiting;
    if Picks(s, e) {
      SchedKeeps(s, e.cpu, e.st, e.next);
      SchedPasses(s, e.cpu, e.st, e.next);
      PickedReady(s, e.cpu, e.st, e.next);
      KilledPassed(s, Next(s, e), e.cpu, e.st, e.next, p);
    }
  }

  lemma PickedReady(s: Sys, c: nat, st: ProcState, next: nat)
    requires Inv(s) && MaySched(s, c, st) && Chosen(Waiting(s, c, st), c, next)
    ensures next in s.procs && (next == s.cur[c] || s.procs[next].state == RUNNABLE)
    ensures next == s.cur[c] ==> st == RUNNABLE
  {
    hide Shape, RunOk, QueueOk, CpusOk, Chosen, Updated, Aged;
    SchedKeeps(s, c, st, next);
    RunningHere(s, c);
    UpdatedIs(s, c, st);
    AgedEach(Updated(s, c, st));
  }

  lemma KilledPassed(s: Sys, t: Sys, c: nat, st: ProcState, next: nat, p: nat)
    requires c < |s.cur| == |s.idle| && Passed(s, t, c, st, next) && p in s.procs && s.procs[p].killed
    requires (p == s.cur[c] ==> st == ZOMBIE) && (p == next ==> p == s.cur[c] && st == RUNNABLE)
    ensures p in t.procs && t.procs[p].killed
    ensures t.procs[p].state == if p == s.cur[c] then ZOMBIE else s.procs[p].state
  {
    hide Without;
  }

  /** Whatever happens after a RUNNING process was killed, it is RUNNING or has exited, until it is reaped. */
  lemma {:induction false} KilledForGood(s: Sys, es: seq<Event>, p: nat)
    requires Inv(s) && p in s.procs && s.procs[p].state == RUNNING && Runs(s, [Kill(p)] + es)
    requires forall e :: e in es ==> e != Reap(p)
    ensures var t := After(s, [Kill(p)] + es);
            p in t.procs && t.procs[p].killed && (t.procs[p].state == RUNNING || t.procs[p].state == ZOMBIE)
  {
    hide Inv, Enabled;
    assert ([Kill(p)] + es)[1..] == es;
    StepKeeps(s, Kill(p));
    KilledRun(Next(s, Kill(p)), es, p);
  }

  lemma {:induction false} KilledRun(s: Sys, es: seq<Event>, p: nat)
    requires Inv(s) && Runs(s, es) && p in s.procs && s.procs[p].killed
    requires s.procs[p].state == RUNNING || s.procs[p].state == ZOMBIE
    requires forall e :: e in es ==> e != Reap(p)
    ensures var t := After(s, es);
            p in t.procs && t.procs[p].killed && (t.procs[p].state == RUNNING || t.procs[p].state == ZOMBIE)
    decreases |es|
  {
    hide Inv, Next, Enabled;
    if es != [] {
      assert es[0] in es && forall e :: e in es[1..] ==> e in es;
      KilledStep(s, es[0], p);
      StepKeeps(s, es[0]);
      KilledRun(Next(s, es[0]), es[1..], p);
    }
  }
}
