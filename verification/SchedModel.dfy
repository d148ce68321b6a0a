/** The scheduler of `kernel/sched.c` on any number of CPUs, one locked region at a time. */
module SchedModel {
  import opened Sequences

  datatype ProcState = UNUSED | RUNNABLE | RUNNING | SLEEPING | DEEPSLEEPING | ZOMBIE

  datatype Proc = Proc(state: ProcState, wait: int, killed: bool)

  /** Per CPU its current and its idle process, all processes, and the run queue from its head on. */
  datatype Sys = Sys(cur: seq<nat>, idle: seq<nat>, procs: map<nat, Proc>, rq: seq<nat>)

  predicate IsIdle(s: Sys, p: nat) { p in s.idle }

  predicate Live(st: ProcState) { st == RUNNABLE || st == RUNNING }

  predicate Ready(s: Sys, p: nat) { p in s.procs && s.procs[p].state == RUNNABLE }

  /** CPUs and their idle processes. */
  ghost predicate Shape(s: Sys) {
    && |s.cur| == |s.idle| && Distinct(s.cur) && Distinct(s.idle)
    && (forall c :: 0 <= c < |s.idle| ==> s.idle[c] in s.procs && Live(s.procs[s.idle[c]].state))
    && (forall c :: 0 <= c < |s.cur| && IsIdle(s, s.cur[c]) ==> s.cur[c] == s.idle[c])
    && (forall p :: p in s.procs ==> s.procs[p].wait >= 0)
  }

  /** Each CPU but `hole` runs its current process. */
  ghost predicate CpusOk(s: Sys, hole: int) {
    forall c :: 0 <= c < |s.cur| && c != hole ==> s.cur[c] in s.procs && s.procs[s.cur[c]].state == RUNNING
  }

  ghost predicate OnCpu(s: Sys, hole: int, p: nat) { exists c :: 0 <= c < |s.cur| && c != hole && s.cur[c] == p }

  /** Every RUNNING process is the current one of some CPU other than `hole`. */
  ghost predicate RunOk(s: Sys, hole: int) {
    forall p :: p in s.procs && s.procs[p].state == RUNNING ==> OnCpu(s, hole, p)
  }

  /** The queue holds exactly the RUNNABLE and RUNNING processes that are not idle, each once. */
  ghost predicate QueueOk(s: Sys) {
    Distinct(s.rq) && forall p :: p in s.rq <==> p in s.procs && !IsIdle(s, p) && Live(s.procs[p].state)
  }

  /** In order, except that CPU `hole`, if any, is between two processes. */
  ghost predicate Ok(s: Sys, hole: int) { Shape(s) && CpusOk(s, hole) && RunOk(s, hole) && QueueOk(s) }

  ghost predicate Inv(s: Sys) { Ok(s, -1) }

  // ---------- the steps ----------

  function SetState(s: Sys, p: nat, st: ProcState): Sys
    requires p in s.procs
  {
    s.(procs := s.procs[p := s.procs[p].(state := st)])
  }

  /** `update_this_state` */
  function Updated(s: Sys, c: nat, st: ProcState): Sys
    requires c < |s.cur| == |s.idle| && s.cur[c] in s.procs
  {
    var p := s.cur[c];
    var s1 := if p != s.idle[c] && Live(s.procs[p].state) then s.(rq := Without(s.rq, p)) else s;
    var s2 := SetState(s1, p, st);
    if p != s.idle[c] && Live(st) then s2.(procs := s2.procs[p := s2.procs[p].(wait := 0)], rq := [p] + s2.rq) else s2
  }

  /** All RUNNABLE processes of the queue have waited for one more pick. */
  function Aged(s: Sys): Sys {
    s.(procs := map p | p in s.procs :: if p in s.rq && s.procs[p].state == RUNNABLE
      then s.procs[p].(wait := s.procs[p].wait + 1)
                                        else s.procs[p])
  }

  /** After aging: the first of the queue that has waited longest, or the idle process. */
  ghost predicate Chosen(s: Sys, c: nat, r: nat) {
    && c < |s.idle|
    && if exists p :: p in s.rq && Ready(s, p) then
         exists i :: 0 <= i < |s.rq| && r == s.rq[i] && Ready(s, r)
                     && (forall j :: 0 <= j < |s.rq| && Ready(s, s.rq[j]) ==>
                           s.procs[s.rq[j]].wait <= s.procs[r].wait
                             && (j < i ==> s.procs[s.rq[j]].wait < s.procs[r].wait))
       else r == s.idle[c]
  }

  function Switched(s: Sys, c: nat, r: nat): Sys
    requires r in s.procs && c < |s.cur|
  {
    SetState(s.(cur := s.cur[c := r]), r, RUNNING)
  }

  /** `sched(st)` on CPU `c`: a killed process that does not exit stays. */
  predicate Stays(s: Sys, c: nat, st: ProcState)
    requires c < |s.cur| && s.cur[c] in s.procs
  {
    s.procs[s.cur[c]].killed && st != ZOMBIE
  }

  /** What the callers of `sched` keep to: nobody goes on RUNNING or back to UNUSED, and the idle
      process only yields. */
  predicate MaySched(s: Sys, c: nat, st: ProcState) {
    && c < |s.cur| == |s.idle| && s.cur[c] in s.procs
    && st != RUNNING && st != UNUSED && (s.cur[c] == s.idle[c] ==> st == RUNNABLE)
  }

  /** `_activate_proc` */
  function Activated(s: Sys, p: nat, onalert: bool): Sys
    requires p in s.procs
  {
    var st := s.procs[p].state;
    if st == SLEEPING || st == UNUSED || (st == DEEPSLEEPING && !onalert) then
      s.(procs := s.procs[p := s.procs[p].(state := RUNNABLE, wait := 0)], rq := [p] + s.rq)
    else s
  }

  // ---------- the invariant ----------

  lemma UpdatedShape(s: Sys, c: nat, st: ProcState)
    requires Ok(s, -1) && MaySched(s, c, st)
    ensures Shape(Updated(s, c, st)) && CpusOk(Updated(s, c, st), c)
  {
    hide Without, RunOk, QueueOk;
  }

  lemma UpdatedRun(s: Sys, c: nat, st: ProcState)
    requires Ok(s, -1) && MaySched(s, c, st)
    ensures RunOk(Updated(s, c, st), c)
  {
    hide Without, QueueOk, Shape;
    var t := Updated(s, c, st);
    forall q | q in t.procs && t.procs[q].state == RUNNING ensures OnCpu(t, c, q) {
      assert OnCpu(s, -1, q);
      var d :| 0 <= d < |s.cur| && s.cur[d] == q;
      assert t.cur[d] == q;
    }
  }

  lemma UpdatedQueue(s: Sys, c: nat, st: ProcState)
    requires Ok(s, -1) && MaySched(s, c, st)
    ensures QueueOk(Updated(s, c, st))
  {
    hide Without, RunOk;
    var p, t := s.cur[c], Updated(s, c, st);
    DistinctWithout(s.rq, p);
    assert p != s.idle[c] ==> !IsIdle(s, p);
    assert t.idle == s.idle;
    if p == s.idle[c] {
      assert forall q :: q in t.rq <==> q in t.procs && !IsIdle(t, q) && Live(t.procs[q].state);
    } else {
      forall q ensures q in t.rq <==> q in t.procs && !IsIdle(t, q) && Live(t.procs[q].state) {
        assert q in Without(s.rq, p) <==> q in s.rq && q != p;
      }
    }
  }

  lemma UpdatedKeeps(s: Sys, c: nat, st: ProcState)
    requires Inv(s) && MaySched(s, c, st)
    ensures Ok(Updated(s, c, st), c)
  {
    hide Shape, CpusOk, RunOk, QueueOk, Updated;
    UpdatedShape(s, c, st);
    UpdatedRun(s, c, st);
    UpdatedQueue(s, c, st);
  }

  lemma AgedKeeps(s: Sys, hole: int)
    requires Ok(s, hole)
    ensures Ok(Aged(s), hole)
  {
    hide Shape, CpusOk, RunOk, QueueOk, Aged;
    AgedSame(s);
    SameStates(s, Aged(s), hole);
  }

  lemma AgedSame(s: Sys)
    ensures var t := Aged(s);
            && t.cur == s.cur && t.idle == s.idle && t.rq == s.rq && (forall q :: q in t.procs <==> q in s.procs)
            && (forall q :: q in t.procs ==> t.procs[q].state == s.procs[q].state && t.procs[q].wait >= s.procs[q].wait)
  {
  }

  /** Waiting times and killed flags do not matter. */
  lemma SameStates(s: Sys, t: Sys, hole: int)
    requires Ok(s, hole) && t.cur == s.cur && t.idle == s.idle && t.rq == s.rq
        && forall q :: q in t.procs <==> q in s.procs
    requires forall q :: q in t.procs ==> t.procs[q].state == s.procs[q].state && t.procs[q].wait >= s.procs[q].wait
    ensures Ok(t, hole)
  {
    SameShape(s, t, hole);
    SameRun(s, t, hole);
    hide Shape, CpusOk, RunOk, Distinct;
  }

  lemma SameShape(s: Sys, t: Sys, hole: int)
    requires Shape(s) && CpusOk(s, hole) && t.cur == s.cur && t.idle == s.idle
        && forall q :: q in t.procs <==> q in s.procs
    requires forall q :: q in t.procs ==> t.procs[q].state == s.procs[q].state && t.procs[q].wait >= s.procs[q].wait
    ensures Shape(t) && CpusOk(t, hole)
  {
    hide Distinct;
  }

  lemma SameRun(s: Sys, t: Sys, hole: int)
    requires RunOk(s, hole) && t.cur == s.cur && forall q :: q in t.procs <==> q in s.procs
    requires forall q :: q in t.procs ==> t.procs[q].state == s.procs[q].state
    ensures RunOk(t, hole)
  {
    forall q | q in t.procs && t.procs[q].state == RUNNING ensures OnCpu(t, hole, q) { assert OnCpu(s, hole, q); }
  }

  /** The second assertion of `sched`: whoever is chosen is RUNNABLE. */
  lemma ChosenReady(s: Sys, c: nat, r: nat)
    requires Ok(s, c) && Chosen(s, c, r)
    ensures Ready(s, r) && (r in s.rq || r == s.idle[c])
  {
    if !(exists p :: p in s.rq && Ready(s, p)) {
      if s.procs[r].state == RUNNING { assert OnCpu(s, c, r); }
    }
  }

  lemma SwitchedShape(s: Sys, c: nat, r: nat)
    requires Ok(s, c) && c < |s.cur| && Ready(s, r) && (r in s.rq || r == s.idle[c])
    ensures Shape(Switched(s, c, r)) && CpusOk(Switched(s, c, r), -1)
  {
    hide RunOk;
    var t := Switched(s, c, r);
    assert forall d :: 0 <= d < |s.cur| && d != c ==> s.cur[d] != r;
    assert r in s.rq ==> !IsIdle(s, r);
    hide QueueOk;
  }

  lemma SwitchedRun(s: Sys, c: nat, r: nat)
    requires Ok(s, c) && c < |s.cur| && Ready(s, r)
    ensures RunOk(Switched(s, c, r), -1) && QueueOk(Switched(s, c, r))
  {
    hide Shape, CpusOk;
    var t := Switched(s, c, r);
    forall q | q in t.procs && t.procs[q].state == RUNNING ensures OnCpu(t, -1, q) {
      if q == r {
        assert t.cur[c] == q;
      } else {
        assert OnCpu(s, c, q);
        var d :| 0 <= d < |s.cur| && d != c && s.cur[d] == q;
        assert t.cur[d] == q;
      }
    }
  }

  lemma SwitchedKeeps(s: Sys, c: nat, r: nat)
    requires Ok(s, c) && c < |s.cur| && Ready(s, r) && (r in s.rq || r == s.idle[c])
    ensures Inv(Switched(s, c, r))
  {
    hide Shape, CpusOk, RunOk, QueueOk, Switched, Ready;
    SwitchedShape(s, c, r);
    SwitchedRun(s, c, r);
  }

  lemma ActivatedKeeps(s: Sys, p: nat, onalert: bool)
    requires Inv(s) && p in s.procs
    ensures Inv(Activated(s, p, onalert))
  {
    hide Shape, CpusOk, RunOk, QueueOk;
    if Activated(s, p, onalert) != s {
      NotIdle(s, p);
      ActivatedShape(s, p, onalert);
      ActivatedRun(s, p, onalert);
      ActivatedQueue(s, p, onalert);
    }
  }

  lemma NotIdle(s: Sys, p: nat)
    requires Shape(s) && p in s.procs && !Live(s.procs[p].state)
    ensures !IsIdle(s, p)
  {
  }

  lemma ActivatedShape(s: Sys, p: nat, onalert: bool)
    requires Shape(s) && CpusOk(s, -1) && p in s.procs
    ensures Shape(Activated(s, p, onalert)) && CpusOk(Activated(s, p, onalert), -1)
  {
    hide Distinct;
  }

  lemma ActivatedRun(s: Sys, p: nat, onalert: bool)
    requires RunOk(s, -1) && p in s.procs
    ensures RunOk(Activated(s, p, onalert), -1)
  {
    var t := Activated(s, p, onalert);
    forall q | q in t.procs && t.procs[q].state == RUNNING ensures OnCpu(t, -1, q) { assert OnCpu(s, -1, q); }
  }

  lemma ActivatedQueue(s: Sys, p: nat, onalert: bool)
    requires QueueOk(s) && p in s.procs && !IsIdle(s, p) && Activated(s, p, onalert) != s
    ensures QueueOk(Activated(s, p, onalert))
  {
    assert p !in s.rq;
    DistinctParts([p], s.rq);
  }
}
