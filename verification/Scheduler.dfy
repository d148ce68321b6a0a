/** The routines of `kernel/sched.c` on the state they change in place. */
module Scheduler {
  import opened SchedModel
  import opened SchedRuns
  import opened Sequences

  class Scheduler {
    var cur: seq<nat>
    var idle: seq<nat>
    var procs: map<nat, Proc>
    var rq: seq<nat>

    ghost function State(): Sys
      reads this
    {
      Sys(cur, idle, procs, rq)
    }

    ghost predicate Valid()
      reads this
    {
      Inv(State())
    }

    /** `init_sched` */
    constructor (n: nat)
      ensures Valid() && State() == Start(n)
      ensures |cur| == |idle| == n && (forall c :: 0 <= c < n ==> cur[c] == idle[c] == c) && rq == []
      ensures forall p :: p in procs <==> 0 <= p < n
      ensures forall p :: p in procs ==> procs[p] == Proc(RUNNING, 0, false)
    {
      cur, idle, rq := Cpus(n), Cpus(n), [];
      procs := map p | p in Cpus(n) :: Proc(RUNNING, 0, false);
      new;
      CpusAre(n);
      assert Runs(State(), []) && After(State(), []) == State();
      Reachable(n, []);
    }

    /** Nobody but `p` is touched. */
    twostate predicate OthersSame(p: nat)
      reads this
    {
      procs.Keys == old(procs).Keys && forall q :: q in old(procs) && q != p ==> procs[q] == old(procs)[q]
    }

    /** The queue without `p`, or with `p` at its head: everybody else keeps his place. */
    twostate predicate Queued(p: nat, head: bool)
      reads this
    {
      rq == (if head then [p] else []) + Without(old(rq), p)
    }

    /** `_activate_proc` */
    method Activate(p: nat, onalert: bool) returns (activated: bool)
      requires Valid() && p in procs
      modifies `procs, `rq
      ensures Valid() && State() == Activated(old(State()), p, onalert)
      ensures OthersSame(p) && procs[p].killed == old(procs)[p].killed
      ensures activated ==> procs[p].state == RUNNABLE && procs[p].wait == 0 && rq == [p] + old(rq)
      ensures !activated ==> procs == old(procs) && rq == old(rq)
      ensures activated <==>
          old(procs)[p].state in {SLEEPING, UNUSED} || (old(procs)[p].state == DEEPSLEEPING && !onalert)
    {
      hide Ok;
      ActivatedKeeps(State(), p, onalert);
      var st := procs[p].state;
      if st == RUNNING || st == RUNNABLE || st == ZOMBIE || (st == DEEPSLEEPING && onalert) { return false; }
      procs := procs[p := procs[p].(state := RUNNABLE)];
      procs := procs[p := procs[p].(wait := 0)];
      assert procs == old(procs)[p := old(procs)[p].(state := RUNNABLE, wait := 0)];
      rq := [p] + rq;
      activated := true;
    }

    /** `_detach_from_list` of a process in the queue. */
    method Detach(p: nat)
      modifies `rq
      ensures rq == Without(old(rq), p)
    {
      hide Without;
      var i := 0;
      assert rq[..0] == [];
      while i < |rq| && rq[i] != p
        invariant i <= |rq| && rq == old(rq) && Without(rq, p) == rq[..i] + Without(rq[i..], p)
      {
        WithoutFrom(rq, p, i);
        i := i + 1;
      }
      if i < |rq| {
        WithoutFrom(rq, p, i);
        rq := rq[..i] + rq[i + 1..];
      } else {
        WithoutEnd(rq, p);
      }
    }

    /** `update_this_state` */
    method UpdateThisState(c: nat, st: ProcState)
      requires Valid() && MaySched(State(), c, st)
      modifies `procs, `rq
      ensures State() == Updated(old(State()), c, st) && Ok(State(), c)
      ensures var p := cur[c];
              && OthersSame(p) && procs[p].state == st && procs[p].killed == old(procs)[p].killed
              && procs[p].wait == (if p != idle[c] && Live(st) then 0 else old(procs)[p].wait)
              && if p == idle[c] then rq == old(rq) else Queued(p, Live(st))
    {
      hide Shape, CpusOk, RunOk, QueueOk, Without;
      UpdatedKeeps(State(), c, st);
      RunningHere(State(), c);
      UpdatedIs(State(), c, st);
      var p := cur[c];
      if p != idle[c] && Live(procs[p].state) {
        Detach(p);
      }
      procs := procs[p := procs[p].(state := st)];
      if cur[c] != idle[c] && Live(st) {
        procs := procs[cur[c] := procs[cur[c]].(wait := 0)];
        rq := [p] + rq;
      }
    }

    /** `pick_next`.  The walk over the queue also reaches its sentinel, which is taken to be never
        RUNNABLE. */
    method PickNext(c: nat) returns (next: nat)
      requires Ok(State(), c) && c < |idle|
      modifies `procs
      ensures State() == Aged(old(State())) && Chosen(State(), c, next)
      ensures procs.Keys == old(procs).Keys && forall p :: p in old(procs) ==>
                procs[p] == if p in rq && old(procs)[p].state == RUNNABLE
                  then old(procs)[p].(wait := old(procs)[p].wait + 1) else old(procs)[p]
      ensures if exists p :: p in rq && Ready(State(), p) then FirstLongest(State(), next) else next == idle[c]
    {
      hide Shape, CpusOk, RunOk, AgedTo, Best, Chosen, Aged, FirstLongest;
      ghost var s := State();
      PickStart(s);
      var found, best, most := false, 0, -1;
      ghost var at := 0;
      var i := 0;
      while i < |rq|
        invariant 0 <= i <= |rq| && AgedTo(s, procs, i) && Best(State(), i, found, at, most)
            && procs.Keys == s.procs.Keys
        invariant found ==> 0 <= at < i && best == rq[at]
      {
        var p := rq[i];
        WaitsNonNegative(s, c, i);
        AgedNext(s, procs, i);
        BestNext(s, procs, i, found, at, most);
        if procs[p].state == RUNNABLE {
          procs := procs[p := procs[p].(wait := procs[p].wait + 1)];
          if procs[p].wait > most {
            found, best, most := true, p, procs[p].wait;
            at := i;
          }
        }
        i := i + 1;
      }
      AgedAll(s, procs);
      AgedEach(s);
      next := if found then best else idle[c];
      BestIsChosen(State(), c, found, at, most, next);
      ChosenFirst(State(), c, next);
    }

    /** `sched`: unless a killed process tries to go on, the CPU passes to the process picked. */
    method Sched(c: nat, st: ProcState) returns (next: nat)
      requires Valid() && MaySched(State(), c, st)
      modifies `procs, `rq, `cur
      ensures Enabled(old(State()), Event.Sched(c, st, next)) && Valid()
      ensures State() == Next(old(State()), Event.Sched(c, st, next))
      ensures old(procs)[old(cur)[c]].killed && st != ZOMBIE ==>
                next == old(cur)[c] && cur == old(cur) && procs == old(procs) && rq == old(rq)
      ensures !(old(procs)[old(cur)[c]].killed && st != ZOMBIE) ==>
                Passed(old(State()), State(), c, st, next) && Longest(State(), c, next)
    {
      hide Shape, RunOk, QueueOk, Aged, Updated, Chosen, Passed, Longest;
      ghost var s := State();
      var me := cur[c];
      assert procs[me].state == RUNNING;
      next := me;
      if procs[me].killed && st != ZOMBIE { return; }
      UpdateThisState(c, st);
      next := PickNext(c);
      SchedKeeps(s, c, st, next);
      SchedPasses(s, c, st, next);
      cur := cur[c := next];
      assert procs[next].state == RUNNABLE;
      procs := procs[next := procs[next].(state := RUNNING)];
    }
  }

  lemma CpusAre(n: nat)
    ensures forall p: nat :: p in Cpus(n) <==> p < n
  {
    forall p: nat | p < n ensures p in Cpus(n) { assert Cpus(n)[p] == p; }
  }

  /** The processes before position `i` of the queue have aged. */
  ghost predicate AgedTo(s: Sys, now: map<nat, Proc>, i: nat)
    requires i <= |s.rq|
  {
    && now.Keys == s.procs.Keys
    && forall p :: p in s.procs ==>
         now[p] == if p in s.rq[..i] && s.procs[p].state == RUNNABLE then s.procs[p].(wait := s.procs[p].wait + 1)
           else s.procs[p]
  }

  /** Position `at` has waited longest among the first `i` of the queue, and is the first to have. */
  ghost predicate Best(s: Sys, i: nat, found: bool, at: nat, most: int)
    requires i <= |s.rq|
  {
    if found then
      && at < i && Ready(s, s.rq[at]) && most == s.procs[s.rq[at]].wait
      && (forall j :: 0 <= j < i && Ready(s, s.rq[j]) ==>
            s.procs[s.rq[j]].wait <= most && (j < at ==> s.procs[s.rq[j]].wait < most))
    else
      most == -1 && forall j :: 0 <= j < i ==> !Ready(s, s.rq[j])
  }

  lemma PickStart(s: Sys)
    ensures AgedTo(s, s.procs, 0) && Best(s, 0, false, 0, -1)
  {
  }

  /** One more process of the queue, aged if it is RUNNABLE. */
  function OneAged(now: map<nat, Proc>, p: nat): map<nat, Proc> {
    if p in now && now[p].state == RUNNABLE then now[p := now[p].(wait := now[p].wait + 1)] else now
  }

  lemma AgedNext(s: Sys, now: map<nat, Proc>, i: nat)
    requires i < |s.rq| && QueueOk(s) && AgedTo(s, now, i)
    ensures AgedTo(s, OneAged(now, s.rq[i]), i + 1)
    ensures s.rq[i] in now && s.rq[i] in s.procs && now[s.rq[i]] == s.procs[s.rq[i]]
  {
    QueueNew(s, i);
  }

  lemma BestNext(s: Sys, now: map<nat, Proc>, i: nat, found: bool, at: nat, most: int)
    requires i < |s.rq| && QueueOk(s) && s.rq[i] in now && now[s.rq[i]].wait >= 0
    requires Best(s.(procs := now), i, found, at, most)
    ensures var t, p := s.(procs := OneAged(now, s.rq[i])), s.rq[i];
            var better := t.procs[p].state == RUNNABLE && t.procs[p].wait > most;
            Best(t, i + 1, found || better, if better then i else at, if better then t.procs[p].wait else most)
  {
    var t, p := s.(procs := OneAged(now, s.rq[i])), s.rq[i];
    var u := s.(procs := now);
    assert forall j :: 0 <= j < i ==> s.rq[j] != p;
    assert forall j :: 0 <= j < i ==> (Ready(t, s.rq[j]) <==> Ready(u, s.rq[j]));
  }

  lemma WaitsNonNegative(s: Sys, c: int, i: nat)
    requires Ok(s, c) && i < |s.rq|
    ensures s.rq[i] in s.procs && s.procs[s.rq[i]].wait >= 0
  {
    assert s.rq[i] in s.rq;
  }

  lemma AgedAll(s: Sys, now: map<nat, Proc>)
    requires AgedTo(s, now, |s.rq|)
    ensures s.(procs := now) == Aged(s)
  {
    assert s.rq[..|s.rq|] == s.rq;
  }

  lemma BestIsChosen(s: Sys, c: nat, found: bool, at: nat, most: int, next: nat)
    requires c < |s.idle| && Best(s, |s.rq|, found, at, most) && next == if found then s.rq[at] else s.idle[c]
    ensures Chosen(s, c, next)
  {
  }

  lemma QueueNew(s: Sys, i: nat)
    requires QueueOk(s) && i < |s.rq|
    ensures s.rq[i] !in s.rq[..i] && s.rq[..i + 1] == s.rq[..i] + [s.rq[i]] && s.rq[i] in s.procs
  {
    assert s.rq[i] in s.rq;
  }
}
