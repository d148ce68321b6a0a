/**
 Runs of a semaphore among any number of processes: the semaphore's lock and the scheduler's lock
 are held over several steps, so that a poster and a process on its way to sleep can meet.
 */
module SemRuns {
  import opened Semaphores
  import opened Sequences

  /** Where a process stands in `_wait_sem` or `_post_sem`. */
  datatype Pc =
    | Out
    | Entered               // queued up, holds the semaphore's lock
    | Locked                // holds both locks
    | Handed                // holds the scheduler's lock only, still RUNNING
    | Asleep                // SLEEPING or DEEPSLEEPING
    | Awake                 // RUNNABLE or RUNNING again, not yet back in the semaphore
    | Posting(target: nat)  // holds the semaphore's lock, has yet to activate `target`
    | Posted                // holds the semaphore's lock, has nothing left to do

  /** `up` is the flag in the process's wait data, `deep` whether only a post may wake it, `ticket`
      when it queued up, `killed` the flag that `kill` sets, `skipped` whether the present wait went on
      without sleeping. */
  datatype Thread = Thread(pc: Pc, up: bool, deep: bool, ticket: nat, killed: bool, skipped: bool)

  /** `sem` and `sched` are the holders of the two locks, -1 for nobody. */
  datatype State = State(val: int, list: seq<nat>, ts: seq<Thread>, sem: int, sched: int, clock: nat)

  datatype Event =
    | Wait(t: nat, deep: bool)  // lines 64-71
    | TakeSched(t: nat)         // line 72
    | DropSem(t: nat)           // line 73
    | Sleep(t: nat)             // line 74: the switch away, which frees the scheduler's lock
    | Skip(t: nat)              // line 74 of a killed process: `sched` returns at once
    | Kill(t: nat)              // somebody sets the process's flag
    | Alert(t: nat)             // somebody else wakes the process
    | Resume(t: nat)            // lines 75-82
    | Post(t: nat)              // lines 89-93
    | Again(t: nat)             // another post of `post_all_sem` under the same lock
    | Activate(t: nat)          // line 94, under the scheduler's lock
    | Release(t: nat)

  predicate Waiting(pc: Pc) { pc == Entered || pc == Locked || pc == Handed || pc == Asleep || pc == Awake }

  predicate HoldsSem(pc: Pc) { pc == Entered || pc == Locked || pc.Posting? || pc == Posted }

  predicate HoldsSched(pc: Pc) { pc == Locked || pc == Handed }

  predicate Enabled(s: State, e: Event) {
    && e.t < |s.ts|
    && var pc := s.ts[e.t].pc;
       match e
       case Wait(t, deep) => pc == Out && s.sem == -1
       case TakeSched(t) => pc == Entered && s.sched == -1
       case DropSem(t) => pc == Locked
       case Sleep(t) => pc == Handed && !s.ts[e.t].killed
       case Skip(t) => pc == Handed && s.ts[e.t].killed
       case Kill(t) => true
       case Alert(t) => pc == Asleep && !s.ts[t].deep && s.sched == -1
       case Resume(t) => pc == Awake && s.sem == -1
       case Post(t) => pc == Out && s.sem == -1
       case Again(t) => pc == Posted
       case Activate(t) => pc.Posting? && s.sched == -1
       case Release(t) => pc == Posted
  }

  function Go(s: State, t: nat, pc: Pc): State
    requires t < |s.ts|
  {
    s.(ts := s.ts[t := s.ts[t].(pc := pc)])
  }

  /** The assertions of the program that an event runs into. */
  predicate Panics(s: State, e: Event) {
    match e
    case Post(t) => s.val + 1 <= 0 && s.list == []
    case Again(t) => s.val + 1 <= 0 && s.list == []
    case Resume(t) => t < |s.ts| && !s.ts[t].up && s.val + 1 > 0
    case _ => false
  }

  /** `_post_sem` by `t` */
  function Posts(s: State, t: nat): State
    requires t < |s.ts|
  {
    if s.val + 1 <= 0 && s.list != [] then
      var w := s.list[|s.list| - 1];
      var s1 := Go(s, t, Posting(w)).(val := s.val + 1, list := s.list[..|s.list| - 1], sem := t as int);
      if w < |s.ts| then s1.(ts := s1.ts[w := s1.ts[w].(up := true)]) else s1
    else Go(s, t, Posted).(val := s.val + 1, sem := t as int)
  }

  function Next(s: State, e: Event): State
    requires e.t < |s.ts|
  {
    match e
    case Wait(t, deep) =>
      if s.val > 0 then s.(val := s.val - 1)
      else s.(val := s.val - 1, list := [t] + s.list, sem := t as int, clock := s.clock + 1,
              ts := s.ts[t := Thread(Entered, false, deep, s.clock, s.ts[t].killed, false)])
    case TakeSched(t) => Go(s, t, Locked).(sched := t as int)
    case DropSem(t) => Go(s, t, Handed).(sem := -1)
    case Sleep(t) => Go(s, t, Asleep).(sched := -1)
    case Skip(t) => s.(sched := -1, ts := s.ts[t := s.ts[t].(pc := Awake, skipped := true)])
    case Kill(t) => s.(ts := s.ts[t := s.ts[t].(killed := true)])
    case Alert(t) => Go(s, t, Awake)
    case Resume(t) => if s.ts[t].up then Go(s, t, Out) else Go(s, t, Out).(val := s.val + 1, list := Without(s.list, t))
    case Post(t) => Posts(s, t)
    case Again(t) => Posts(s, t)
    case Activate(t) =>
      if s.ts[t].pc.Posting? then
        var w := s.ts[t].pc.target;
        var s1 := Go(s, t, Posted);
        if w < |s.ts| && s1.ts[w].pc == Asleep then Go(s1, w, Awake) else s1
      else s
    case Release(t) => Go(s, t, Out).(sem := -1)
  }

  // ---------- the invariant ----------

  /** The list holds the waiters that no post has released, in the order of their tickets. */
  ghost predicate ListOk(s: State) {
    && Balanced(s.val, s.list) && Distinct(s.list)
    && (forall t :: t in s.list ==> t < |s.ts|)
    && (forall t :: 0 <= t < |s.ts| ==> (t in s.list <==> Waiting(s.ts[t].pc) && !s.ts[t].up))
    && Descending(s.ts, s.list) && (forall t :: t in s.list ==> Ticket(s.ts, t) < s.clock)
  }

  function Ticket(ts: seq<Thread>, t: nat): nat { if t < |ts| then ts[t].ticket else 0 }

  predicate Descending(ts: seq<Thread>, l: seq<nat>) {
    forall i, j :: 0 <= i < j < |l| ==> Ticket(ts, l[i]) > Ticket(ts, l[j])
  }

  ghost predicate LocksOk(s: State) {
    && (forall t :: 0 <= t < |s.ts| ==>
        (s.sem == t <==> HoldsSem(s.ts[t].pc)) && (s.sched == t <==> HoldsSched(s.ts[t].pc)))
    && -1 <= s.sem < |s.ts| && -1 <= s.sched < |s.ts|
  }

  /** The target of a poster is released, and is going to sleep, asleep, or already awake. */
  ghost predicate PostersOk(s: State) {
    forall t :: 0 <= t < |s.ts| && s.ts[t].pc.Posting? ==> TargetOk(s, t, s.ts[t].pc.target)
  }

  ghost predicate TargetOk(s: State, t: nat, w: nat) {
    w < |s.ts| && w != t && s.ts[w].up && (s.ts[w].pc == Handed || s.ts[w].pc == Asleep || s.ts[w].pc == Awake)
  }

  /** A released process that has not woken up yet is about to be activated by its poster, who still
      holds the semaphore's lock. */
  ghost predicate ReleasedOk(s: State) {
    forall w :: 0 <= w < |s.ts| && s.ts[w].up && Waiting(s.ts[w].pc) && s.ts[w].pc != Awake ==> PosterOf(s, w)
  }

  ghost predicate PosterOf(s: State, w: nat) {
    0 <= s.sem < |s.ts| && s.ts[s.sem].pc == Posting(w)
  }

  /** A process that only a post may wake has been released, or did not sleep at all. */
  ghost predicate DeepOk(s: State) {
    forall w :: 0 <= w < |s.ts| && s.ts[w].pc == Awake && s.ts[w].deep && !s.ts[w].up ==> s.ts[w].skipped
  }

  ghost predicate WakeOk(s: State) { PostersOk(s) && ReleasedOk(s) && DeepOk(s) }

  ghost predicate Inv(s: State) { ListOk(s) && LocksOk(s) && WakeOk(s) }

  lemma {:induction false} WithoutDescends(l: seq<nat>, t: nat, ts: seq<Thread>)
    requires Distinct(l) && Descending(ts, l)
    ensures Descending(ts, Without(l, t))
  {
    if l != [] && l[0] != t {
      var r := Without(l[1..], t);
      DescendingTail(ts, l);
      WithoutDescends(l[1..], t, ts);
      DistinctWithout(l[1..], t);
      DescendingCons(ts, l[0], r);
    }
  }

  lemma DescendingTail(ts: seq<Thread>, l: seq<nat>)
    requires Distinct(l) && Descending(ts, l) && l != []
    ensures Distinct(l[1..]) && Descending(ts, l[1..]) && forall x :: x in l[1..] ==> Ticket(ts, l[0]) > Ticket(ts, x)
  {
    hide Ticket;
    forall x | x in l[1..] ensures Ticket(ts, l[0]) > Ticket(ts, x) {
      var j :| 0 <= j < |l[1..]| && l[1..][j] == x;
      assert l[j + 1] == x;
    }
  }

  lemma DescendingCons(ts: seq<Thread>, t: nat, r: seq<nat>)
    requires Descending(ts, r) && forall x :: x in r ==> Ticket(ts, t) > Ticket(ts, x)
    ensures Descending(ts, [t] + r)
  {
    hide Ticket;
    var l := [t] + r;
    forall i, j | 0 <= i < j < |l| ensures Ticket(ts, l[i]) > Ticket(ts, l[j]) {
      assert l[j] == r[j - 1] && r[j - 1] in r;
      if i > 0 { assert l[i] == r[i - 1]; }
    }
  }

  lemma WaitList(s: State, t: nat, deep: bool)
    requires Inv(s) && Enabled(s, Wait(t, deep))
    ensures ListOk(Next(s, Wait(t, deep)))
  {
    hide LocksOk, WakeOk, Descending;
    var z := Next(s, Wait(t, deep));
    assert t !in s.list;
    if s.val <= 0 {
      OneTicket(s, t, z.ts);
      DescendingCons(z.ts, t, s.list);
    }
  }

  lemma OneTicket(s: State, t: nat, us: seq<Thread>)
    requires ListOk(s) && t < |s.ts| && t !in s.list && |us| == |s.ts| && us[t].ticket == s.clock
    requires forall x :: 0 <= x < |us| && x != t ==> us[x] == s.ts[x]
    ensures Descending(us, s.list) && (forall x :: x in s.list ==> Ticket(us, x) == Ticket(s.ts, x) < Ticket(us, t))
  {
    forall i, j | 0 <= i < j < |s.list| ensures Ticket(us, s.list[i]) > Ticket(us, s.list[j]) {
      assert s.list[i] in s.list && s.list[j] in s.list && Ticket(s.ts, s.list[i]) > Ticket(s.ts, s.list[j]);
    }
  }

  lemma ResumeList(s: State, t: nat)
    requires Inv(s) && Enabled(s, Resume(t))
    ensures ListOk(Next(s, Resume(t))) && !Panics(s, Resume(t))
  {
    hide LocksOk, WakeOk, Without;
    WithoutDescends(s.list, t, s.ts);
    DistinctWithout(s.list, t);
    var z := Next(s, Resume(t));
    forall i, j | 0 <= i < j < |z.list| ensures Ticket(z.ts, z.list[i]) > Ticket(z.ts, z.list[j]) {
      assert Ticket(s.ts, z.list[i]) > Ticket(s.ts, z.list[j]);
    }
  }

  lemma PostList(s: State, t: nat)
    requires Inv(s) && t < |s.ts| && !Waiting(s.ts[t].pc)
    ensures ListOk(Posts(s, t)) && !(s.val + 1 <= 0 && s.list == [])
  {
    hide LocksOk, WakeOk;
    if s.val + 1 <= 0 {
      PostTakes(s, t);
    } else {
      OtherList(s, Posts(s, t));
    }
  }

  lemma PostTakes(s: State, t: nat)
    requires ListOk(s) && t < |s.ts| && !Waiting(s.ts[t].pc) && s.val + 1 <= 0
    ensures ListOk(Posts(s, t)) && s.list != []
  {
    hide Descending, Ticket, Posts;
    var z, w := Posts(s, t), s.list[|s.list| - 1];
    assert w in s.list && t !in s.list;
    PostsIs(s, t, w);
    LastOff(s.list, s.ts);
    TicketsSame(s.ts, z.ts, z.list);
    LowTickets(s, z);
  }

  lemma PostsIs(s: State, t: nat, w: nat)
    requires t < |s.ts| && w < |s.ts| && w != t && s.list != [] && w == s.list[|s.list| - 1] && s.val + 1 <= 0
    requires !Waiting(s.ts[t].pc)
    ensures var z := Posts(s, t);
            && z.list == s.list[..|s.list| - 1] && z.val == s.val + 1 && z.clock == s.clock && |z.ts| == |s.ts|
            && forall x :: 0 <= x < |s.ts| ==>
                 && z.ts[x].ticket == s.ts[x].ticket && z.ts[x].up == (s.ts[x].up || x == w)
                 && (Waiting(z.ts[x].pc) <==> Waiting(s.ts[x].pc))
  {
  }

  lemma LowTickets(s: State, z: State)
    requires |z.ts| == |s.ts| && forall x :: 0 <= x < |s.ts| ==> z.ts[x].ticket == s.ts[x].ticket
    ensures forall x: nat :: Ticket(z.ts, x) == Ticket(s.ts, x)
  {
  }

  lemma LastOff(l: seq<nat>, ts: seq<Thread>)
    requires Distinct(l) && Descending(ts, l) && l != []
    ensures var m := l[..|l| - 1];
            Distinct(m) && Descending(ts, m) && forall q :: q in m <==> q in l && q != l[|l| - 1]
  {
    var m := l[..|l| - 1];
    assert l == m + [l[|l| - 1]];
  }

  lemma TicketsSame(ts: seq<Thread>, us: seq<Thread>, l: seq<nat>)
    requires Descending(ts, l) && |us| == |ts| && forall t :: 0 <= t < |ts| ==> us[t].ticket == ts[t].ticket
    ensures Descending(us, l)
  {
    forall i, j | 0 <= i < j < |l| ensures Ticket(us, l[i]) > Ticket(us, l[j]) {
      assert Ticket(ts, l[i]) > Ticket(ts, l[j]);
    }
  }

  /** A step that changes no ticket, no `up` flag, and nobody's being a waiter. */
  lemma OtherList(s: State, z: State)
    requires ListOk(s) && z.list == s.list && |z.ts| == |s.ts| && z.clock == s.clock && Balanced(z.val, z.list)
    requires forall t :: 0 <= t < |s.ts| ==>
               && (Waiting(z.ts[t].pc) <==> Waiting(s.ts[t].pc)) && z.ts[t].up == s.ts[t].up
                 && z.ts[t].ticket == s.ts[t].ticket
    ensures ListOk(z)
  {
    forall i, j | 0 <= i < j < |z.list| ensures Ticket(z.ts, z.list[i]) > Ticket(z.ts, z.list[j]) {
      assert Ticket(s.ts, s.list[i]) > Ticket(s.ts, s.list[j]);
    }
  }

  lemma ListKept(s: State, e: Event)
    requires Inv(s) && Enabled(s, e)
    ensures ListOk(Next(s, e)) && !Panics(s, e)
  {
    hide ListOk, LocksOk, WakeOk, Posts;
    match e
    case Wait(t, deep) => WaitList(s, t, deep);
    case Resume(t) => ResumeList(s, t);
    case Post(t) => PostList(s, t);
    case Again(t) => PostList(s, t);
    case _ =>
      BalancedNow(s);
      OtherList(s, Next(s, e));
  }

  lemma BalancedNow(s: State)
    requires ListOk(s)
    ensures Balanced(s.val, s.list)
  {
  }

  lemma LocksKept(s: State, e: Event)
    requires Inv(s) && Enabled(s, e)
    ensures LocksOk(Next(s, e))
  {
    hide ListOk, WakeOk, Next;
    if e.Post? || e.Again? {
      LocksPost(s, e.t);
      PostNext(s, e);
    } else {
      LocksRest(s, e);
    }
  }

  lemma PostNext(s: State, e: Event)
    requires (e.Post? || e.Again?) && e.t < |s.ts|
    ensures Next(s, e) == Posts(s, e.t)
  {
  }

  lemma LocksRest(s: State, e: Event)
    requires LocksOk(s) && Enabled(s, e) && !e.Post? && !e.Again?
    ensures LocksOk(Next(s, e))
  {
    hide Without, Posts, Next, LocksOk;
    match e
    case Activate(t) => LocksActivate(s, t);
    case Wait(t, deep) => LocksWait(s, t, deep);
    case _ => LocksOther(s, e);
  }

  lemma LocksActivate(s: State, t: nat)
    requires LocksOk(s) && Enabled(s, Activate(t))
    ensures LocksOk(Next(s, Activate(t)))
  {
  }

  lemma LocksWait(s: State, t: nat, deep: bool)
    requires LocksOk(s) && Enabled(s, Wait(t, deep))
    ensures LocksOk(Next(s, Wait(t, deep)))
  {
  }

  lemma LocksOther(s: State, e: Event)
    requires LocksOk(s) && Enabled(s, e) && !e.Post? && !e.Again? && !e.Activate? && !e.Wait?
    ensures LocksOk(Next(s, e))
  {
    hide Without, Posts;
  }

  lemma LocksPost(s: State, t: nat)
    requires Inv(s) && t < |s.ts| && (s.ts[t].pc == Out || s.ts[t].pc == Posted) && (s.sem == -1 || s.sem == t)
    ensures LocksOk(Posts(s, t))
  {
    hide ListOk, WakeOk, Posts;
    if s.list != [] { PostTarget(s, t); }
    PostsPcs(s, t);
  }

  lemma PostsPcs(s: State, t: nat)
    requires t < |s.ts|
    ensures var z := Posts(s, t);
            && z.sem == t && z.sched == s.sched && |z.ts| == |s.ts| && HoldsSem(z.ts[t].pc) && !HoldsSched(z.ts[t].pc)
            && forall x :: 0 <= x < |s.ts| && x != t ==> z.ts[x].pc == s.ts[x].pc
  {
  }

  lemma PostTarget(s: State, t: nat)
    requires Inv(s) && t < |s.ts| && !Waiting(s.ts[t].pc) && s.list != []
    ensures var w := s.list[|s.list| - 1]; w < |s.ts| && w != t && Waiting(s.ts[w].pc) && !s.ts[w].up
  {
    assert s.list[|s.list| - 1] in s.list;
  }

  lemma WakePost(s: State, t: nat)
    requires Inv(s) && t < |s.ts| && (s.ts[t].pc == Out || s.ts[t].pc == Posted) && (s.sem == -1 || s.sem == t)
    ensures WakeOk(Posts(s, t))
  {
    hide ListOk, WakeOk;
    assert forall x :: 0 <= x < |s.ts| && x != t ==> !HoldsSem(s.ts[x].pc);
    if s.val + 1 <= 0 && s.list != [] {
      PostTarget(s, t);
      WakeTaken(s, t);
    } else {
      WakeIdle(s, Posts(s, t), t);
    }
  }

  /** Nobody but `t` is in the semaphore, so no released process can be on its way to sleep. */
  lemma WakeIdle(s: State, z: State, t: nat)
    requires WakeOk(s) && t < |s.ts| && (s.ts[t].pc == Out || s.ts[t].pc == Posted) && (s.sem == -1 || s.sem == t)
    requires forall x :: 0 <= x < |s.ts| && x != t ==> !HoldsSem(s.ts[x].pc)
    requires z.ts == s.ts[t := s.ts[t].(pc := Posted)]
    ensures WakeOk(z)
  {
    assert forall w :: 0 <= w < |s.ts| ==> !PosterOf(s, w);
  }

  lemma WakeTaken(s: State, t: nat)
    requires WakeOk(s) && t < |s.ts| && (s.ts[t].pc == Out || s.ts[t].pc == Posted) && (s.sem == -1 || s.sem == t)
    requires forall x :: 0 <= x < |s.ts| && x != t ==> !HoldsSem(s.ts[x].pc)
    requires s.val + 1 <= 0 && s.list != []
    requires var w := s.list[|s.list| - 1]; w < |s.ts| && w != t && Waiting(s.ts[w].pc) && !s.ts[w].up
    ensures WakeOk(Posts(s, t))
  {
    assert forall w :: 0 <= w < |s.ts| ==> !PosterOf(s, w);
    var z, w := Posts(s, t), s.list[|s.list| - 1];
    assert TargetOk(z, t, w) && PosterOf(z, w);
  }

  lemma WakeActivate(s: State, t: nat)
    requires Inv(s) && Enabled(s, Activate(t))
    ensures WakeOk(Next(s, Activate(t)))
  {
    hide ListOk, Posts, Without;
    assert forall x :: 0 <= x < |s.ts| && x != t ==> !HoldsSem(s.ts[x].pc);
    assert TargetOk(s, t, s.ts[t].pc.target);
  }

  lemma WakeRest(s: State, e: Event)
    requires Inv(s) && Enabled(s, e) && !e.Post? && !e.Again? && !e.Activate?
    ensures PostersOk(Next(s, e)) && DeepOk(Next(s, e))
  {
    hide ListOk, Posts, Without, ReleasedOk;
  }

  lemma ReleasedRest(s: State, e: Event)
    requires Inv(s) && Enabled(s, e) && !e.Post? && !e.Again? && !e.Activate?
    ensures ReleasedOk(Next(s, e))
  {
    hide ListOk, Posts, Without, DeepOk, PostersOk;
    var z := Next(s, e);
    forall w | 0 <= w < |z.ts| && z.ts[w].up && Waiting(z.ts[w].pc) && z.ts[w].pc != Awake ensures PosterOf(z, w) {
      assert s.ts[w].up && Waiting(s.ts[w].pc) && s.ts[w].pc != Awake;
      assert PosterOf(s, w);
    }
  }

  lemma WakeKept(s: State, e: Event)
    requires Inv(s) && Enabled(s, e)
    ensures WakeOk(Next(s, e))
  {
    hide ListOk, LocksOk, PostersOk, ReleasedOk, DeepOk, Posts;
    if e.Post? || e.Again? {
      SemMine(s, e.t);
      WakePost(s, e.t);
    } else if e.Activate? {
      WakeActivate(s, e.t);
    } else {
      WakeRest(s, e);
      ReleasedRest(s, e);
    }
  }

  lemma SemMine(s: State, t: nat)
    requires LocksOk(s) && t < |s.ts|
    ensures s.ts[t].pc == Posted ==> s.sem == t
  {
  }

  lemma StepKeeps(s: State, e: Event)
    requires Inv(s) && Enabled(s, e)
    ensures Inv(Next(s, e)) && !Panics(s, e)
  {
    hide ListOk, LocksOk, WakeOk;
    ListKept(s, e);
    LocksKept(s, e);
    WakeKept(s, e);
  }

  // ---------- runs ----------

  predicate Runs(s: State, es: seq<Event>)
    decreases |es|
  {
    es == [] || (Enabled(s, es[0]) && Runs(Next(s, es[0]), es[1..]))
  }

  function After(s: State, es: seq<Event>): State
    requires Runs(s, es)
    decreases |es|
  {
    if es == [] then s else After(Next(s, es[0]), es[1..])
  }

  /** `n` processes outside a semaphore of value `val`. */
  function Start(n: nat, val: int): State {
    State(val, [], seq(n, _ => Thread(Out, false, false, 0, false, false)), -1, -1, 0)
  }

  lemma {:induction false} RunKeeps(s: State, es: seq<Event>)
    requires Inv(s) && Runs(s, es)
    ensures Inv(After(s, es))
    decreases |es|
  {
    hide Inv, Next;
    if es != [] {
      StepKeeps(s, es[0]);
      RunKeeps(Next(s, es[0]), es[1..]);
    }
  }

  lemma StartOk(n: nat, val: int)
    requires val >= 0
    ensures Inv(Start(n, val))
  {
  }

  /** In every reachable state the sleepers are as many as the value is below zero, and no assertion
      of the next step fails; while the semaphore's lock is free no released process is asleep. */
  lemma Reachable(n: nat, val: int, es: seq<Event>, e: Event)
    requires val >= 0 && Runs(Start(n, val), es) && Enabled(After(Start(n, val), es), e)
    ensures var s := After(Start(n, val), es);
            && Balanced(s.val, s.list) && !Panics(s, e)
            && (s.sem == -1 ==> forall t :: 0 <= t < |s.ts| ==> !(s.ts[t].pc == Asleep && s.ts[t].up))
  {
    hide ListOk, LocksOk, PostersOk, DeepOk, Next, Panics, Enabled;
    StartOk(n, val);
    RunKeeps(Start(n, val), es);
    StepKeeps(After(Start(n, val), es), e);
    BalancedNow(After(Start(n, val), es));
  }

  /** A post releases the process that queued up first. */
  lemma OldestFirst(s: State, t: nat)
    requires Inv(s) && Enabled(s, Post(t)) && s.val < 0
    ensures s.list != [] && var w := s.list[|s.list| - 1];
            && Posts(s, t).ts[t].pc == Posting(w) && w < |s.ts|
            && forall q :: q in s.list && q != w ==> s.ts[w].ticket < s.ts[q].ticket
  {
    hide WakeOk;
    PostList(s, t);
    PostTarget(s, t);
    var w := s.list[|s.list| - 1];
    forall q | q in s.list && q != w ensures s.ts[w].ticket < s.ts[q].ticket {
      var i :| 0 <= i < |s.list| && s.list[i] == q;
      assert Ticket(s.ts, s.list[i]) > Ticket(s.ts, s.list[|s.list| - 1]);
    }
  }

  // ---------- unalertable waits ----------

  /** Whether a post takes waiter `t` off the list. */
  predicate Releases(s: State, e: Event, t: nat) {
    (e.Post? || e.Again?) && s.val + 1 <= 0 && s.list != [] && s.list[|s.list| - 1] == t
  }

  /** Whether `t` was found killed at line 74 since it began to wait for the last time. */
  predicate FoundKilled(es: seq<Event>, t: nat)
    decreases |es|
  {
    es != [] &&
    var e := es[|es| - 1];
    e == Skip(t) || (!(e.Wait? && e.t == t) && FoundKilled(es[..|es| - 1], t))
  }

  /** Whether a post released `t` since it began to wait for the last time. */
  predicate Released(s: State, es: seq<Event>, t: nat)
    requires Runs(s, es)
    decreases |es|
  {
    es != [] &&
    var e, before := es[|es| - 1], es[..|es| - 1];
    RunsPrefix(s, es);
    Releases(After(s, before), e, t) || (!(e.Wait? && e.t == t) && Released(s, before, t))
  }

  /** The last event of a run. */
  lemma {:induction false} RunsPrefix(s: State, es: seq<Event>)
    requires Runs(s, es) && es != []
    ensures var before, e := es[..|es| - 1], es[|es| - 1];
            && Runs(s, before) && Enabled(After(s, before), e) && After(s, es) == Next(After(s, before), e)
    decreases |es|
  {
    hide Next;
    var before := es[..|es| - 1];
    if |es| > 1 {
      RunsPrefix(Next(s, es[0]), es[1..]);
      assert es[1..][..|es[1..]| - 1] == before[1..];
    }
  }

  /** The flags of a waiting process record the history of its wait. */
  lemma {:induction false} FlagsRecord(n: nat, val: int, es: seq<Event>, t: nat)
    requires val >= 0 && Runs(Start(n, val), es)
    requires var s := After(Start(n, val), es); t < |s.ts| && Waiting(s.ts[t].pc)
    ensures var x := After(Start(n, val), es).ts[t];
            && (x.skipped <==> FoundKilled(es, t)) && (x.up <==> Released(Start(n, val), es, t))
    decreases |es|
  {
    hide Next, Enabled, Inv, Releases;
    var z := Start(n, val);
    if es != [] {
      var before, e := es[..|es| - 1], es[|es| - 1];
      RunsPrefix(z, es);
      StartOk(n, val);
      RunKeeps(z, before);
      FlagsStep(After(z, before), e, t);
      if !(e.Wait? && e.t == t) { FlagsRecord(n, val, before, t); }
    }
  }

  lemma FlagsStep(s: State, e: Event, t: nat)
    requires Inv(s) && Enabled(s, e) && t < |Next(s, e).ts| && Waiting(Next(s, e).ts[t].pc)
    ensures t < |s.ts| && var x := Next(s, e).ts[t];
            if e.Wait? && e.t == t then !x.skipped && !x.up && !Releases(s, e, t)
            else
              && Waiting(s.ts[t].pc) && x.skipped == (s.ts[t].skipped || e == Skip(t))
              && x.up == (s.ts[t].up || Releases(s, e, t))
  {
    hide LocksOk, WakeOk, Descending, Without;
  }

  /** Whether somebody woke `t` without a post since it began to wait for the last time. */
  predicate Alerted(es: seq<Event>, t: nat)
    decreases |es|
  {
    es != [] &&
    var e := es[|es| - 1];
    e == Alert(t) || (!(e.Wait? && e.t == t) && Alerted(es[..|es| - 1], t))
  }

  /** Nobody wakes up for no reason: by a post, by an alert, or because it was found killed. */
  lemma {:induction false} WakesForReason(n: nat, val: int, es: seq<Event>, t: nat)
    requires val >= 0 && Runs(Start(n, val), es)
    requires var s := After(Start(n, val), es); t < |s.ts| && s.ts[t].pc == Awake
    ensures Released(Start(n, val), es, t) || FoundKilled(es, t) || Alerted(es, t)
    decreases |es|
  {
    hide Next, Enabled, Inv, Releases;
    var z := Start(n, val);
    if es != [] {
      var before, e := es[..|es| - 1], es[|es| - 1];
      RunsPrefix(z, es);
      StartOk(n, val);
      RunKeeps(z, before);
      AwakeStep(After(z, before), e, t);
      if After(z, before).ts[t].pc == Awake {
        WakesForReason(n, val, before, t);
      } else {
        FlagsRecord(n, val, es, t);
      }
    }
  }

  lemma AwakeStep(s: State, e: Event, t: nat)
    requires Inv(s) && Enabled(s, e) && t < |Next(s, e).ts| && Next(s, e).ts[t].pc == Awake
    ensures t < |s.ts| && !(e.Wait? && e.t == t)
    ensures s.ts[t].pc == Awake || e == Alert(t) || e == Skip(t) || Next(s, e).ts[t].up
  {
    hide ListOk, LocksOk, Without;
  }

  /** A wait fails exactly if the process was alerted or found killed, and no post released it before it
      was back in the semaphore. */
  lemma WaitFails(n: nat, val: int, es: seq<Event>, t: nat)
    requires val >= 0 && Runs(Start(n, val), es) && Enabled(After(Start(n, val), es), Resume(t))
    ensures !After(Start(n, val), es).ts[t].up <==>
            (FoundKilled(es, t) || Alerted(es, t)) && !Released(Start(n, val), es, t)
  {
    hide Next, Released, FoundKilled, Alerted;
    FlagsRecord(n, val, es, t);
    WakesForReason(n, val, es, t);
  }

  /** A wait that only a post may end comes back without one exactly if the process was killed by the
      time it was to sleep, and no post released it before it was back in the semaphore. */
  lemma DeepWaitFails(n: nat, val: int, es: seq<Event>, t: nat)
    requires val >= 0 && Runs(Start(n, val), es)
    requires var s := After(Start(n, val), es); Enabled(s, Resume(t)) && s.ts[t].deep
    ensures !After(Start(n, val), es).ts[t].up <==> FoundKilled(es, t) && !Released(Start(n, val), es, t)
  {
    hide Next, Released, FoundKilled, ListOk, LocksOk, PostersOk, ReleasedOk;
    StartOk(n, val);
    RunKeeps(Start(n, val), es);
    FlagsRecord(n, val, es, t);
  }

  /** That does happen, and the program asserts against it. */
  lemma KilledDeepWait()
    ensures var es := [Wait(0, true), TakeSched(0), DropSem(0), Kill(0), Skip(0)];
            && Runs(Start(2, 0), es)
            && var s := After(Start(2, 0), es);
               Enabled(s, Resume(0)) && s.ts[0].deep && !s.ts[0].up
  {
    hide Runs, After;
    var es := KilledRun();
  }

  /** The same process comes back released if somebody posts in time. */
  lemma KilledButPosted()
    ensures var es := [Wait(0, true), TakeSched(0), DropSem(0), Kill(0), Skip(0), Post(1), Activate(1), Release(1)];
            && Runs(Start(2, 0), es)
            && var s := After(Start(2, 0), es);
               Enabled(s, Resume(0)) && s.ts[0].deep && s.ts[0].up
  {
    hide Runs, After;
    var es := PostedRun();
    var s, a := Start(2, 0), Thread(Awake, true, true, 0, true, true);
    es := RunOn(s, es, Activate(1));
    assert After(s, es) == State(0, [], [a, Thread(Posted, false, false, 0, false, false)], 1, -1, 1);
    es := RunOn(s, es, Release(1));
    assert es == [Wait(0, true), TakeSched(0), DropSem(0), Kill(0), Skip(0), Post(1), Activate(1), Release(1)];
  }

  lemma PostedRun() returns (es: seq<Event>)
    ensures es == [Wait(0, true), TakeSched(0), DropSem(0), Kill(0), Skip(0), Post(1)] && Runs(Start(2, 0), es)
    ensures After(Start(2, 0), es) ==
            State(0, [], [Thread(Awake, true, true, 0, true, true),
              Thread(Posting(0), false, false, 0, false, false)], 1, -1, 1)
  {
    hide Runs, After;
    es := KilledRun();
    es := RunOn(Start(2, 0), es, Post(1));
  }

  lemma DroppedRun() returns (es: seq<Event>)
    ensures es == [Wait(0, true), TakeSched(0), DropSem(0)] && Runs(Start(2, 0), es)
    ensures After(Start(2, 0), es) ==
            State(-1, [0], [Thread(Handed, false, true, 0, false, false), Thread(Out, false, false, 0, false, false)],
              -1, 0, 1)
  {
    hide Runs, After;
    var s, b := Start(2, 0), Thread(Out, false, false, 0, false, false);
    NoEvents(s);
    assert s.ts == [b, b];
    es := RunOn(s, [], Wait(0, true));
    assert After(s, es) == State(-1, [0], [Thread(Entered, false, true, 0, false, false), b], 0, -1, 1);
    es := RunOn(s, es, TakeSched(0));
    assert After(s, es) == State(-1, [0], [Thread(Locked, false, true, 0, false, false), b], 0, 0, 1);
    es := RunOn(s, es, DropSem(0));
  }

  lemma KilledRun() returns (es: seq<Event>)
    ensures es == [Wait(0, true), TakeSched(0), DropSem(0), Kill(0), Skip(0)] && Runs(Start(2, 0), es)
    ensures After(Start(2, 0), es) ==
            State(-1, [0], [Thread(Awake, false, true, 0, true, true), Thread(Out, false, false, 0, false, false)],
              -1, -1, 1)
  {
    hide Runs, After;
    var s, b := Start(2, 0), Thread(Out, false, false, 0, false, false);
    es := DroppedRun();
    es := RunOn(s, es, Kill(0));
    assert After(s, es) == State(-1, [0], [Thread(Handed, false, true, 0, true, false), b], -1, 0, 1);
    es := RunOn(s, es, Skip(0));
  }

  lemma NoEvents(s: State)
    ensures Runs(s, []) && After(s, []) == s
  {
  }

  lemma {:induction false} RunOn(s: State, es: seq<Event>, e: Event) returns (more: seq<Event>)
    requires Runs(s, es) && Enabled(After(s, es), e)
    ensures more == es + [e] && Runs(s, more) && After(s, more) == Next(After(s, es), e)
    decreases |es|
  {
    hide Next;
    more := es + [e];
    if es == [] {
      assert more[1..] == [];
    } else {
      var rest := RunOn(Next(s, es[0]), es[1..], e);
      assert more[1..] == rest;
    }
  }
}
