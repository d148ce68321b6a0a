/** Units of a semaphore over whole runs: none is lost, and none is handed out twice. */
module SemUnits {
  import opened Semaphores
  import opened SemRuns
  import opened Sequences

  /** The events of a run that begin a wait. */
  function Waits(es: seq<Event>): nat
    decreases |es|
  {
    if es == [] then 0 else Waits(es[..|es| - 1]) + if es[|es| - 1].Wait? then 1 else 0
  }

  /** The posts of a run. */
  function Given(es: seq<Event>): nat
    decreases |es|
  {
    if es == [] then 0
    else Given(es[..|es| - 1]) + if es[|es| - 1].Post? || es[|es| - 1].Again? then 1 else 0
  }

  /** Whether `e` lets a waiter into what the semaphore guards: at once, or released by a post. */
  predicate Enters(s: State, e: Event)
    requires e.t < |s.ts|
  {
    (e.Wait? && Next(s, e).ts[e.t].pc == Out) || (e.Resume? && s.ts[e.t].up)
  }

  /** The waits of a run that came through. */
  function Through(s: State, es: seq<Event>): nat
    requires Runs(s, es)
    decreases |es|
  {
    if es == [] then 0 else
      var e, before := es[|es| - 1], es[..|es| - 1];
      RunsPrefix(s, es);
      Through(s, before) + if Enters(After(s, before), e) then 1 else 0
  }

  /** The waits of a run that were given up. */
  function GivenUp(s: State, es: seq<Event>): nat
    requires Runs(s, es)
    decreases |es|
  {
    if es == [] then 0 else
      var e, before := es[|es| - 1], es[..|es| - 1];
      RunsPrefix(s, es);
      GivenUp(s, before) + if e.Resume? && !After(s, before).ts[e.t].up then 1 else 0
  }

  /** The value counts the units: each wait takes one, each post and each wait given up returns one. */
  lemma {:induction false} Conserved(n: nat, val: int, es: seq<Event>)
    requires Runs(Start(n, val), es)
    ensures After(Start(n, val), es).val == val + Given(es) + GivenUp(Start(n, val), es) - Waits(es)
    decreases |es|
  {
    hide Next, Enabled;
    if es != [] {
      var z, before, e := Start(n, val), es[..|es| - 1], es[|es| - 1];
      RunsPrefix(z, es);
      Conserved(n, val, before);
      ValueStep(After(z, before), e);
    }
  }

  lemma ValueStep(s: State, e: Event)
    requires Enabled(s, e)
    ensures Next(s, e).val == s.val + (if e.Post? || e.Again? then 1 else 0)
        + (if e.Resume? && !s.ts[e.t].up then 1 else 0) - if e.Wait? then 1 else 0
  {
    hide Without;
  }

  ghost function Waiters(s: State): set<nat> { set t: nat | t < |s.ts| && Waiting(s.ts[t].pc) }

  /** Every wait came through, was given up, or goes on. */
  lemma {:induction false} Accounted(n: nat, val: int, es: seq<Event>)
    requires val >= 0 && Runs(Start(n, val), es)
    ensures var z := Start(n, val); Waits(es) == Through(z, es) + GivenUp(z, es) + |Waiters(After(z, es))|
    decreases |es|
  {
    hide Next, Enabled, Inv, Enters;
    var z := Start(n, val);
    if es == [] {
      assert Waiters(z) == {};
    } else {
      var before, e := es[..|es| - 1], es[|es| - 1];
      RunsPrefix(z, es);
      Accounted(n, val, before);
      WaitersStep(After(z, before), e);
    }
  }

  lemma WaitersStep(s: State, e: Event)
    requires Enabled(s, e)
    ensures |Waiters(Next(s, e))| == |Waiters(s)| + (if e.Wait? && !Enters(s, e) then 1 else 0)
        - if e.Resume? then 1 else 0
    ensures Enters(s, e) ==> e.Wait? || e.Resume?
    ensures e.Resume? ==> (Enters(s, e) <==> s.ts[e.t].up)
  {
    hide Next, Waiting;
    var z := Next(s, e);
    WaitingAfter(s, e);
    if e.Wait? && !Enters(s, e) {
      assert Waiters(z) == Waiters(s) + {e.t};
    } else if e.Resume? {
      assert Waiters(z) == Waiters(s) - {e.t};
    } else {
      assert Waiters(z) == Waiters(s);
    }
  }

  lemma WaitingAfter(s: State, e: Event)
    requires Enabled(s, e)
    ensures |Next(s, e).ts| == |s.ts|
    ensures forall t :: 0 <= t < |s.ts| ==>
              (Waiting(Next(s, e).ts[t].pc) <==>
                 if t == e.t && e.Wait? then !Enters(s, e) else if t == e.t && e.Resume? then false
                 else Waiting(s.ts[t].pc))
    ensures (e.Wait? ==> !Waiting(s.ts[e.t].pc)) && (e.Resume? ==> Waiting(s.ts[e.t].pc))
  {
    hide Without;
  }

  /** At no time have more waits come through than there were units at first and posts since: those in
      the semaphore who have not posted yet are at most `val`. */
  lemma NeverTooMany(n: nat, val: int, es: seq<Event>)
    requires val >= 0 && Runs(Start(n, val), es)
    ensures Through(Start(n, val), es) <= val + Given(es)
  {
    hide Next, Enabled, Through, GivenUp, Waits, Given;
    var z := Start(n, val);
    Conserved(n, val, es);
    Accounted(n, val, es);
    StartOk(n, val);
    RunKeeps(z, es);
    ListedWait(After(z, es));
  }

  lemma ListedWait(s: State)
    requires Inv(s)
    ensures |s.list| <= |Waiters(s)| && s.val + |Waiters(s)| >= 0
  {
    CountElements(s.list);
    Subset(Elements(s.list), Waiters(s));
  }

  /** If everybody posts only what he got, a semaphore of value 1 excludes: when somebody comes through,
      all who came through before have posted. */
  lemma Exclusion(n: nat, es: seq<Event>, e: Event)
    requires Runs(Start(n, 1), es) && Enabled(After(Start(n, 1), es), e) && Enters(After(Start(n, 1), es), e)
    ensures Through(Start(n, 1), es) <= Given(es)
  {
    hide Next, Enters, Given;
    var z := Start(n, 1);
    var more := RunOn(z, es, e);
    assert more[..|es|] == es;
    NeverTooMany(n, 1, more);
    EntersNotPosts(After(z, es), e);
    GivenOn(es, e);
  }

  lemma EntersNotPosts(s: State, e: Event)
    requires e.t < |s.ts| && Enters(s, e)
    ensures !e.Post? && !e.Again?
  {
  }

  lemma GivenOn(es: seq<Event>, e: Event)
    ensures Given(es + [e]) == Given(es) + if e.Post? || e.Again? then 1 else 0
  {
    assert (es + [e])[..|es|] == es;
  }

  // ---------- the routines ----------

  /** The semaphore and the flags in the wait data are those of the state. */
  ghost predicate Same(sem: Semaphore, flags: seq<bool>, s: State)
    reads sem
  {
    && sem.Valid() && sem.val == s.val && sem.sleeplist == s.list && |flags| == |s.ts|
    && forall t :: 0 <= t < |flags| ==> flags[t] == s.ts[t].up
  }

  /** One event by the routines; `through` if it lets a waiter in. */
  method Carry(sem: Semaphore, flags: seq<bool>, e: Event, ghost s: State) returns (now: seq<bool>, through: bool)
    requires Inv(s) && Enabled(s, e) && Same(sem, flags, s)
    modifies sem
    ensures Same(sem, now, Next(s, e)) && through == Enters(s, e)
  {
    hide LocksOk, WakeOk, Descending, Without, Distinct;
    now, through := flags, false;
    match e
    case Wait(t, deep) =>
      through := sem.Enter(t);
      if !through { now := flags[t := false]; }
    case Resume(t) =>
      through := sem.Leave(t, flags[t]);
    case Post(t) =>
      now := CarryPost(sem, flags, t, s);
    case Again(t) =>
      now := CarryPost(sem, flags, t, s);
    case _ =>
  }

  method CarryPost(sem: Semaphore, flags: seq<bool>, t: nat, ghost s: State) returns (now: seq<bool>)
    requires Inv(s) && t < |s.ts| && !Waiting(s.ts[t].pc) && Same(sem, flags, s)
    modifies sem
    ensures Same(sem, now, Posts(s, t))
  {
    hide LocksOk, WakeOk, Descending, Distinct;
    if s.list != [] { PostTarget(s, t); }
    PostList(s, t);
    now := flags;
    var n := |sem.up|;
    sem.Post();
    if |sem.up| > n { now := flags[sem.up[n] := true]; }
  }

  /** Any run, carried out on a semaphore by its routines: value and queue are those of the run, and as many
      waiters come through. */
  method Serve(n: nat, val: nat, es: seq<Event>) returns (sem: Semaphore, entered: nat)
    requires Runs(Start(n, val), es)
    ensures sem.Valid() && sem.val == After(Start(n, val), es).val && sem.sleeplist == After(Start(n, val), es).list
    ensures entered == Through(Start(n, val), es)
  {
    hide Next, Enabled, Inv, Enters;
    ghost var z := Start(n, val);
    sem := new Semaphore(val);
    var flags := seq(n, _ => false);
    StartOk(n, val);
    entered := 0;
    var i := 0;
    assert es[..0] == [];
    PrefixRuns(z, es, 0);
    while i < |es|
      invariant 0 <= i <= |es| && fresh(sem) && Runs(z, es[..i]) && Same(sem, flags, After(z, es[..i]))
      invariant entered == Through(z, es[..i])
    {
      ghost var before := es[..i];
      PrefixRuns(z, es, i + 1);
      assert es[..i + 1][..i] == before && es[..i + 1][i] == es[i];
      RunsPrefix(z, es[..i + 1]);
      RunKeeps(z, before);
      var through;
      flags, through := Carry(sem, flags, es[i], After(z, before));
      if through { entered := entered + 1; }
      i := i + 1;
    }
    assert es[..|es|] == es;
  }

  lemma {:induction false} PrefixRuns(s: State, es: seq<Event>, i: nat)
    requires Runs(s, es) && i <= |es|
    ensures Runs(s, es[..i])
    decreases |es| - i
  {
    if i == |es| {
      assert es[..i] == es;
    } else {
      PrefixRuns(s, es, i + 1);
      RunsPrefix(s, es[..i + 1]);
      assert es[..i + 1][..i] == es[..i];
    }
  }
}
