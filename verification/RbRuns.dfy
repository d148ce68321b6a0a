/** Runs of insertions and erasures: the tree's sequence is the sorted list of a set. */
module RbRuns {
  import opened RbModel
  import opened RbOrder
  import opened RbTree
  import opened Sequences

  datatype Op = Put(x: nat) | Take(x: nat)

  /** What insertion and erasure do to the in-order sequence: a node whose key is present is refused. */
  ghost function Step(cmp: (nat, nat) -> bool, s: seq<nat>, op: Op): seq<nat> {
    match op
    case Put(x) => if exists y :: y in s && Tied(cmp, x, y) then s else Placed(cmp, s, x)
    case Take(x) => Without(s, x)
  }

  /** The same on the set of nodes. */
  ghost function SetStep(cmp: (nat, nat) -> bool, a: set<nat>, op: Op): set<nat> {
    match op
    case Put(x) => if exists y :: y in a && Tied(cmp, x, y) then a else a + {x}
    case Take(x) => a - {x}
  }

  ghost function Run(cmp: (nat, nat) -> bool, s: seq<nat>, ops: seq<Op>): seq<nat>
    decreases |ops|
  {
    if ops == [] then s else Run(cmp, Step(cmp, s, ops[0]), ops[1..])
  }

  ghost function SetRun(cmp: (nat, nat) -> bool, a: set<nat>, ops: seq<Op>): set<nat>
    decreases |ops|
  {
    if ops == [] then a else SetRun(cmp, SetStep(cmp, a, ops[0]), ops[1..])
  }

  ghost predicate Lists(cmp: (nat, nat) -> bool, s: seq<nat>, a: set<nat>) {
    Ordered(cmp, s) && forall y :: y in s <==> y in a
  }

  lemma OrderedDistinct(cmp: (nat, nat) -> bool, s: seq<nat>)
    requires StrictWeak(cmp) && Ordered(cmp, s)
    ensures Distinct(s)
  {
    forall i, j | 0 <= i < j < |s| ensures s[i] != s[j] { assert cmp(s[i], s[j]); }
  }

  lemma StepLists(cmp: (nat, nat) -> bool, s: seq<nat>, a: set<nat>, op: Op)
    requires StrictWeak(cmp) && Lists(cmp, s, a)
    ensures Lists(cmp, Step(cmp, s, op), SetStep(cmp, a, op))
  {
    hide StrictWeak, Tied;
    match op
    case Put(x) =>
      if !exists y :: y in s && Tied(cmp, x, y) {
        PlacedOrdered(cmp, s, x);
        PlacedMembers(cmp, s, x);
      }
    case Take(x) =>
      WithoutOrdered(cmp, s, x);
      OrderedDistinct(cmp, s);
      DistinctWithout(s, x);
  }

  /** After any run the sequence lists exactly the set, in order. */
  lemma {:induction false} RunLists(cmp: (nat, nat) -> bool, s: seq<nat>, a: set<nat>, ops: seq<Op>)
    requires StrictWeak(cmp) && Lists(cmp, s, a)
    ensures Lists(cmp, Run(cmp, s, ops), SetRun(cmp, a, ops))
    decreases |ops|
  {
    hide StrictWeak, Lists;
    if ops != [] {
      StepLists(cmp, s, a, ops[0]);
      RunLists(cmp, Step(cmp, s, ops[0]), SetStep(cmp, a, ops[0]), ops[1..]);
    }
  }

  lemma {:induction false} RunsOn(cmp: (nat, nat) -> bool, s: seq<nat>, a: set<nat>, ops: seq<Op>, op: Op)
    ensures Run(cmp, s, ops + [op]) == Step(cmp, Run(cmp, s, ops), op)
    ensures SetRun(cmp, a, ops + [op]) == SetStep(cmp, SetRun(cmp, a, ops), op)
    decreases |ops|
  {
    hide Step, SetStep;
    if ops == [] {
      assert (ops + [op])[1..] == [];
    } else {
      assert (ops + [op])[1..] == ops[1..] + [op];
      RunsOn(cmp, Step(cmp, s, ops[0]), SetStep(cmp, a, ops[0]), ops[1..], op);
    }
  }

  /** The tree lists exactly the nodes of the set, in order. */
  ghost predicate Keeps(root: Root, cmp: (nat, nat) -> bool, a: set<nat>)
    reads root
  {
    root.Valid() && Lists(cmp, InOrder(root.tree), a)
  }

  /** One call of `_rb_insert` or `_rb_erase`.  Inserting a member and erasing a node that is not in the tree
      are calls that the program forbids, so they are not made. */
  method Call(root: Root, cmp: (nat, nat) -> bool, op: Op, members: set<nat>) returns (now: set<nat>)
    requires StrictWeak(cmp) && Keeps(root, cmp, members) && 0 < op.x < |root.mem|
    modifies root
    ensures Keeps(root, cmp, now) && now == SetStep(cmp, members, op) && |root.mem| == |old(root.mem)|
    ensures InOrder(root.tree) == Step(cmp, old(InOrder(root.tree)), op)
  {
    hide StrictWeak, Tied, Ordered, Placed, Without, Root.Valid, InOrder, Ids;
    ghost var s := InOrder(root.tree);
    IdsInOrder(root.tree, op.x);
    StepLists(cmp, s, members, op);
    now := members;
    match op {
      case Put(x) =>
        if x !in members {
          var r := root.Insert(x, cmp);
          if r == 0 { now := members + {x}; }
        } else {
          TiedSelf(cmp, x);
          assert exists y :: y in s && Tied(cmp, x, y);
        }
      case Take(x) =>
        if x in members {
          root.Erase(x);
          now := members - {x};
        } else {
          WithoutAbsent(s, x);
        }
    }
  }

  lemma TiedSelf(cmp: (nat, nat) -> bool, x: nat)
    requires StrictWeak(cmp)
    ensures Tied(cmp, x, x)
  {
  }

  lemma {:induction false} WithoutAbsent(s: seq<nat>, x: nat)
    requires x !in s
    ensures Without(s, x) == s
  {
    if s != [] { WithoutAbsent(s[1..], x); }
  }

  /** Any run of calls, then a lookup and a request for the first node.  The tree lists the set that the run
      makes of `a`; the lookup finds a node tied with the key if and only if that set has one, and the
      first node is the least of the set. */
  method Serve(root: Root, cmp: (nat, nat) -> bool, ops: seq<Op>, a: set<nat>, key: nat)
      returns (found: nat, first: nat)
    requires StrictWeak(cmp) && Keeps(root, cmp, a) && forall i :: 0 <= i < |ops| ==> 0 < ops[i].x < |root.mem|
    modifies root
    ensures Keeps(root, cmp, SetRun(cmp, a, ops)) && InOrder(root.tree) == Run(cmp, old(InOrder(root.tree)), ops)
    ensures found != 0 ==> found in SetRun(cmp, a, ops) && Tied(cmp, key, found)
    ensures found == 0 ==> forall y :: y in SetRun(cmp, a, ops) ==> !Tied(cmp, key, y)
    ensures if first == 0 then SetRun(cmp, a, ops) == {} else IsLeast(cmp, SetRun(cmp, a, ops), first)
  {
    hide StrictWeak, Tied, Step, SetStep, Root.Valid, InOrder;
    var members := a;
    ghost var s := InOrder(root.tree);
    var i := 0;
    assert ops[..0] == [];
    while i < |ops|
      invariant 0 <= i <= |ops| && |root.mem| == |old(root.mem)| && Keeps(root, cmp, members)
      invariant members == SetRun(cmp, a, ops[..i]) && InOrder(root.tree) == Run(cmp, s, ops[..i])
    {
      RunsOn(cmp, s, a, ops[..i], ops[i]);
      assert ops[..i + 1] == ops[..i] + [ops[i]];
      members := Call(root, cmp, ops[i], members);
      i := i + 1;
    }
    assert ops[..|ops|] == ops;
    ghost var visits;
    found, visits := root.Lookup(key, cmp);
    first := root.First();
    FirstOf(cmp, InOrder(root.tree), members);
    NotNull(root);
  }

  lemma NotNull(root: Root)
    requires root.Valid()
    ensures 0 !in InOrder(root.tree)
  {
    IdsInOrder(root.tree, 0);
    HeldNotNull(root.mem, root.root, 0, root.tree);
  }

  lemma {:induction false} HeldNotNull(h: Heap, x: nat, p: nat, t: Tree)
    requires Holds(h, x, p, t)
    ensures 0 !in Ids(t)
    decreases t
  {
    if t.T? {
      HeldNotNull(h, h[x].left, x, t.l);
      HeldNotNull(h, h[x].right, x, t.r);
    }
  }

  ghost predicate IsLeast(cmp: (nat, nat) -> bool, a: set<nat>, x: nat) {
    x in a && forall y :: y in a && y != x ==> cmp(x, y)
  }

  lemma FirstOf(cmp: (nat, nat) -> bool, s: seq<nat>, a: set<nat>)
    requires Lists(cmp, s, a)
    ensures if s == [] then a == {} else IsLeast(cmp, a, s[0])
  {
    if s == [] {
      assert forall y :: y !in a;
    } else {
      assert s[0] in s;
      forall y | y in a && y != s[0] ensures cmp(s[0], y) {
        var j :| 0 <= j < |s| && s[j] == y;
      }
    }
  }

  /** The first of the sequence is the least of the set. */
  lemma FirstIsLeast(cmp: (nat, nat) -> bool, ops: seq<Op>)
    requires StrictWeak(cmp)
    ensures var s, a := Run(cmp, [], ops), SetRun(cmp, {}, ops);
            if s == [] then a == {} else IsLeast(cmp, a, s[0])
  {
    hide StrictWeak;
    assert Lists(cmp, [], {});
    RunLists(cmp, [], {}, ops);
    FirstOf(cmp, Run(cmp, [], ops), SetRun(cmp, {}, ops));
  }
}
