/** The order of the keys, the effect of insertion on the sequence, and the height bound. */
module RbOrder {
  import opened RbModel
  import opened RbRotate
  import opened RbInsert
  import opened RbUnlink
  import opened Sequences

  /** What the comparison callback has to be: a strict weak order on nodes. */
  ghost predicate StrictWeak(cmp: (nat, nat) -> bool) {
    && (forall a :: !cmp(a, a))
    && (forall a, b, c :: cmp(a, b) && cmp(b, c) ==> cmp(a, c))
    && (forall a, b, c :: cmp(a, c) ==> cmp(a, b) || cmp(b, c))
  }

  ghost predicate Ordered(cmp: (nat, nat) -> bool, s: seq<nat>) {
    forall i, j :: 0 <= i < j < |s| ==> cmp(s[i], s[j])
  }

  /** Neither key is smaller. */
  predicate Tied(cmp: (nat, nat) -> bool, a: nat, b: nat) { !cmp(a, b) && !cmp(b, a) }

  ghost predicate Below(cmp: (nat, nat) -> bool, s: seq<nat>, x: nat) { forall y :: y in s ==> cmp(y, x) }

  ghost predicate Above(cmp: (nat, nat) -> bool, s: seq<nat>, x: nat) { forall y :: y in s ==> cmp(x, y) }

  /** Insertion into a sorted list, one element at a time. */
  function Placed(cmp: (nat, nat) -> bool, s: seq<nat>, x: nat): seq<nat> {
    if s == [] then [x] else if cmp(x, s[0]) then [x] + s else [s[0]] + Placed(cmp, s[1..], x)
  }

  lemma {:induction false} PlacedMiddle(cmp: (nat, nat) -> bool, a: seq<nat>, b: seq<nat>, x: nat)
    requires StrictWeak(cmp) && Below(cmp, a, x) && Above(cmp, b, x)
    ensures Placed(cmp, a + b, x) == a + [x] + b
  {
    if a == [] {
      assert a + b == b && a + [x] + b == [x] + b;
      if b != [] { assert b[0] in b; }
    } else {
      assert (a + b)[0] == a[0] && a[0] in a && (a + b)[1..] == a[1..] + b;
      assert !cmp(a[0], a[0]) && cmp(a[0], x);
      PlacedMiddle(cmp, a[1..], b, x);
      assert [a[0]] + (a[1..] + [x] + b) == a + [x] + b;
    }
  }

  lemma OrderedCons(cmp: (nat, nat) -> bool, x: nat, s: seq<nat>)
    requires Ordered(cmp, s) && Above(cmp, s, x)
    ensures Ordered(cmp, [x] + s)
  {
    var r := [x] + s;
    forall i, j | 0 <= i < j < |r| ensures cmp(r[i], r[j]) {
      assert r[j] == s[j - 1] && s[j - 1] in s;
      if i > 0 { assert r[i] == s[i - 1]; }
    }
  }

  lemma OrderedTail(cmp: (nat, nat) -> bool, s: seq<nat>)
    requires Ordered(cmp, s) && s != []
    ensures Ordered(cmp, s[1..]) && Above(cmp, s[1..], s[0]) && s == [s[0]] + s[1..]
  {
  }

  /** Insertion adds one node ... */
  lemma {:induction false} PlacedMembers(cmp: (nat, nat) -> bool, s: seq<nat>, x: nat)
    ensures multiset(Placed(cmp, s, x)) == multiset(s) + multiset{x}
    ensures forall y :: y in Placed(cmp, s, x) <==> y in s || y == x
  {
    if s != [] && !cmp(x, s[0]) {
      PlacedMembers(cmp, s[1..], x);
      assert s == [s[0]] + s[1..];
    }
  }

  /** ... and keeps the order, unless a tied node is present. */
  lemma {:induction false} PlacedOrdered(cmp: (nat, nat) -> bool, s: seq<nat>, x: nat)
    requires StrictWeak(cmp) && Ordered(cmp, s) && forall y :: y in s ==> !Tied(cmp, x, y)
    ensures Ordered(cmp, Placed(cmp, s, x))
  {
    if s != [] {
      OrderedTail(cmp, s);
      assert s[0] in s;
      if cmp(x, s[0]) {
        assert Above(cmp, s, x);
        OrderedCons(cmp, x, s);
      } else {
        PlacedOrdered(cmp, s[1..], x);
        PlacedMembers(cmp, s[1..], x);
        OrderedCons(cmp, s[0], Placed(cmp, s[1..], x));
      }
    }
  }

  lemma {:induction false} WithoutMembers(s: seq<nat>, x: nat)
    ensures multiset(Without(s, x)) == multiset(s) - multiset{x}
    ensures forall y :: y in Without(s, x) ==> y in s
  {
    if s != [] {
      assert s == [s[0]] + s[1..];
      if s[0] != x { WithoutMembers(s[1..], x); }
    }
  }

  lemma {:induction false} WithoutOrdered(cmp: (nat, nat) -> bool, s: seq<nat>, x: nat)
    requires Ordered(cmp, s)
    ensures Ordered(cmp, Without(s, x))
  {
    if s != [] {
      OrderedTail(cmp, s);
      if s[0] != x {
        WithoutOrdered(cmp, s[1..], x);
        WithoutMembers(s[1..], x);
        OrderedCons(cmp, s[0], Without(s[1..], x));
      }
    }
  }

  /** Descending to the left of `x`: everything after it is above the new node too. */
  lemma DescendLeft(cmp: (nat, nat) -> bool, t: Tree, c: Ctx, x: nat)
    requires StrictWeak(cmp) && t.T? && Ordered(cmp, InOrder(Plug(c, t))) && cmp(x, t.id)
    requires Below(cmp, Before(c), x) && Above(cmp, After(c), x)
    ensures Below(cmp, Before(Down(t, L, c)), x) && Above(cmp, After(Down(t, L, c)), x)
  {
    PlugInOrder(c, t);
    var s, k := InOrder(Plug(c, t)), |Before(c)| + |InOrder(t.l)|;
    assert s[k] == t.id;
    forall y | y in [t.id] + InOrder(t.r) + After(c) ensures cmp(x, y) {
      if y in InOrder(t.r) {
        var i :| 0 <= i < |InOrder(t.r)| && InOrder(t.r)[i] == y;
        assert s[k + 1 + i] == y;
        assert cmp(s[k], s[k + 1 + i]);
      }
    }
  }

  lemma DescendRight(cmp: (nat, nat) -> bool, t: Tree, c: Ctx, x: nat)
    requires StrictWeak(cmp) && t.T? && Ordered(cmp, InOrder(Plug(c, t))) && cmp(t.id, x)
    requires Below(cmp, Before(c), x) && Above(cmp, After(c), x)
    ensures Below(cmp, Before(Down(t, R, c)), x) && Above(cmp, After(Down(t, R, c)), x)
  {
    PlugInOrder(c, t);
    var s, k := InOrder(Plug(c, t)), |Before(c)| + |InOrder(t.l)|;
    assert s[k] == t.id;
    forall y | y in Before(c) + InOrder(t.l) + [t.id] ensures cmp(y, x) {
      if y in InOrder(t.l) {
        var i :| 0 <= i < |InOrder(t.l)| && InOrder(t.l)[i] == y;
        assert s[|Before(c)| + i] == y;
        assert cmp(s[|Before(c)| + i], s[k]);
      }
    }
  }

  /** One step of the descent of `_rb_insert` and `_rb_lookup`. */
  lemma Descend(cmp: (nat, nat) -> bool, h: Heap, p: nat, q: nat, t: Tree, n: nat, c: Ctx, s: Side, x: nat)
      returns (m: nat)
    requires Focus(h, p, q, t, c) && p != 0 && Fits(t, n, c) && x !in Ids(t) && x !in CIds(c)
    requires StrictWeak(cmp) && Ordered(cmp, InOrder(Plug(c, t)))
    requires Below(cmp, Before(c), x) && Above(cmp, After(c), x) && (if s == L then cmp(x, p) else cmp(p, x))
    ensures t.T? && t.id == p < |h| && Fits(Sub(t, s), m, Down(t, s, c))
    ensures Plug(Down(t, s, c), Sub(t, s)) == Plug(c, t)
    ensures Below(cmp, Before(Down(t, s, c)), x) && Above(cmp, After(Down(t, s, c)), x)
    ensures x !in Ids(Sub(t, s)) && x !in CIds(Down(t, s, c))
    ensures p in Ids(Plug(c, t)) && p in InOrder(Plug(c, t)) && p != x
    ensures Sub(t, s) < t
  {
    FocusSub(h, p, q, t, c, s);
    m := FitsDown(t, n, c, s);
    if s == L { DescendLeft(cmp, t, c, x); } else { DescendRight(cmp, t, c, x); }
    PlugMember(c, t);
    ApartTop(t);
    SubMk(t, s);
    HoldsMk(h, q, s, Sub(t, s), t.id, t.red, Sub(t, Opp(s)));
  }

  /** A descent that ends in an empty place shows that no tied node exists. */
  lemma NoneTied(cmp: (nat, nat) -> bool, c: Ctx, x: nat)
    requires Below(cmp, Before(c), x) && Above(cmp, After(c), x)
    ensures forall y :: y in InOrder(Plug(c, Leaf)) ==> !Tied(cmp, x, y)
    ensures InOrder(Plug(c, Leaf)) == Before(c) + After(c)
  {
    PlugInOrder(c, Leaf);
  }

  lemma PlugMember(c: Ctx, t: Tree)
    requires t.T?
    ensures t.id in InOrder(Plug(c, t)) && t.id in Ids(Plug(c, t))
  {
    PlugInOrder(c, t);
    IdsInOrder(Plug(c, t), t.id);
  }

  // ---------- entering and leaving the tree ----------

  /** The zipper position of a member node. */
  lemma OpenAt(h: Heap, root: nat, tree: Tree, id: nat) returns (t: Tree, n: nat, c: Ctx)
    requires Holds(h, root, 0, tree) && Apart(tree) && RedBlack(tree) && id in Ids(tree)
    ensures 0 < id < |h| && Focus(h, id, h[id].parent, t, c) && Fits(t, n, c) && t.T? && t.id == id
    ensures root == RootOf(c, id) && Plug(c, t) == tree && Ids(t) + CIds(c) == Ids(tree)
  {
    Open(h, root, 0, tree, Top, id);
    OpenColours(tree, BlackHeight(tree), Top, id);
    t, c := SubAt(tree, id), PathTo(tree, id, Top);
    n := BlackHeight(t);
    PathIds(c, t, t);
  }

  /** The position at the root, in a heap where only a foreign cell was written. */
  lemma StartAt(h: Heap, k: Heap, root: nat, tree: Tree, node: nat)
    requires Holds(h, root, 0, tree) && Apart(tree) && RedBlack(tree) && OnlyAt(h, k, {node}) && node !in Ids(tree)
    ensures Focus(k, root, 0, tree, Top) && Fits(tree, BlackHeight(tree), Top) && RootOf(Top, root) == root
    ensures root < |h| || root == 0
    ensures root == 0 <==> tree.Leaf?
  {
    HoldsFrame(h, k, root, 0, tree);
    HoldsRoot(h, root, 0, tree);
  }

  lemma StartHere(h: Heap, root: nat, tree: Tree)
    requires Holds(h, root, 0, tree) && Apart(tree)
    ensures Focus(h, root, 0, tree, Top) && Plug(Top, tree) == tree && Before(Top) == []
    ensures (root < |h| || root == 0) && (root == 0 <==> tree.Leaf?)
    ensures tree.Leaf? ==> InOrder(tree) == []
  {
    HoldsRoot(h, root, 0, tree);
  }

  /** Hanging the new red leaf into the empty place below `p`. */
  lemma GrowHeap(h: Heap, k: Heap, p: nat, q: nat, t: Tree, c: Ctx, s: Side, node: nat)
    requires Focus(h, p, q, t, c) && 0 < p < |h| && 0 < node < |h| && Kid(h[p], s) == 0
    requires node !in Ids(t) && node !in CIds(c) && OnlyAt(h, k, {p, node})
    requires k[p] == WithKid(h[p], s, node) && k[node] == Node(0, 0, p, true)
    ensures t.T? && Sub(t, s).Leaf? && Focus(k, node, p, T(Leaf, node, true, Leaf), Down(t, s, c))
  {
    FocusSub(h, p, q, t, c, s);
    SubMk(t, s);
    HoldsMk(h, q, s, Leaf, p, t.red, Sub(t, Opp(s)));
    LinksReplace(h, k, p, 0, node, Down(t, s, c));
  }

  /** The new leaf starts the fix-up with at most one flaw, its red parent. */
  lemma NewLeaf(c: Ctx, n: nat, node: nat)
    requires Fits(Leaf, n, c)
    ensures InsertInv(T(Leaf, node, true, Leaf), 0, c)
  {
  }

  lemma NewOrder(cmp: (nat, nat) -> bool, c: Ctx, node: nat)
    requires StrictWeak(cmp) && Below(cmp, Before(c), node) && Above(cmp, After(c), node)
    ensures InOrder(Plug(c, T(Leaf, node, true, Leaf))) == Placed(cmp, InOrder(Plug(c, Leaf)), node)
  {
    PlugInOrder(c, T(Leaf, node, true, Leaf));
    NoneTied(cmp, c, node);
    PlacedMiddle(cmp, Before(c), After(c), node);
    assert Before(c) + [node] + After(c) == InOrder(Plug(c, T(Leaf, node, true, Leaf)));
  }

  lemma DownPlug(t: Tree, c: Ctx, s: Side)
    requires t.T?
    ensures Plug(Down(t, s, c), Sub(t, s)) == Plug(c, t)
    ensures Height(t) >= 1 + Height(Sub(t, s)) && (s == L ==> Before(Down(t, s, c)) == Before(c))
  {
    SubMk(t, s);
  }

  lemma RootAny(c: Ctx, x: nat)
    ensures c.Step? ==> RootOf(c, 0) == RootOf(c, x)
  {
  }

  /** Before the descent nothing is known to lie below or above. */
  lemma NewRoot(cmp: (nat, nat) -> bool, x: nat, tree: Tree)
    ensures Below(cmp, Before(Top), x) && Above(cmp, After(Top), x) && Plug(Top, tree) == tree && CIds(Top) == {}
  {
  }

  /** The tree is empty: the new node stands alone. */
  lemma NewAlone(k: Heap, node: nat)
    requires 0 < node < |k| && k[node] == Node(0, 0, 0, true)
    ensures Focus(k, node, 0, T(Leaf, node, true, Leaf), Top)
  {
  }

  /** Nothing but a foreign cell was written: the tree still stands. */
  lemma Unharmed(h: Heap, k: Heap, root: nat, tree: Tree, node: nat)
    requires Holds(h, root, 0, tree) && OnlyAt(h, k, {node}) && node !in Ids(tree)
    ensures Holds(k, root, 0, tree)
  {
    HoldsFrame(h, k, root, 0, tree);
  }

  lemma IdsPlaced(cmp: (nat, nat) -> bool, t: Tree, u: Tree, x: nat)
    requires InOrder(u) == Placed(cmp, InOrder(t), x)
    ensures Ids(u) == Ids(t) + {x}
  {
    PlacedMembers(cmp, InOrder(t), x);
    forall y ensures y in Ids(u) <==> y in Ids(t) + {x} {
      IdsInOrder(t, y);
      IdsInOrder(u, y);
    }
  }

  lemma IdsWithout(t: Tree, u: Tree, x: nat)
    requires InOrder(u) == Without(InOrder(t), x)
    ensures Ids(u) <= Ids(t)
  {
    WithoutMembers(InOrder(t), x);
    forall y | y in Ids(u) ensures y in Ids(t) {
      IdsInOrder(t, y);
      IdsInOrder(u, y);
    }
  }

  // ---------- height ----------

  function Height(t: Tree): nat {
    match t
    case Leaf => 0
    case T(l, _, _, r) => 1 + (if Height(l) > Height(r) then Height(l) else Height(r))
  }

  lemma {:induction false} HeightBound(t: Tree, n: nat)
    requires Bal(t, n) && NoRR(t)
    ensures Height(t) <= 2 * n + (if IsRed(t) then 1 else 0)
    ensures Pow2(n) <= |InOrder(t)| + 1
  {
    if t.T? {
      var m := if t.red then n else n - 1;
      HeightBound(t.l, m);
      HeightBound(t.r, m);
    }
  }

  lemma {:induction false} Pow2Sum(a: nat, b: nat)
    ensures Pow2(a + b) == Pow2(a) * Pow2(b)
    ensures Pow2(a) <= Pow2(a + b)
  {
    if b > 0 { Pow2Sum(a, b - 1); }
  }

  /** A red-black tree of `n` nodes has height at most `2 * log2(n + 1)`. */
  lemma RedBlackHeight(t: Tree)
    requires RedBlack(t)
    ensures Pow2(Height(t)) <= (|InOrder(t)| + 1) * (|InOrder(t)| + 1)
  {
    var n, k := BlackHeight(t), |InOrder(t)| + 1;
    HeightBound(t, n);
    Pow2Sum(n, n);
    Pow2Sum(Height(t), 2 * n - Height(t));
    Square(Pow2(n), k);
  }

  lemma Square(a: nat, b: nat)
    requires a <= b
    ensures a * a <= b * b
  {
  }

  /** A visit count that never exceeds the height stays within the bound. */
  lemma VisitsBound(t: Tree, visits: nat)
    requires RedBlack(t) && visits <= Height(t)
    ensures Pow2(visits) <= (|InOrder(t)| + 1) * (|InOrder(t)| + 1)
  {
    RedBlackHeight(t);
    Pow2Sum(visits, Height(t) - visits);
  }
}
