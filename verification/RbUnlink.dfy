/** What `__rb_erase` does to the cells, before any rebalancing. */
module RbUnlink {
  import opened Sequences
  import opened RbModel
  import opened RbRotate
  import opened RbInsert
  import opened RbErase

  /** A subtree that fits its surroundings: plugging it in gives a red-black tree. */
  ghost predicate Fits(t: Tree, n: nat, c: Ctx) {
    Bal(t, n) && NoRR(t) && CBal(c, n) && CNoRR(c) && (IsRed(t) ==> c.Step? && !c.red)
  }

  function Down(t: Tree, s: Side, c: Ctx): Ctx
    requires t.T?
  {
    Step(s, t.id, t.red, Sub(t, Opp(s)), c)
  }

  lemma FitsDown(t: Tree, n: nat, c: Ctx, s: Side) returns (m: nat)
    requires Fits(t, n, c) && t.T?
    ensures Fits(Sub(t, s), m, Down(t, s, c))
    ensures Plug(Down(t, s, c), Sub(t, s)) == Plug(c, t)
  {
    m := if t.red then n else n - 1;
    SubMk(t, s);
  }

  lemma FocusSub(h: Heap, x: nat, q: nat, t: Tree, c: Ctx, s: Side)
    requires Focus(h, x, q, t, c) && x != 0
    ensures t.T? && t.id == x && x < |h| && h[x].red == t.red && h[x].parent == q
    ensures Kid(h[x], s) == RootId(Sub(t, s))
    ensures Focus(h, Kid(h[x], s), x, Sub(t, s), Down(t, s, c))
    ensures RootOf(Down(t, s, c), Kid(h[x], s)) == RootOf(c, x)
    ensures Kid(h[x], s) == 0 || (Kid(h[x], s) < |h| && h[Kid(h[x], s)].parent == x)
    ensures Kid(h[x], s) == 0 <==> Sub(t, s).Leaf?
  {
    SubMk(t, s);
    FocusDown(h, x, q, s, Sub(t, s), t.red, Sub(t, Opp(s)), c);
    HoldsRoot(h, RootId(Sub(t, s)), x, Sub(t, s));
  }

  // ---------- the sequence without one node ----------

  lemma {:induction false} WithoutMiddle(a: seq<nat>, x: nat, b: seq<nat>)
    requires x !in a
    ensures Without(a + [x] + b, x) == a + b
  {
    if a == [] {
      assert a + [x] + b == [x] + b;
      assert a + b == b;
    } else {
      WithoutMiddle(a[1..], x, b);
      assert a + [x] + b == [a[0]] + (a[1..] + [x] + b);
      assert [a[0]] + (a[1..] + b) == a + b;
    }
  }

  lemma {:induction false} BeforeIds(c: Ctx, x: nat)
    ensures x in Before(c) || x in After(c) ==> x in CIds(c)
  {
    if c.Step? {
      BeforeIds(c.up, x);
      IdsInOrder(c.sib, x);
    }
  }

  lemma DropMiddle(B: seq<nat>, P: seq<nat>, x: nat, Q: seq<nat>, A: seq<nat>)
    requires x !in B && x !in P
    ensures B + (P + Q) + A == Without(B + (P + [x] + Q) + A, x)
  {
    WithoutMiddle(B + P, x, Q + A);
    assert (B + P) + [x] + (Q + A) == B + (P + [x] + Q) + A;
    assert (B + P) + (Q + A) == B + (P + Q) + A;
  }

  /** Dropping the node at the focus, given what is left of its subtree. */
  lemma DropInOrder(t: Tree, c: Ctx, u: Tree)
    requires t.T? && Apart(t) && Ids(t) !! CIds(c) && InOrder(u) == InOrder(t.l) + InOrder(t.r)
    ensures InOrder(Plug(c, u)) == Without(InOrder(Plug(c, t)), t.id)
  {
    PlugInOrder(c, t);
    PlugInOrder(c, u);
    BeforeIds(c, t.id);
    IdsInOrder(t.l, t.id);
    ApartTop(t);
    assert InOrder(t) == InOrder(t.l) + [t.id] + InOrder(t.r);
    hide InOrder, Plug, Ids, Without;
    DropMiddle(Before(c), InOrder(t.l), t.id, InOrder(t.r), After(c));
  }

  lemma ApartTop(t: Tree)
    requires t.T? && Apart(t)
    ensures t.id !in Ids(t.l) && t.id !in Ids(t.r) && t.id in Ids(t)
  {
  }

  // ---------- a node with at most one child ----------

  /** The cells after the only child `x` took the node's place. */
  ghost predicate PullCells(h: Heap, k: Heap, node: nat, x: nat, c: Ctx)
    requires node < |h|
  {
    && OnlyAt(h, k, {x, h[node].parent})
    && (0 < x < |h| ==> k[x] == h[x].(parent := h[node].parent, red := h[node].red))
    && (c.Step? && c.id < |h| ==> k[c.id] == WithKid(h[c.id], c.s, x))
  }

  lemma PullHeap(h: Heap, k: Heap, node: nat, q: nat, t: Tree, s: Side, c: Ctx)
    requires Focus(h, node, q, t, c) && node != 0 && node < |h| && h[node].parent == q && t.T?
    requires Sub(t, Opp(s)).Leaf? && PullCells(h, k, node, RootId(Sub(t, s)), c)
    ensures Focus(k, RootId(Sub(t, s)), q, Paint(Sub(t, s), t.red), c)
  {
    var u := Sub(t, s);
    FocusSub(h, node, q, t, c, s);
    FocusHead(h, node, q, t, c);
    RootIn(u);
    hide Holds, Links, CIds, CApart;
    PaintIds(u, t.red);
    HoldsPaint(h, k, node, u, q, t.red);
    LinksReplace(h, k, q, node, RootId(u), c);
  }

  /** Line 129-137: a lone child is red below a black node and takes its colour; without any
      child, a black node leaves its place one short. */
  lemma PullColours(t: Tree, n: nat, s: Side, c: Ctx)
    requires Fits(t, n, c) && t.T? && Sub(t, Opp(s)).Leaf?
    ensures var u := Sub(t, s);
            && (u.T? || t.red || c.Top? ==> RedBlack(Plug(c, Paint(u, t.red))))
            && (u.Leaf? && !t.red && c.Step? ==> EraseInv(Leaf, 0, c))
  {
    var u := Sub(t, s);
    var m := if t.red then n else n - 1;
    assert Bal(u, m) && Bal(Sub(t, Opp(s)), m);
    if u.T? {
      assert u.red;
      var _ := FitsDown(t, n, c, s);
      PlugRedBlack(c, Paint(u, false), 1);
    } else if t.red {
      PlugRedBlack(c, Leaf, 0);
    } else if c.Top? {
      PlugRedBlack(c, Leaf, 0);
    }
  }

  /** Side conditions of the two updates: the child and the parent are different cells. */
  lemma HalfPlaces(h: Heap, node: nat, q: nat, t: Tree, s: Side, c: Ctx)
    requires Focus(h, node, q, t, c) && t.T? && node != 0
    ensures var x := RootId(Sub(t, s)); x != node && (x != 0 ==> x != q && 0 < x < |h|) && x in Ids(t) + {0}
    ensures node in Ids(t) && (q == 0 || q in CIds(c))
    ensures Sub(t, s).Leaf? <==> RootId(Sub(t, s)) == 0
    ensures Sub(t, Opp(s)).Leaf? <==> RootId(Sub(t, Opp(s))) == 0
    ensures forall x: nat :: RootOf(c, x) == if c.Top? then x else RootOf(c, node)
    ensures Apart(t) && Ids(t) !! CIds(c)
  {
    var x := RootId(Sub(t, s));
    FocusSub(h, node, q, t, c, s);
    FocusSub(h, node, q, t, c, Opp(s));
    HoldsRoot(h, RootId(Sub(t, Opp(s))), node, Sub(t, Opp(s)));
    HoldsRoot(h, x, node, Sub(t, s));
    RootIn(Sub(t, s));
    ApartTop(t);
    LinksHead(h, q, node, c);
  }

  /** What `__rb_erase` has achieved when the only child, if any, is in place. */
  lemma PullDone(k: Heap, t: Tree, n: nat, s: Side, c: Ctx, q: nat) returns (u: Tree)
    requires Fits(t, n, c) && t.T? && Apart(t) && Ids(t) !! CIds(c) && Sub(t, Opp(s)).Leaf?
    requires Focus(k, RootId(Sub(t, s)), q, Paint(Sub(t, s), t.red), c)
    ensures u == Plug(c, Paint(Sub(t, s), t.red)) && InOrder(u) == Without(InOrder(Plug(c, t)), t.id)
    ensures Sub(t, s).T? || t.red || c.Top? ==>
              Holds(k, RootOf(c, RootId(Sub(t, s))), 0, u) && Apart(u) && RedBlack(u)
    ensures Sub(t, s).Leaf? && !t.red && c.Step? ==>
              EraseInv(Leaf, 0, c) && Focus(k, 0, q, Leaf, c) && u == Plug(c, Leaf) && 0 < q < |k|
  {
    u := Plug(c, Paint(Sub(t, s), t.red));
    PullColours(t, n, s, c);
    PaintInOrder(Sub(t, s), t.red);
    assert InOrder(Paint(Sub(t, s), t.red)) == InOrder(t.l) + InOrder(t.r);
    DropInOrder(t, c, Paint(Sub(t, s), t.red));
    PlugHolds(k, RootId(Sub(t, s)), q, Paint(Sub(t, s), t.red), c);
    PlugApart(c, Paint(Sub(t, s), t.red));
    LinksHead(k, q, RootId(Sub(t, s)), c);
  }

  // ---------- a node with two children: the successor moves into its place ----------

  function Append(a: Ctx, b: Ctx): Ctx {
    match a
    case Top => b
    case Step(s, id, red, sib, up) => Step(s, id, red, sib, Append(up, b))
  }

  /** The right spine entry: the hole is the right child of `i`, whose left subtree is `l`. */
  function Base(i: nat, red: bool, l: Tree, c: Ctx): Ctx { Step(R, i, red, l, c) }

  predicate LeftOnly(c: Ctx) { c.Step? ==> c.s == L && LeftOnly(c.up) }

  /** The topmost node of a path. */
  function Outmost(c: Ctx): nat
    requires c.Step?
  {
    if c.up.Top? then c.id else Outmost(c.up)
  }

  lemma {:induction false} AppendIds(a: Ctx, b: Ctx)
    ensures CIds(Append(a, b)) == CIds(a) + CIds(b)
    ensures CApart(Append(a, b)) <==> CApart(a) && CApart(b) && CIds(a) !! CIds(b)
    ensures a.Step? ==> Outmost(a) in CIds(a)
  {
    if a.Step? { AppendIds(a.up, b); }
  }

  lemma {:induction false} AppendOrder(a: Ctx, b: Ctx)
    requires LeftOnly(a)
    ensures Before(Append(a, b)) == Before(b) && After(Append(a, b)) == After(a) + After(b)
  {
    if a.Step? {
      AppendOrder(a.up, b);
      assert After(Append(a, b)) == [a.id] + InOrder(a.sib) + After(Append(a.up, b));
      assert [a.id] + InOrder(a.sib) + (After(a.up) + After(b)) == After(a) + After(b);
    }
  }

  lemma {:induction false} AppendRoot(a: Ctx, i: nat, red: bool, l: Tree, c: Ctx, x: nat)
    ensures RootOf(Append(a, Base(i, red, l, c)), x) == RootOf(c, i)
  {
    if a.Step? { AppendRoot(a.up, i, red, l, c, a.id); }
  }

  /** Node ids do not matter to the colour invariants. */
  lemma {:induction false} AppendColours(a: Ctx, i: nat, j: nat, red: bool, l: Tree, c: Ctx, n: nat)
    requires CBal(Append(a, Base(i, red, l, c)), n) && CNoRR(Append(a, Base(i, red, l, c)))
    ensures CBal(Append(a, Base(j, red, l, c)), n) && CNoRR(Append(a, Base(j, red, l, c)))
    ensures Append(a, Base(j, red, l, c)).Step?
    ensures Append(a, Base(j, red, l, c)).red == Append(a, Base(i, red, l, c)).red
  {
    if a.Step? { AppendColours(a.up, i, j, red, l, c, if a.red then n else n + 1); }
  }

  /** Renaming the node under the left spine: its old children now point at the new one. */
  lemma {:induction false} LinksRebase(h: Heap, k: Heap, p: nat, x: nat, a: Ctx, i: nat, j: nat, red: bool, l: Tree,
      c: Ctx)
    requires Links(h, p, x, Append(a, Base(i, red, l, c))) && CApart(a) && a.Step? && LeftOnly(a)
    requires Same(h, k, CIds(a) - {Outmost(a)}) && |h| == |k|
    requires Outmost(a) < |h| && k[Outmost(a)] == h[Outmost(a)].(parent := j)
    requires Links(k, j, Outmost(a), Base(j, red, l, c))
    ensures Links(k, p, x, Append(a, Base(j, red, l, c)))
    decreases a
  {
    AppendIds(a.up, Top);
    HoldsFrame(h, k, Kid(h[p], Opp(a.s)), p, a.sib);
    if a.up.Step? {
      LinksRebase(h, k, h[p].parent, p, a.up, i, j, red, l, c);
    }
  }

  /** Who lies where around a node `i` (subtree `t`) and its successor `j` (subtree `s`). */
  ghost predicate Spine(h: Heap, i: nat, q: nat, t: Tree, c: Ctx, j: nat, s: Tree, a: Ctx) {
    && 0 < i < |h| && 0 < j < |h| && h[i].parent == q && t.T? && t.id == i && h[i].red == t.red
    && s.T? && s.id == j && h[j].red == s.red
    && h[i].left == RootId(t.l) && h[i].right == RootId(t.r) && h[j].right == RootId(s.r)
    && Holds(h, RootId(t.l), i, t.l) && Links(h, q, i, c) && Holds(h, RootId(s.r), j, s.r)
    && Links(h, h[j].parent, j, Append(a, Base(i, t.red, t.l, c))) && LeftOnly(a)
    && (a.Step? ==> t.r.T? && Outmost(a) == t.r.id && h[j].parent == a.id)
    && (a.Top? ==> t.r == s && h[j].parent == i)
  }

  ghost predicate SpineApart(i: nat, t: Tree, c: Ctx, j: nat, s: Tree, a: Ctx)
    requires t.T? && s.T?
  {
    && Apart(t.l) && Apart(s.r) && CApart(a) && CApart(c) && i != j
    && i !in CIds(a) && i !in Ids(s.r) && i !in Ids(t.l) && i !in CIds(c)
    && j !in CIds(a) && j !in Ids(s.r) && j !in Ids(t.l) && j !in CIds(c)
    && Ids(s.r) !! CIds(a) && Ids(s.r) !! Ids(t.l) && Ids(s.r) !! CIds(c)
    && CIds(a) !! Ids(t.l) && CIds(a) !! CIds(c) && Ids(t.l) !! CIds(c)
  }

  lemma {:induction false} PlugOutmost(a: Ctx, t: Tree)
    requires a.Step?
    ensures Plug(a, t).T? && Plug(a, t).id == Outmost(a)
  {
    if a.up.Step? { PlugOutmost(a.up, Mk(a.s, t, a.id, a.red, a.sib)); }
  }

  lemma SpineOf(h: Heap, i: nat, q: nat, t: Tree, c: Ctx, j: nat, s: Tree, a: Ctx)
    requires i != 0 && j != 0 && j < |h| && Focus(h, i, q, t, c)
    requires Focus(h, j, h[j].parent, s, Append(a, Base(i, t.T? && t.red, if t.T? then t.l else Leaf, c)))
    requires LeftOnly(a) && (t.T? ==> Plug(a, s) == t.r)
    ensures Spine(h, i, q, t, c, j, s, a) && SpineApart(i, t, c, j, s, a)
  {
    FocusSub(h, i, q, t, c, L);
    FocusSub(h, i, q, t, c, R);
    FocusSub(h, j, h[j].parent, s, Append(a, Base(i, t.red, t.l, c)), R);
    AppendIds(a, Base(i, t.red, t.l, c));
    if a.Step? { PlugOutmost(a, s); }
    LinksHead(h, h[j].parent, j, Append(a, Base(i, t.red, t.l, c)));
    ApartTop(s);
  }

  /** Lines 150-167 for a successor that is not the right child itself. */
  ghost predicate SpliceCells(h: Heap, k: Heap, i: nat, j: nat, p: nat, r0: nat, c: Ctx)
    requires i < |h| && j < |h| && p < |h| && r0 < |h|
  {
    var q, l0, c2 := h[i].parent, h[i].left, h[j].right;
    && OnlyAt(h, k, {p, r0, j, l0, c2, q})
    && k[p].left == c2 && k[p].right == h[p].right && k[p].red == h[p].red
    && k[r0].right == h[r0].right && k[r0].red == h[r0].red && k[r0].parent == j
    && (p != r0 ==> k[p].parent == h[p].parent && k[r0].left == h[r0].left)
    && k[j] == Node(l0, r0, q, h[i].red)
    && (0 < l0 < |h| ==> k[l0] == h[l0].(parent := j))
    && (0 < c2 < |h| ==> k[c2] == h[c2].(parent := p, red := false))
    && (c.Step? && c.id < |h| ==> k[c.id] == WithKid(h[c.id], c.s, j))
  }

  /** Lines 154-167, whose left half both kinds of successor share. */
  ghost predicate SeatCells(h: Heap, k: Heap, i: nat, j: nat, p: nat, c2: nat, c: Ctx)
    requires i < |h| && j < |h|
  {
    var q, l0 := h[i].parent, h[i].left;
    && OnlyAt(h, k, {j, l0, c2, q})
    && k[j] == h[j].(left := l0, parent := q, red := h[i].red)
    && (0 < l0 < |h| ==> k[l0] == h[l0].(parent := j))
    && (0 < c2 < |h| ==> k[c2] == h[c2].(parent := p, red := false))
    && (c.Step? && c.id < |h| ==> k[c.id] == WithKid(h[c.id], c.s, j))
  }

  /** The same lines for a successor that is the right child. */
  ghost predicate PromoteCells(h: Heap, k: Heap, i: nat, j: nat, c: Ctx)
    requires i < |h| && j < |h|
  {
    var q, l0, c2 := h[i].parent, h[i].left, h[j].right;
    && OnlyAt(h, k, {j, l0, c2, q})
    && k[j] == Node(l0, c2, q, h[i].red)
    && (0 < l0 < |h| ==> k[l0] == h[l0].(parent := j))
    && (0 < c2 < |h| ==> k[c2] == h[c2].(parent := j, red := false))
    && (c.Step? && c.id < |h| ==> k[c.id] == WithKid(h[c.id], c.s, j))
  }

  lemma PromoteHeap(h: Heap, k: Heap, i: nat, q: nat, t: Tree, c: Ctx, j: nat, s: Tree)
    requires Spine(h, i, q, t, c, j, s, Top) && SpineApart(i, t, c, j, s, Top) && PromoteCells(h, k, i, j, c)
    ensures Focus(k, RootId(s.r), j, Paint(s.r, false), Base(j, t.red, t.l, c))
  {
    hide Holds, CIds, CApart, Ids, Apart, Paint;
    LinksHead(h, q, i, c);
    RootIn(t.l);
    RootIn(s.r);
    HoldsRoot(h, RootId(t.l), i, t.l);
    HoldsRoot(h, RootId(s.r), j, s.r);
    HoldsRehang(h, k, i, t.l, j);
    LinksReplace(h, k, q, i, j, c);
    HoldsPaint(h, k, j, s.r, j, false);
    PaintIds(s.r, false);
    BaseApart(j, t.red, t.l, c);
  }

  lemma BaseApart(j: nat, red: bool, l: Tree, c: Ctx)
    requires Apart(l) && CApart(c) && j !in Ids(l) && j !in CIds(c) && Ids(l) !! CIds(c)
    ensures CApart(Base(j, red, l, c)) && CIds(Base(j, red, l, c)) == {j} + Ids(l) + CIds(c)
  {
  }

  lemma SpliceHeap(h: Heap, k: Heap, i: nat, q: nat, t: Tree, c: Ctx, j: nat, s: Tree, a: Ctx)
    requires Spine(h, i, q, t, c, j, s, a) && SpineApart(i, t, c, j, s, a) && a.Step? && t.r.T?
    requires a.id < |h| && t.r.id < |h| && SpliceCells(h, k, i, j, a.id, t.r.id, c)
    ensures Focus(k, RootId(s.r), a.id, Paint(s.r, false), Append(a, Base(j, t.red, t.l, c)))
  {
    hide Holds, CIds, CApart, Ids, Apart, Paint, Links, Append;
    var p, r0, c2, base := a.id, t.r.id, RootId(s.r), Base(i, t.red, t.l, c);
    LinksHead(h, q, i, c);
    AppendIds(a, base);
    AppendIds(a, Base(j, t.red, t.l, c));
    BaseApart(i, t.red, t.l, c);
    BaseApart(j, t.red, t.l, c);
    RootIn(t.l);
    RootIn(s.r);
    StepIn(a);
    HoldsRoot(h, RootId(t.l), i, t.l);
    HoldsRoot(h, RootId(s.r), j, s.r);
    var m := h[p := h[p].(left := c2)];
    AppendStep(a, base);
    LinksReplace(h, m, p, j, c2, Append(a, base));
    HoldsRehang(h, k, i, t.l, j);
    LinksReplace(h, k, q, i, j, c);
    BaseLinks(k, j, r0, t.red, t.l, c);
    LinksRebase(m, k, p, c2, a, i, j, t.red, t.l, c);
    HoldsPaint(h, k, j, s.r, p, false);
    PaintIds(s.r, false);
  }

  lemma StepIn(a: Ctx)
    requires a.Step?
    ensures a.id in CIds(a)
  {
  }

  lemma AppendStep(a: Ctx, b: Ctx)
    requires a.Step? && LeftOnly(a)
    ensures Append(a, b).Step? && Append(a, b).s == L && Append(a, b).id == a.id
  {
  }

  lemma BaseLinks(k: Heap, j: nat, x: nat, red: bool, l: Tree, c: Ctx)
    requires 0 < j < |k| && k[j].right == x && k[j].red == red && Holds(k, k[j].left, j, l)
    requires Links(k, k[j].parent, j, c)
    ensures Links(k, j, x, Base(j, red, l, c))
  {
  }

  /** Lines 159-167: the successor's lone child is red below it and turns black; without one, a
      black successor leaves its old place one short. */
  lemma SpliceColours(t: Tree, s: Tree, n: nat, a: Ctx, c: Ctx, j: nat)
    requires t.T? && s.T? && s.l.Leaf? && Fits(s, n, Append(a, Base(t.id, t.red, t.l, c)))
    ensures var d := Append(a, Base(j, t.red, t.l, c));
            && (s.r.T? || s.red ==> RedBlack(Plug(d, Paint(s.r, false))))
            && (s.r.Leaf? && !s.red ==> EraseInv(Leaf, 0, d))
  {
    AppendColours(a, t.id, j, t.red, t.l, c, n);
    var d := Append(a, Base(j, t.red, t.l, c));
    var m := if s.red then n else n - 1;
    assert Bal(s.r, m) && Bal(s.l, m);
    if s.r.T? {
      var _ := FitsDown(s, n, Append(a, Base(t.id, t.red, t.l, c)), R);
      assert s.r.red;
      PlugRedBlack(d, Paint(s.r, false), 1);
    } else if s.red {
      PlugRedBlack(d, Leaf, 0);
    }
  }

  lemma {:induction false} PlugAppend(a: Ctx, b: Ctx, t: Tree)
    ensures Plug(Append(a, b), t) == Plug(b, Plug(a, t))
  {
    if a.Step? { PlugAppend(a.up, b, Mk(a.s, t, a.id, a.red, a.sib)); }
  }

  /** The successor replaces the node in the sequence: the node is what is missing. */
  lemma SpliceInOrder(t: Tree, s: Tree, a: Ctx, c: Ctx, j: nat)
    requires t.T? && s.T? && s.l.Leaf? && s.id == j && Plug(a, s) == t.r && LeftOnly(a)
    requires Apart(t) && Ids(t) !! CIds(c)
    ensures InOrder(Plug(Append(a, Base(j, t.red, t.l, c)), Paint(s.r, false))) == Without(InOrder(Plug(c, t)), t.id)
  {
    hide InOrder, Plug, Without, Append, Apart, Ids, CIds, LeftOnly;
    var u := Plug(a, Paint(s.r, false));
    var w := T(t.l, j, t.red, u);
    RightInOrder(s, a, u);
    PlugAppend(a, Base(j, t.red, t.l, c), Paint(s.r, false));
    BasePlug(j, t.red, t.l, c, u);
    SpliceOrder(t, w, j);
    DropInOrder(t, c, w);
  }

  lemma BasePlug(j: nat, red: bool, l: Tree, c: Ctx, u: Tree)
    ensures Plug(Base(j, red, l, c), u) == Plug(c, T(l, j, red, u))
  {
  }

  lemma SpliceOrder(t: Tree, w: Tree, j: nat)
    requires t.T? && w.T? && w.l == t.l && w.id == j && InOrder(t.r) == [j] + InOrder(w.r)
    ensures InOrder(w) == InOrder(t.l) + InOrder(t.r)
  {
    SeqAssoc(InOrder(t.l), j, InOrder(w.r));
  }

  lemma SeqAssoc(A: seq<nat>, j: nat, B: seq<nat>)
    ensures A + [j] + B == A + ([j] + B)
  {
  }

  lemma RightInOrder(s: Tree, a: Ctx, u: Tree)
    requires s.T? && s.l.Leaf? && LeftOnly(a) && u == Plug(a, Paint(s.r, false))
    ensures InOrder(Plug(a, s)) == [s.id] + InOrder(u)
  {
    hide InOrder, Plug, Paint, Before, After, LeftOnly;
    PlugInOrder(a, s);
    PlugInOrder(a, Paint(s.r, false));
    PaintInOrder(s.r, false);
    LeftBefore(a);
    NoLeft(s);
    assert [] + ([s.id] + InOrder(s.r)) + After(a) == [s.id] + ([] + InOrder(s.r) + After(a));
  }

  lemma NoLeft(s: Tree)
    requires s.T? && s.l.Leaf?
    ensures InOrder(s) == [s.id] + InOrder(s.r)
  {
    assert InOrder(s) == [] + [s.id] + InOrder(s.r);
  }

  lemma {:induction false} LeftBefore(a: Ctx)
    requires LeftOnly(a)
    ensures Before(a) == []
  {
    if a.Step? { LeftBefore(a.up); }
  }

  lemma SpineDown(s: Tree, a: Ctx, b: Ctx)
    requires s.T?
    ensures Append(Step(L, s.id, s.red, s.r, a), b) == Down(s, L, Append(a, b))
    ensures Plug(Step(L, s.id, s.red, s.r, a), s.l) == Plug(a, s)
  {
  }

  /** The six or so cells written are all different, except that the successor's parent may be the
      right child. */
  lemma SpinePlaces(h: Heap, i: nat, q: nat, t: Tree, c: Ctx, j: nat, s: Tree, a: Ctx)
    requires Focus(h, i, q, t, c) && Spine(h, i, q, t, c, j, s, a) && SpineApart(i, t, c, j, s, a)
    requires h[i].left != 0 && h[i].right != 0 && Plug(a, s) == t.r
    ensures var l0, r0, c2, p := h[i].left, h[i].right, h[j].right, h[j].parent;
            && 0 < l0 < |h| && l0 !in {i, j, c2, q} && c2 < |h| && (c2 != 0 ==> c2 !in {i, j, q})
            && 0 < r0 < |h| && r0 !in {i, q} && j !in {i, q} && t.l.T? && t.r.T? && r0 == t.r.id
            && (a.Step? ==> 0 < p < |h| && p !in {i, j, l0, c2, q} && r0 !in {j, l0, c2, q})
            && (q == 0 || q in CIds(c)) && i in Ids(t) && l0 in Ids(t) && r0 in Ids(t) && j in Ids(t)
            && p in Ids(t) && (c2 == 0 || c2 in Ids(t))
  {
    var l0, r0, c2, p := h[i].left, h[i].right, h[j].right, h[j].parent;
    var d := Append(a, Base(i, t.red, t.l, c));
    HoldsRoot(h, l0, i, t.l);
    HoldsRoot(h, c2, j, s.r);
    RootIn(t.l);
    RootIn(s.r);
    RootIn(t.r);
    FocusSub(h, i, q, t, c, R);
    LinksHead(h, q, i, c);
    LinksHead(h, p, j, d);
    ApartTop(t);
    PlugInside(a, s);
    if a.Step? {
      AppendIds(a, Top);
      StepIn(a);
      AppendStep(a, Base(i, t.red, t.l, c));
    }
  }

  lemma {:induction false} PlugInside(a: Ctx, s: Tree)
    ensures Ids(Plug(a, s)) == Ids(s) + CIds(a)
  {
    PathIds(a, s, s);
  }

  /** What `__rb_erase` has achieved when the successor is in place. */
  lemma SpliceDone(h: Heap, k: Heap, p: nat, q: nat, t: Tree, c: Ctx, j: nat, s: Tree, n: nat, a: Ctx) returns (u: Tree)
    requires t.T? && s.T? && s.l.Leaf? && s.id == j && Plug(a, s) == t.r && LeftOnly(a)
    requires Focus(h, t.id, q, t, c) && Fits(s, n, Append(a, Base(t.id, t.red, t.l, c)))
    requires Focus(k, RootId(s.r), p, Paint(s.r, false), Append(a, Base(j, t.red, t.l, c)))
    ensures var d := Append(a, Base(j, t.red, t.l, c));
            && u == Plug(d, Paint(s.r, false)) && InOrder(u) == Without(InOrder(Plug(c, t)), t.id)
            && RootOf(d, RootId(s.r)) == RootOf(c, j) == (if c.Top? then j else RootOf(c, t.id))
            && (s.r.T? || s.red ==> Holds(k, RootOf(c, j), 0, u) && Apart(u) && RedBlack(u))
            && (s.r.Leaf? && !s.red ==>
                  EraseInv(Leaf, 0, d) && Focus(k, 0, p, Leaf, d) && u == Plug(d, Leaf) && 0 < p < |k|)
    ensures s.r.T? <==> RootId(s.r) != 0
  {
    var d := Append(a, Base(j, t.red, t.l, c));
    u := Plug(d, Paint(s.r, false));
    SpliceInOrder(t, s, a, c, j);
    SpliceColours(t, s, n, a, c, j);
    AppendRoot(a, j, t.red, t.l, c, RootId(s.r));
    PlugHolds(k, RootId(s.r), p, Paint(s.r, false), d);
    PlugApart(d, Paint(s.r, false));
    LinksHead(k, p, RootId(s.r), d);
    HoldsRoot(k, RootId(s.r), p, Paint(s.r, false));
    AppendColours(a, t.id, j, t.red, t.l, c, n);
  }
}
