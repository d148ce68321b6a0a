/** Colours and order across the steps of `__rb_insert_fix`. */
module RbInsert {
  import opened RbModel
  import opened RbRotate

  /** The loop invariant's colour half: a red subtree that fits its surroundings except perhaps
      for a red parent. */
  ghost predicate InsertInv(t: Tree, n: nat, c: Ctx) {
    IsRed(t) && Bal(t, n) && NoRR(t) && CBal(c, n) && CNoRR(c)
  }

  /** A red parent `p` and a black grandparent `g` around the node. */
  datatype Grand = Grand(s: Side, p: nat, sib: Tree, s2: Side, g: nat, uncle: Tree, up: Ctx) {
    function Path(): Ctx { Step(s, p, true, sib, Step(s2, g, false, uncle, up)) }

    function Low(t: Tree): Tree { Mk(s, t, p, true, sib) }

    function Was(t: Tree): Tree { Mk(s2, Low(t), g, false, uncle) }

    /** Case 1: the red uncle and the parent turn black, the grandparent red. */
    function Recoloured(t: Tree): Tree { Mk(s2, Paint(Low(t), false), g, true, Paint(uncle, false)) }

    /** Case 3 alone: the node is an outer grandchild. */
    function AsOne(t: Tree): One { One(s2, t, p, true, sib, g, false, uncle) }

    /** Cases 2 and 3: the node is an inner grandchild. */
    function AsTwo(t: Tree): Two
      requires t.T?
    {
      Two(s2, sib, p, true, Sub(t, s2), t.id, t.red, Sub(t, Opp(s2)), g, false, uncle)
    }

    function Rotated(t: Tree): Tree
      requires t.T?
    {
      if s == s2 then AsOne(t).Now(t, false, true) else AsTwo(t).Now(true, false, true)
    }
  }

  /** A red node with a red parent always has a black grandparent; the test on the grandparent's
      right child tells on which side the parent hangs, and the other child is the uncle. */
  lemma GrandOf(h: Heap, x: nat, p: nat, t: Tree, n: nat, c: Ctx) returns (v: Grand)
    requires Focus(h, x, p, t, c) && InsertInv(t, n, c) && HeadRed(c)
    ensures c == v.Path() && v.p == p && 0 < p < |h| && h[p].parent == v.g && 0 < v.g < |h| && h[p].red
    ensures Focus(h, v.g, h[v.g].parent, v.Was(t), v.up)
    ensures h[v.g].right != p <==> v.s2 == L
    ensures Kid(h[v.g], Opp(v.s2)) == RootId(v.uncle)
    ensures v.uncle.T? ==> 0 < v.uncle.id < |h| && h[v.uncle.id].red == v.uncle.red
    ensures v.p != v.g && RootId(v.uncle) !in {v.p, v.g}
    ensures !IsRed(v.sib) && !IsRed(t.l) && !IsRed(t.r)
  {
    var d := c.up;
    assert d.Step? && !d.red;
    v := Grand(c.s, p, c.sib, d.s, d.id, d.sib, d.up);
    FocusUp(h, x, p, t, c.s, true, c.sib, d);
    FocusUp(h, p, v.g, v.Low(t), d.s, false, d.sib, d.up);
    HoleSide(h, v.g, p, d);
    HoldsMk(h, h[v.g].parent, d.s, v.Low(t), d.id, false, d.sib);
    HoldsMk(h, v.g, v.s, t, p, true, v.sib);
    HoldsRoot(h, Kid(h[v.g], Opp(v.s2)), v.g, d.sib);
    RootIn(d.sib);
  }

  lemma GrandShape(v: Grand, t: Tree)
    requires t.T?
    ensures v.s == v.s2 ==> v.AsOne(t).Was() == v.Was(t) && RootId(v.Rotated(t)) == v.p && v.Rotated(t).T?
    ensures v.s != v.s2 ==> v.AsTwo(t).Base().Was() == v.Was(t) && RootId(v.Rotated(t)) == t.id && v.Rotated(t).T?
  {
  }

  /** Where the cells of an uncle-less family lie before it is rotated. */
  lemma GrandCells(v: Grand, t: Tree, h: Heap, q: nat)
    requires t.T? && t.red && Focus(h, v.g, q, v.Was(t), v.up) && !IsRed(v.sib) && !IsRed(t.l) && !IsRed(t.r)
    ensures v.s == v.s2 ==> v.AsOne(t).Linked(h, q) && v.AsOne(t).Disjoint(CIds(v.up))
    ensures v.s != v.s2 ==> v.AsTwo(t).Linked(h, q) && v.AsTwo(t).Disjoint(CIds(v.up))
    ensures 0 < v.p < |h| && 0 < t.id < |h| && h[t.id].red && h[t.id].parent == v.p != t.id
    ensures Kid(h[v.p], Opp(v.s2)) == t.id <==> v.s != v.s2
    ensures v.sib.T? ==> 0 < v.sib.id < |h| && !h[v.sib.id].red
    ensures t.l.T? ==> 0 < t.l.id < |h| && !h[t.l.id].red
    ensures t.r.T? ==> 0 < t.r.id < |h| && !h[t.r.id].red
    ensures RootId(v.sib) !in {v.p, v.g, t.id} && RootId(t.l) !in {v.p, v.g, t.id} && RootId(t.r) !in {v.p, v.g, t.id}
    ensures RootId(v.sib) == 0 || (RootId(v.sib) in Ids(v.Was(t)) && RootId(v.sib) !in CIds(v.up))
    ensures RootId(t.l) == 0 || (RootId(t.l) in Ids(v.Was(t)) && RootId(t.l) !in CIds(v.up))
    ensures RootId(t.r) == 0 || (RootId(t.r) in Ids(v.Was(t)) && RootId(t.r) !in CIds(v.up))
    ensures RootId(t.l) == RootId(t.r) ==> RootId(t.l) == 0
    ensures {v.p, v.g, t.id} <= Ids(v.Was(t)) && {v.p, v.g, t.id} !! CIds(v.up) && 0 !in {v.p, v.g, t.id}
  {
    hide CIds, CApart, Links;
    HoldsMk(h, v.g, v.s, t, v.p, true, v.sib);
    HoldsMk(h, q, v.s2, v.Low(t), v.g, false, v.uncle);
    HoldsRoot(h, Kid(h[v.p], v.s), v.p, t);
    HoldsRoot(h, Kid(h[v.p], Opp(v.s)), v.p, v.sib);
    HoldsRoot(h, h[t.id].left, t.id, t.l);
    HoldsRoot(h, h[t.id].right, t.id, t.r);
    if v.s == v.s2 {
      OneOf(v.AsOne(t), h, q, v.up);
    } else {
      TwoOf(v.AsTwo(t), h, q, v.up);
    }
    RootIn(v.sib);
    RootIn(t.l);
    RootIn(t.r);
  }

  /** Lines 73-79 (and 101-107): the inner grandchild takes its parent's place. */
  ghost predicate TurnCells(h: Heap, k: Heap, s2: Side, node: nat, parent: nat, tmp: nat)
    requires node < |h| && parent < |h|
  {
    && OnlyAt(h, k, {node, parent, tmp}) && tmp == Kid(h[node], s2)
    && k[parent] == WithKid(h[parent], Opp(s2), tmp).(parent := node, red := true)
    && k[node] == WithKid(h[node], s2, parent)
    && (0 < tmp < |h| ==> k[tmp] == h[tmp].(parent := parent, red := false))
  }

  /** Lines 82-86 (and 110-114): the parent takes the grandparent's place. */
  ghost predicate LiftCells(h: Heap, k: Heap, s2: Side, g: nat, parent: nat, tmp: nat, c: Ctx)
    requires g < |h| && parent < |h|
  {
    && OnlyAt(h, k, {g, parent, tmp, h[g].parent})
    && (0 < tmp < |h| ==> k[tmp] == h[tmp].(parent := g, red := false))
    && k[parent] == WithKid(h[parent], Opp(s2), g).(parent := h[g].parent, red := h[g].red)
    && k[g] == WithKid(h[g], s2, tmp).(parent := parent, red := true)
    && (c.Step? && c.id < |h| ==> k[c.id] == WithKid(h[c.id], c.s, parent))
  }

  lemma LiftOne(v: Grand, t: Tree, h: Heap, k: Heap, q: nat)
    requires t.T? && t.red && v.s == v.s2 && Focus(h, v.g, q, v.Was(t), v.up)
    requires !IsRed(v.sib) && !IsRed(t.l) && !IsRed(t.r) && 0 < v.g < |h| && v.p < |h|
    requires LiftCells(h, k, v.s2, v.g, v.p, RootId(v.sib), v.up)
    ensures Focus(k, v.p, q, v.Rotated(t), v.up)
  {
    hide Holds, Apart, CApart, Ids, CIds, Links, Mk;
    FocusHead(h, v.g, q, v.Was(t), v.up);
    GrandCells(v, t, h, q);
    PaintLeaf(t);
    RotateOne(v.AsOne(t), h, k, q, v.up, true, false, true);
  }

  lemma LiftTwo(v: Grand, t: Tree, h: Heap, m: Heap, k: Heap, q: nat)
    requires t.T? && t.red && v.s != v.s2 && Focus(h, v.g, q, v.Was(t), v.up)
    requires !IsRed(v.sib) && !IsRed(t.l) && !IsRed(t.r) && 0 < v.g < |h| && v.p < |h| && t.id < |h|
    requires TurnCells(h, m, v.s2, t.id, v.p, RootId(Sub(t, v.s2)))
    requires LiftCells(m, k, v.s2, v.g, t.id, RootId(Sub(t, Opp(v.s2))), v.up)
    ensures Focus(k, t.id, q, v.Rotated(t), v.up)
  {
    hide Holds, Apart, CApart, Ids, CIds, Links, Mk;
    FocusHead(h, v.g, q, v.Was(t), v.up);
    GrandCells(v, t, h, q);
    GrandShape(v, t);
    RotateTwo(v.AsTwo(t), h, k, q, v.up, true, false, true);
  }

  lemma RecolourColours(v: Grand, t: Tree, n: nat)
    requires InsertInv(t, n, v.Path()) && IsRed(v.uncle)
    ensures InsertInv(v.Recoloured(t), n + 1, v.up)
  {
    var d := Step(v.s2, v.g, false, v.uncle, v.up);
    assert CBal(d, n) && CNoRR(d);
    assert Bal(Paint(v.Low(t), false), n + 1) && NoRR(Paint(v.Low(t), false));
    assert Bal(Paint(v.uncle, false), n + 1) && NoRR(Paint(v.uncle, false));
  }

  lemma RotateColours(v: Grand, t: Tree, n: nat)
    requires InsertInv(t, n, v.Path()) && !IsRed(v.uncle)
    ensures RedBlack(Plug(v.up, v.Rotated(t)))
  {
    var d := Step(v.s2, v.g, false, v.uncle, v.up);
    assert CBal(d, n) && CNoRR(d);
    if v.s == v.s2 {
      assert Bal(Mk(v.s2, v.sib, v.g, true, v.uncle), n);
    } else {
      var a, b := Sub(t, v.s2), Sub(t, Opp(v.s2));
      assert Bal(a, n) && Bal(b, n);
      assert Bal(Mk(v.s2, v.sib, v.p, true, a), n) && Bal(Mk(v.s2, b, v.g, true, v.uncle), n);
    }
    PlugRedBlack(v.up, v.Rotated(t), n + 1);
  }

  lemma GrandInOrder(v: Grand, t: Tree)
    requires t.T?
    ensures InOrder(Plug(v.up, v.Recoloured(t))) == InOrder(Plug(v.Path(), t))
    ensures InOrder(Plug(v.up, v.Rotated(t))) == InOrder(Plug(v.Path(), t))
  {
    assert Plug(v.Path(), t) == Plug(v.up, v.Was(t)) by {
      assert Plug(v.Path(), t) == Plug(Step(v.s2, v.g, false, v.uncle, v.up), v.Low(t));
    }
    RecolouredInOrder(v, t);
    PlugSameOrder(v.up, v.Recoloured(t), v.Was(t));
    if v.s == v.s2 {
      OneInOrder(v.AsOne(t), t, false, true);
    } else {
      TwoInOrder(v.AsTwo(t), true, false, true);
    }
    PlugSameOrder(v.up, v.Rotated(t), v.Was(t));
  }

  lemma RecolouredInOrder(v: Grand, t: Tree)
    ensures InOrder(v.Recoloured(t)) == InOrder(v.Was(t))
  {
    PaintInOrder(v.Low(t), false);
    PaintInOrder(v.uncle, false);
    MkInOrder(v.s2, v.Low(t), v.g, false, v.uncle);
    MkInOrder(v.s2, Paint(v.Low(t), false), v.g, true, Paint(v.uncle, false));
  }

  lemma {:induction false} PathIds(c: Ctx, t: Tree, u: Tree)
    requires Ids(t) == Ids(u)
    ensures Ids(Plug(c, t)) == Ids(Plug(c, u)) == Ids(t) + CIds(c)
  {
    if c.Step? {
      HoldsMk([], 0, c.s, t, c.id, c.red, c.sib);
      HoldsMk([], 0, c.s, u, c.id, c.red, c.sib);
      PathIds(c.up, Mk(c.s, t, c.id, c.red, c.sib), Mk(c.s, u, c.id, c.red, c.sib));
    }
  }

  // ---------- the loop of `__rb_insert_fix` ----------

  lemma InsertShape(h: Heap, x: nat, p: nat, t: Tree, n: nat, c: Ctx)
    requires Focus(h, x, p, t, c) && InsertInv(t, n, c)
    ensures t.T? && t.id == x && x in Ids(t) && t.red && (p == 0 <==> c.Top?) && p < |h|
    ensures p != 0 ==> h[p].red == HeadRed(c)
  {
    HoldsRoot(h, x, p, t);
    LinksHead(h, p, x, c);
  }

  /** Lines 53-54: the red node is the root. */
  lemma BlackRoot(h: Heap, k: Heap, x: nat, t: Tree, n: nat)
    requires x < |h| && Focus(h, x, 0, t, Top) && InsertInv(t, n, Top)
    requires k == h[x := h[x].(parent := 0, red := false)]
    ensures var u := Paint(t, false); Holds(k, x, 0, u) && Apart(u) && RedBlack(u) && InOrder(u) == InOrder(t)
    ensures Ids(Paint(t, false)) == Ids(t) && Plug(Top, t) == t
  {
    HoldsRoot(h, x, 0, t);
    HoldsPaint(h, k, 0, t, 0, false);
    PaintIds(t, false);
    BlackKeeps(t, n);
    BalIsBlackHeight(Paint(t, false), n + 1);
  }

  /** Line 57: the parent is black. */
  lemma InsertDone(h: Heap, x: nat, p: nat, t: Tree, n: nat, c: Ctx)
    requires Focus(h, x, p, t, c) && InsertInv(t, n, c) && c.Step? && !c.red
    ensures Holds(h, RootOf(c, x), 0, Plug(c, t)) && Apart(Plug(c, t)) && RedBlack(Plug(c, t))
  {
    PlugHolds(h, x, p, t, c);
    PlugApart(c, t);
    PlugRedBlack(c, t, n);
  }

  lemma {:induction false} SameOrderSameIds(t: Tree, u: Tree)
    requires InOrder(t) == InOrder(u)
    ensures Ids(t) == Ids(u)
  {
    forall x ensures x in Ids(t) <==> x in Ids(u) {
      IdsInOrder(t, x);
      IdsInOrder(u, x);
    }
  }

  lemma GrandIds(v: Grand, t: Tree)
    requires t.T?
    ensures Ids(v.Was(t)) + CIds(v.up) == Ids(Plug(v.Path(), t))
    ensures Ids(Plug(v.up, v.Recoloured(t))) == Ids(Plug(v.Path(), t))
    ensures Ids(Plug(v.up, v.Rotated(t))) == Ids(Plug(v.Path(), t))
    ensures {v.p, v.g, RootId(v.uncle)} - {0} <= Ids(Plug(v.Path(), t))
  {
    GrandInOrder(v, t);
    assert Plug(v.Path(), t) == Plug(Step(v.s2, v.g, false, v.uncle, v.up), v.Low(t)) == Plug(v.up, v.Was(t));
    SameOrderSameIds(Plug(v.Path(), t), Plug(v.up, v.Recoloured(t)));
    SameOrderSameIds(Plug(v.Path(), t), Plug(v.up, v.Rotated(t)));
    PathIds(v.up, v.Was(t), v.Was(t));
    HoldsMk([], 0, v.s, t, v.p, true, v.sib);
    HoldsMk([], 0, v.s2, v.Low(t), v.g, false, v.uncle);
    RootIn(v.uncle);
  }

  lemma GrandRoot(v: Grand, x: nat, y: nat)
    ensures v.up.Step? ==> RootOf(v.Path(), x) == RootOf(v.up, y)
    ensures v.up.Top? ==> RootOf(v.up, y) == y
  {
    assert RootOf(v.Path(), x) == RootOf(Step(v.s2, v.g, false, v.uncle, v.up), v.p) == RootOf(v.up, v.g);
  }

  /** Case 1 moves the position two nodes up. */
  lemma Recolour(v: Grand, t: Tree, n: nat, h: Heap, k: Heap)
    requires v.g < |h| && Focus(h, v.g, h[v.g].parent, v.Was(t), v.up) && InsertInv(t, n, v.Path())
    requires IsRed(v.uncle) && OnlyAt(h, k, {v.uncle.id, v.p, v.g}) && v.uncle.id < |h| && v.p < |h|
    requires k[v.uncle.id] == h[v.uncle.id].(parent := v.g, red := false)
    requires k[v.p] == h[v.p].(parent := v.g, red := false)
    requires k[v.g] == h[v.g].(red := true)
    ensures Focus(k, v.g, h[v.g].parent, v.Recoloured(t), v.up) && InsertInv(v.Recoloured(t), n + 1, v.up)
  {
    var q := h[v.g].parent;
    HoldsMk(h, q, v.s2, v.Low(t), v.g, false, v.uncle);
    MkRoot(v.s, t, v.p, true, v.sib);
    HoldsRoot(h, Kid(h[v.g], v.s2), v.g, v.Low(t));
    HoldsRoot(h, Kid(h[v.g], Opp(v.s2)), v.g, v.uncle);
    RepaintHeap(h, k, v.g, q, v.s2, v.Low(t), false, v.uncle, v.up, false, true, false);
    RecolourColours(v, t, n);
  }

  lemma InsertRotated(v: Grand, t: Tree, n: nat, k: Heap, q: nat) returns (t': Tree)
    requires InsertInv(t, n, v.Path()) && !IsRed(v.uncle) && v.Rotated(t).T?
    requires Focus(k, v.Rotated(t).id, q, v.Rotated(t), v.up)
    ensures t' == Plug(v.up, v.Rotated(t))
    ensures Holds(k, RootOf(v.up, v.Rotated(t).id), 0, t') && Apart(t') && RedBlack(t')
  {
    t' := Plug(v.up, v.Rotated(t));
    PlugHolds(k, v.Rotated(t).id, q, v.Rotated(t), v.up);
    PlugApart(v.up, v.Rotated(t));
    RotateColours(v, t, n);
  }
}
