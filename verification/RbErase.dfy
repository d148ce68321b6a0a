/** Cells, colours and order across the steps of `__rb_erase_fix`. */
module RbErase {
  import opened RbModel
  import opened RbRotate
  import opened RbInsert

  /** The loop invariant's colour half: paths through the black-rooted `t` are one black short. */
  ghost predicate EraseInv(t: Tree, n: nat, c: Ctx) {
    Bal(t, n) && NoRR(t) && !IsRed(t) && CBal(c, n + 1) && CNoRR(c) && c.Step?
  }

  /** The parent `p` of the short subtree, which hangs on side `s`, and its sibling. */
  datatype Short = Short(s: Side, p: nat, pr: bool, sib: Tree, up: Ctx) {
    function Path(): Ctx { Step(s, p, pr, sib, up) }

    function Was(t: Tree): Tree { Mk(s, t, p, pr, sib) }

    function Near(): Tree requires sib.T? { Sub(sib, s) }

    function Far(): Tree requires sib.T? { Sub(sib, Opp(s)) }

    /** Cases 1 and 4 lift the sibling over the parent. */
    function AsOne(t: Tree): One
      requires sib.T?
    {
      One(Opp(s), Far(), sib.id, sib.red, Near(), p, pr, t)
    }

    /** Case 3 lifts the near nephew over both. */
    function AsTwo(t: Tree): Two
      requires sib.T? && Near().T?
    {
      var v := Near();
      Two(Opp(s), Far(), sib.id, sib.red, Sub(v, Opp(s)), v.id, v.red, Sub(v, s), p, pr, t)
    }

    /** After case 1: the same short subtree under a red parent with a black sibling. */
    function Flipped(): Short
      requires sib.T?
    {
      Short(s, p, true, Near(), Step(s, sib.id, false, Far(), up))
    }

    function Repainted(t: Tree): Tree { Mk(s, t, p, false, Paint(sib, true)) }

    function Rotated(t: Tree): Tree
      requires sib.T? && (IsRed(Far()) || Near().T?)
    {
      if IsRed(Far()) then AsOne(t).Now(Paint(Far(), false), pr, false) else AsTwo(t).Now(false, pr, false)
    }
  }

  lemma ShortShape(v: Short, t: Tree)
    requires v.sib.T?
    ensures v.AsOne(t).Was() == v.Was(t)
    ensures v.Near().T? ==> v.AsTwo(t).Base().Was() == v.Was(t)
    ensures Mk(v.s, v.Near(), v.sib.id, v.sib.red, v.Far()) == v.sib
    ensures IsRed(v.Far()) ==> v.Rotated(t).T? && v.Rotated(t).id == v.sib.id
    ensures !IsRed(v.Far()) && v.Near().T? ==> v.Rotated(t).T? && v.Rotated(t).id == v.Near().id
  {
  }

  /** The short subtree always has a sibling, and the test on the parent's right child tells on
      which side it is. */
  lemma ShortOf(h: Heap, x: nat, p: nat, t: Tree, n: nat, c: Ctx) returns (v: Short)
    requires Focus(h, x, p, t, c) && EraseInv(t, n, c)
    ensures c == v.Path() && v.p == p && 0 < p < |h| && v.sib.T? && h[p].red == v.pr
    ensures Focus(h, p, h[p].parent, v.Was(t), v.up)
    ensures h[p].right != x <==> v.s == L
    ensures Kid(h[p], Opp(v.s)) == v.sib.id && 0 < v.sib.id < |h| && h[v.sib.id].red == v.sib.red
    ensures v.sib.red ==> v.Near().T? && !v.Near().red && !IsRed(v.Far()) && !v.pr
    ensures IsRed(v.Near()) ==> !IsRed(Sub(v.Near(), L)) && !IsRed(Sub(v.Near(), R))
    ensures ShortCellsOk(v, t, h)
  {
    v := Short(c.s, p, c.red, c.sib, c.up);
    FocusUp(h, x, p, t, c.s, c.red, c.sib, c.up);
    ShortColours(v, t, n);
    ShortCells(v, t, h, h[p].parent);
    HoldsRoot(h, x, p, t);
  }

  lemma ShortColours(v: Short, t: Tree, n: nat)
    requires EraseInv(t, n, v.Path())
    ensures v.sib.T?
    ensures v.sib.red ==> v.Near().T? && !v.Near().red && !IsRed(v.Far()) && !v.pr
    ensures IsRed(v.Near()) ==> !IsRed(Sub(v.Near(), L)) && !IsRed(Sub(v.Near(), R))
  {
    assert Bal(v.sib, n + 1) && NoRR(v.sib);
    assert v.sib.red ==> Bal(v.Near(), n + 1);
    assert NoRR(v.Near());
  }

  /** Ids around the parent: the roots of the nephews and of their children are cells of their
      own, and carry the colours of the tree. */
  ghost predicate ShortCellsOk(v: Short, t: Tree, h: Heap)
    requires v.sib.T?
  {
    var b := v.sib.id;
    && 0 < v.p < |h| && 0 < b < |h| && v.p != b
    && h[b].red == v.sib.red && h[b].parent == v.p && h[v.p].red == v.pr
    && Kid(h[v.p], Opp(v.s)) == b && Kid(h[v.p], v.s) == RootId(t)
    && Kid(h[b], v.s) == RootId(v.Near()) && Kid(h[b], Opp(v.s)) == RootId(v.Far())
    && RootOk(v.Near(), h, b, {v.p, b, RootId(t)}) && RootOk(v.Far(), h, b, {v.p, b, RootId(t), RootId(v.Near())})
    && RootId(t) !in {v.p, b}
    && (v.Near().T? ==>
          var u := v.Near();
          && Kid(h[u.id], v.s) == RootId(Sub(u, v.s)) && Kid(h[u.id], Opp(v.s)) == RootId(Sub(u, Opp(v.s)))
          && RootOk(Sub(u, v.s), h, u.id, {v.p, b, u.id, RootId(v.Far())})
          && RootOk(Sub(u, Opp(v.s)), h, u.id, {v.p, b, u.id, RootId(v.Far()), RootId(Sub(u, v.s))}))
  }

  ghost predicate RootOk(t: Tree, h: Heap, p: nat, others: set<nat>) {
    t.T? ==> 0 < t.id < |h| && h[t.id].parent == p && h[t.id].red == t.red && t.id !in others
  }

  lemma ShortCells(v: Short, t: Tree, h: Heap, q: nat)
    requires v.sib.T? && Focus(h, v.p, q, v.Was(t), v.up)
    ensures v.AsOne(t).Linked(h, q) && v.AsOne(t).Disjoint(CIds(v.up))
    ensures v.Near().T? ==> v.AsTwo(t).Linked(h, q) && v.AsTwo(t).Disjoint(CIds(v.up))
    ensures ShortCellsOk(v, t, h)
  {
    hide Links, CIds, CApart, Mk, Holds, Apart, Ids, RootOk;
    ShortShape(v, t);
    OneOf(v.AsOne(t), h, q, v.up);
    var b := v.sib.id;
    RootIn(t);
    RootIn(v.Near());
    HoldsRoot(h, RootId(t), v.p, t);
    RootFound(h, b, v.Near(), {v.p, b, RootId(t)});
    RootFound(h, b, v.Far(), {v.p, b, RootId(t), RootId(v.Near())});
    OneSibling(v, t, h, q);
    if v.Near().T? {
      TwoOf(v.AsTwo(t), h, q, v.up);
      var u := v.Near();
      RootIn(v.Far());
      RootIn(Sub(u, v.s));
      RootFound(h, u.id, Sub(u, v.s), {v.p, b, u.id, RootId(v.Far())});
      RootFound(h, u.id, Sub(u, Opp(v.s)), {v.p, b, u.id, RootId(v.Far()), RootId(Sub(u, v.s))});
    }
  }

  lemma RootFound(h: Heap, p: nat, t: Tree, others: set<nat>)
    requires Holds(h, RootId(t), p, t) && (others - {0}) !! Ids(t)
    ensures RootOk(t, h, p, others)
  {
    HoldsRoot(h, RootId(t), p, t);
    RootIn(t);
  }

  lemma OneSibling(v: Short, t: Tree, h: Heap, q: nat)
    requires v.sib.T? && v.AsOne(t).Linked(h, q)
    ensures h[v.sib.id].red == v.sib.red && h[v.sib.id].parent == v.p && h[v.p].red == v.pr
  {
  }

  // ---------- case 1: red sibling ----------

  lemma FlipHeap(v: Short, t: Tree, h: Heap, k: Heap, q: nat)
    requires v.sib.T? && v.sib.red && v.Near().T? && !v.Near().red && !v.pr && 0 < v.p < |h| && v.sib.id < |h|
    requires Focus(h, v.p, q, v.Was(t), v.up)
    requires LiftCells(h, k, Opp(v.s), v.p, v.sib.id, v.Near().id, v.up)
    ensures Focus(k, v.p, v.sib.id, v.Flipped().Was(t), v.Flipped().up)
    ensures Focus(k, RootId(t), v.p, t, v.Flipped().Path())
  {
    hide Holds, Apart, CApart, Ids, CIds, Links, Mk;
    FocusHead(h, v.p, q, v.Was(t), v.up);
    ShortCells(v, t, h, q);
    ShortShape(v, t);
    PaintLeaf(v.Far());
    RootIn(v.Near());
    RootIn(v.Far());
    var o := v.AsOne(t);
    RotateOne(o, h, k, q, v.up, v.Far().T? && v.Far().red, false, true);
    FlippedShape(v, t);
    FocusDown(k, v.sib.id, q, v.s, v.Flipped().Was(t), false, v.Far(), v.up);
    WasRoot(v.Flipped(), t);
    FocusDown(k, v.p, v.sib.id, v.s, t, true, v.Near(), v.Flipped().up);
  }

  lemma WasRoot(v: Short, t: Tree)
    ensures RootId(v.Was(t)) == v.p
  {
  }

  lemma FlippedShape(v: Short, t: Tree)
    requires v.sib.T?
    ensures v.AsOne(t).Now(v.Far(), false, true) == Mk(v.s, v.Flipped().Was(t), v.sib.id, false, v.Far())
  {
  }

  lemma FlipColours(v: Short, t: Tree, n: nat)
    requires EraseInv(t, n, v.Path()) && v.sib.T? && v.sib.red
    ensures EraseInv(t, n, v.Flipped().Path())
  {
    assert Bal(v.Near(), n + 1) && Bal(v.Far(), n + 1);
    assert CBal(v.Flipped().up, n + 1);
    assert CNoRR(v.Flipped().up);
  }

  lemma FlipInOrder(v: Short, t: Tree)
    requires v.sib.T?
    ensures InOrder(Plug(v.Flipped().Path(), t)) == InOrder(Plug(v.Path(), t))
  {
    var o := v.AsOne(t);
    ShortShape(v, t);
    FlippedShape(v, t);
    OneInOrder(o, v.Far(), false, true);
    PlugSameOrder(v.up, o.Now(v.Far(), false, true), o.Was());
    assert Plug(v.Flipped().Path(), t) == Plug(v.Flipped().up, v.Flipped().Was(t));
  }

  // ---------- case 2: black sibling with black children ----------

  lemma RepaintedHeap(v: Short, t: Tree, h: Heap, k: Heap, q: nat)
    requires v.sib.T? && 0 < v.p < |h| && v.sib.id < |h| && Focus(h, v.p, q, v.Was(t), v.up)
    requires OnlyAt(h, k, {v.p, v.sib.id}) && k[v.sib.id] == h[v.sib.id].(parent := v.p, red := true)
    requires k[v.p] == h[v.p].(red := false)
    ensures Focus(k, v.p, q, v.Repainted(t), v.up)
  {
    hide Holds, Apart, CApart, Ids, CIds, Links, Mk;
    ShortCells(v, t, h, q);
    PaintLeaf(t);
    HoldsRoot(h, RootId(t), v.p, t);
    RepaintHeap(h, k, v.p, q, v.s, t, v.pr, v.sib, v.up, t.T? && t.red, false, true);
  }

  lemma RepaintedColours(v: Short, t: Tree, n: nat)
    requires EraseInv(t, n, v.Path()) && v.sib.T? && !v.sib.red && !IsRed(v.Near()) && !IsRed(v.Far())
    ensures v.pr ==> RedBlack(Plug(v.up, v.Repainted(t)))
    ensures !v.pr && v.up.Top? ==> RedBlack(v.Repainted(t))
    ensures !v.pr && v.up.Step? ==> EraseInv(v.Repainted(t), n + 1, v.up)
  {
    assert Bal(v.Near(), n) && Bal(v.Far(), n);
    assert Bal(Paint(v.sib, true), n);
    assert Bal(v.Repainted(t), n + 1);
    if v.pr {
      PlugRedBlack(v.up, v.Repainted(t), n + 1);
    } else {
      BalIsBlackHeight(v.Repainted(t), n + 1);
    }
  }

  lemma RepaintedInOrder(v: Short, t: Tree)
    ensures InOrder(Plug(v.up, v.Repainted(t))) == InOrder(Plug(v.Path(), t))
  {
    PaintInOrder(v.sib, true);
    MkInOrder(v.s, t, v.p, v.pr, v.sib);
    MkInOrder(v.s, t, v.p, false, Paint(v.sib, true));
    PlugSameOrder(v.up, v.Repainted(t), v.Was(t));
  }

  // ---------- cases 3 and 4: a red nephew ----------

  /** Lines 200-206 (and 241-247): the near nephew `u` takes the sibling's place. */
  ghost predicate NephewCells(h: Heap, k: Heap, s: Side, p: nat, b: nat, u: nat, d: nat)
    requires p < |h| && b < |h| && u < |h|
  {
    && OnlyAt(h, k, {p, b, u, d}) && d == Kid(h[u], Opp(s))
    && k[b] == WithKid(h[b], s, d) && k[u] == WithKid(h[u], Opp(s), b) && k[p] == WithKid(h[p], Opp(s), u)
    && (0 < d < |h| ==> k[d] == h[d].(parent := b, red := false))
  }

  /** Lines 209-214 (and 250-255): the sibling `b` takes the parent's place. */
  ghost predicate RaiseCells(h: Heap, k: Heap, s: Side, p: nat, b: nat, near: nat, far: nat, c: Ctx)
    requires p < |h| && b < |h|
  {
    && OnlyAt(h, k, {p, b, near, far, h[p].parent})
    && (0 < near < |h| ==> k[near] == h[near].(parent := p))
    && (0 < far < |h| ==> k[far] == h[far].(parent := b, red := false))
    && k[b] == WithKid(h[b], s, p).(parent := h[p].parent, red := h[p].red)
    && k[p] == WithKid(h[p], Opp(s), near).(parent := b, red := false)
    && (c.Step? && c.id < |h| ==> k[c.id] == WithKid(h[c.id], c.s, b))
  }

  lemma RaiseOne(v: Short, t: Tree, h: Heap, k: Heap, q: nat)
    requires v.sib.T? && IsRed(v.Far()) && 0 < v.p < |h| && v.sib.id < |h|
    requires Focus(h, v.p, q, v.Was(t), v.up)
    requires RaiseCells(h, k, v.s, v.p, v.sib.id, RootId(v.Near()), v.Far().id, v.up)
    ensures Focus(k, v.sib.id, q, v.Rotated(t), v.up)
  {
    hide Holds, Apart, CApart, Ids, CIds, Links, Mk;
    FocusHead(h, v.p, q, v.Was(t), v.up);
    ShortCells(v, t, h, q);
    ShortShape(v, t);
    RootIn(v.Near());
    RootIn(v.Far());
    RotateOne(v.AsOne(t), h, k, q, v.up, false, v.pr, false);
  }

  lemma RaiseTwo(v: Short, t: Tree, h: Heap, m: Heap, k: Heap, q: nat)
    requires v.sib.T? && !v.sib.red && !IsRed(v.Far()) && IsRed(v.Near()) && !IsRed(Sub(v.Near(), Opp(v.s)))
    requires 0 < v.p < |h| && v.sib.id < |h| && v.Near().id < |h|
    requires Focus(h, v.p, q, v.Was(t), v.up)
    requires NephewCells(h, m, v.s, v.p, v.sib.id, v.Near().id, RootId(Sub(v.Near(), Opp(v.s))))
    requires RaiseCells(m, k, v.s, v.p, v.Near().id, RootId(Sub(v.Near(), v.s)), v.sib.id, v.up)
    ensures Focus(k, v.Near().id, q, v.Rotated(t), v.up)
  {
    hide Holds, Apart, CApart, Ids, CIds, Links, Mk;
    FocusHead(h, v.p, q, v.Was(t), v.up);
    ShortCells(v, t, h, q);
    ShortShape(v, t);
    RootIn(Sub(v.Near(), L));
    RootIn(Sub(v.Near(), R));
    RotateTwo(v.AsTwo(t), h, k, q, v.up, false, v.pr, false);
  }

  lemma RaiseColours(v: Short, t: Tree, n: nat)
    requires EraseInv(t, n, v.Path()) && v.sib.T? && !v.sib.red && (IsRed(v.Far()) || IsRed(v.Near()))
    ensures RedBlack(Plug(v.up, v.Rotated(t)))
  {
    assert Bal(v.Near(), n) && Bal(v.Far(), n) && NoRR(v.Near()) && NoRR(v.Far());
    if IsRed(v.Far()) {
      assert Bal(Paint(v.Far(), false), n + 1);
      assert Bal(Mk(Opp(v.s), v.Near(), v.p, false, t), n + 1) && NoRR(Mk(Opp(v.s), v.Near(), v.p, false, t));
    } else {
      var u := v.Near();
      assert Bal(Sub(u, L), n) && Bal(Sub(u, R), n) && NoRR(Sub(u, L)) && NoRR(Sub(u, R));
      var hi, lo := Mk(Opp(v.s), v.Far(), v.sib.id, false, Sub(u, Opp(v.s))), Mk(Opp(v.s), Sub(u, v.s), v.p, false, t);
      assert Bal(hi, n + 1) && NoRR(hi);
      assert Bal(lo, n + 1) && NoRR(lo);
    }
    PlugRedBlack(v.up, v.Rotated(t), if v.pr then n + 1 else n + 2);
  }

  lemma RaiseInOrder(v: Short, t: Tree)
    requires v.sib.T? && (IsRed(v.Far()) || v.Near().T?)
    ensures InOrder(Plug(v.up, v.Rotated(t))) == InOrder(Plug(v.Path(), t))
  {
    ShortShape(v, t);
    if IsRed(v.Far()) {
      PaintInOrder(v.Far(), false);
      OneInOrder(v.AsOne(t), Paint(v.Far(), false), v.pr, false);
    } else {
      TwoInOrder(v.AsTwo(t), false, v.pr, false);
    }
    PlugSameOrder(v.up, v.Rotated(t), v.Was(t));
  }

  lemma ShortIds(v: Short, t: Tree)
    requires v.sib.T?
    ensures {v.p, v.sib.id, RootId(v.Near()), RootId(v.Far())} - {0} <= Ids(v.Was(t))
    ensures v.Near().T? ==> {RootId(Sub(v.Near(), L)), RootId(Sub(v.Near(), R))} - {0} <= Ids(v.Was(t))
  {
    HoldsMk([], 0, v.s, t, v.p, v.pr, v.sib);
    RootIn(v.Near());
    RootIn(v.Far());
    if v.Near().T? {
      RootIn(Sub(v.Near(), L));
      RootIn(Sub(v.Near(), R));
    }
  }

  lemma ShortIdsOutside(v: Short, t: Tree, h: Heap, q: nat)
    requires Focus(h, v.p, q, v.Was(t), v.up)
    ensures forall i :: i in Ids(v.Was(t)) ==> i !in CIds(v.up)
  {
  }

  // ---------- one turn of the loop ----------

  /** Neither step changes the sequence or the node set; `r` may become the root. */
  lemma EraseOrders(v: Short, t: Tree, r: nat)
    requires v.sib.T?
    ensures InOrder(Plug(v.up, v.Repainted(t))) == InOrder(Plug(v.Path(), t))
    ensures IsRed(v.Far()) || v.Near().T? ==> InOrder(Plug(v.up, v.Rotated(t))) == InOrder(Plug(v.Path(), t))
    ensures Ids(v.Was(t)) + CIds(v.up) == Ids(Plug(v.Path(), t))
    ensures (if v.up.Top? then r else RootOf(v.up, v.p)) == RootOf(v.up, r)
  {
    RepaintedInOrder(v, t);
    if IsRed(v.Far()) || v.Near().T? { RaiseInOrder(v, t); }
    PathIds(v.up, v.Was(t), v.Was(t));
    assert Plug(v.Path(), t) == Plug(v.up, v.Was(t));
  }

  lemma FlippedIds(v: Short, t: Tree)
    requires v.sib.T?
    ensures Ids(Plug(v.Flipped().Path(), t)) == Ids(Plug(v.Path(), t))
    ensures RootOf(v.Flipped().up, v.p) == RootOf(v.up, v.sib.id)
  {
    FlipInOrder(v, t);
    SameOrderSameIds(Plug(v.Flipped().Path(), t), Plug(v.Path(), t));
  }

  lemma ShortRoot(v: Short, x: nat)
    ensures RootOf(v.Path(), x) == RootOf(v.up, v.p)
    ensures v.up < v.Path()
  {
  }

  lemma FocusAt(h: Heap, x: nat, t: Tree, c: Ctx)
    requires x < |h| && Focus(h, x, h[x].parent, t, c)
    ensures h[x].parent < |h| && (h[x].parent == 0 <==> c.Top?) && Plug(Top, t) == t
  {
    LinksHead(h, h[x].parent, x, c);
  }

  lemma EraseDone(h: Heap, x: nat, q: nat, t: Tree, c: Ctx) returns (u: Tree)
    requires Focus(h, x, q, t, c) && RedBlack(Plug(c, t))
    ensures u == Plug(c, t) && Holds(h, RootOf(c, x), 0, u) && Apart(u)
  {
    u := Plug(c, t);
    PlugHolds(h, x, q, t, c);
    PlugApart(c, t);
  }
}
