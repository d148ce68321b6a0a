/** Moving a zipper position, and the two rotations that both fix-up loops are made of. */
module RbRotate {
  import opened RbModel

  // ---------- one node, taken apart and put together ----------

  lemma RootIn(t: Tree)
    ensures RootId(t) == 0 || RootId(t) in Ids(t)
  {
  }

  lemma HoldsRoot(h: Heap, x: nat, p: nat, t: Tree)
    requires Holds(h, x, p, t)
    ensures x == RootId(t) && (x != 0 <==> t.T?)
    ensures t.T? ==> x < |h| && h[x].red == t.red && h[x].parent == p
  {
  }

  lemma LinksHead(h: Heap, p: nat, x: nat, c: Ctx)
    requires Links(h, p, x, c)
    ensures p == 0 || p in CIds(c)
    ensures c.Step? ==> p == c.id && 0 < p < |h| && Kid(h[p], c.s) == x && h[p].red == c.red
    ensures c.Top? <==> p == 0
  {
  }

  ghost predicate MkApart(a: Tree, x: nat, b: Tree) {
    Apart(a) && Apart(b) && x !in Ids(a) && x !in Ids(b) && Ids(a) !! Ids(b)
  }

  ghost predicate MkHolds(h: Heap, q: nat, s: Side, a: Tree, x: nat, red: bool, b: Tree) {
    && 0 < x < |h| && h[x].parent == q && h[x].red == red
    && Holds(h, Kid(h[x], s), x, a) && Holds(h, Kid(h[x], Opp(s)), x, b)
  }

  lemma HoldsMk(h: Heap, q: nat, s: Side, a: Tree, x: nat, red: bool, b: Tree)
    ensures Holds(h, x, q, Mk(s, a, x, red, b)) <==> MkHolds(h, q, s, a, x, red, b)
    ensures Apart(Mk(s, a, x, red, b)) <==> MkApart(a, x, b)
    ensures Ids(Mk(s, a, x, red, b)) == Ids(a) + {x} + Ids(b)
  {
  }

  /** The zipper one node up: the hole's node with both children becomes the focus. */
  lemma FocusUp(h: Heap, x: nat, p: nat, t: Tree, s: Side, red: bool, sib: Tree, up: Ctx)
    requires Focus(h, x, p, t, Step(s, p, red, sib, up))
    ensures 0 < p < |h| && Focus(h, p, h[p].parent, Mk(s, t, p, red, sib), up)
  {
    HoldsMk(h, h[p].parent, s, t, p, red, sib);
  }

  /** The zipper one node down, to the child on side `s`. */
  lemma FocusDown(h: Heap, x: nat, q: nat, s: Side, a: Tree, red: bool, b: Tree, c: Ctx)
    requires Focus(h, x, q, Mk(s, a, x, red, b), c)
    ensures 0 < x < |h| && Kid(h[x], s) == RootId(a) && Focus(h, RootId(a), x, a, Step(s, x, red, b, c))
  {
    HoldsMk(h, q, s, a, x, red, b);
    HoldsRoot(h, Kid(h[x], s), x, a);
  }

  /** A child that is not elsewhere on the path hangs on the side the path says. */
  lemma HoleSide(h: Heap, p: nat, x: nat, c: Ctx)
    requires Links(h, p, x, c) && c.Step? && x != 0 && x !in CIds(c)
    ensures h[p].left == x <==> c.s == L
    ensures h[p].right == x <==> c.s == R
  {
    RootIn(c.sib);
    HoldsRoot(h, Kid(h[p], Opp(c.s)), p, c.sib);
  }

  /** What a zipper position says about the cell above it. */
  lemma FocusHead(h: Heap, x: nat, q: nat, t: Tree, c: Ctx)
    requires Focus(h, x, q, t, c) && x != 0
    ensures x in Ids(t) && x !in CIds(c)
    ensures c.Top? <==> q == 0
    ensures c.Step? ==> q == c.id && 0 < q < |h| && q in CIds(c) && q !in Ids(t)
    ensures c.Step? ==> (h[q].left == x <==> c.s == L) && (h[q].right == x <==> c.s == R)
  {
    LinksHead(h, q, x, c);
    HoldsRoot(h, x, q, t);
    RootIn(t);
    if c.Step? { HoleSide(h, q, x, c); }
  }

  // ---------- single rotation ----------

  /** A node `g` whose child on side `s` is `p`:  s( s(outer, p, mid), g, rest ). */
  datatype One = One(s: Side, outer: Tree, p: nat, pr: bool, mid: Tree, g: nat, gr: bool, rest: Tree) {
    function Was(): Tree { Mk(s, Mk(s, outer, p, pr, mid), g, gr, rest) }

    function Now(outer': Tree, pr': bool, gr': bool): Tree {
      Mk(s, outer', p, pr', Mk(s, mid, g, gr', rest))
    }

    ghost predicate Linked(h: Heap, q: nat) {
      && 0 < g < |h| && h[g].parent == q && h[g].red == gr && Kid(h[g], s) == p
      && Kid(h[g], Opp(s)) == RootId(rest) && Holds(h, RootId(rest), g, rest)
      && 0 < p < |h| && h[p].parent == g && h[p].red == pr
      && Kid(h[p], s) == RootId(outer) && Holds(h, RootId(outer), p, outer)
      && Kid(h[p], Opp(s)) == RootId(mid) && Holds(h, RootId(mid), p, mid)
    }

    ghost predicate Disjoint(out: set<nat>) {
      && Apart(outer) && Apart(mid) && Apart(rest) && p != g
      && {p, g} !! Ids(outer) && {p, g} !! Ids(mid) && {p, g} !! Ids(rest) && {p, g} !! out
      && Ids(outer) !! Ids(mid) && Ids(outer) !! Ids(rest) && Ids(mid) !! Ids(rest)
      && Ids(outer) !! out && Ids(mid) !! out && Ids(rest) !! out
    }

    /** The cells written by the rotation, `q` being the parent of the old top. */
    ghost predicate Rotated(h: Heap, k: Heap, q: nat, c: Ctx, outerRed: bool, pr': bool, gr': bool)
      requires p < |h| && g < |h|
    {
      && OnlyAt(h, k, {RootId(outer), RootId(mid), p, g, q})
      && (outer.T? && outer.id < |h| ==> k[outer.id] == h[outer.id].(parent := p, red := outerRed))
      && (mid.T? && mid.id < |h| ==> k[mid.id] == h[mid.id].(parent := g))
      && k[p] == WithKid(h[p], Opp(s), g).(parent := q, red := pr')
      && k[g] == WithKid(h[g], s, RootId(mid)).(parent := p, red := gr')
      && (c.Step? && c.id < |h| ==> k[c.id] == WithKid(h[c.id], c.s, p))
    }
  }

  function Paint(t: Tree, red: bool): Tree { if t.Leaf? then t else t.(red := red) }

  lemma SubMk(t: Tree, s: Side)
    requires t.T?
    ensures Mk(s, Sub(t, s), t.id, t.red, Sub(t, Opp(s))) == t
  {
  }

  lemma PaintIds(t: Tree, red: bool)
    ensures Ids(Paint(t, red)) == Ids(t) && (Apart(t) ==> Apart(Paint(t, red))) && RootId(Paint(t, red)) == RootId(t)
    ensures t.T? ==> Paint(t, t.red) == t
  {
  }

  lemma PaintLeaf(t: Tree)
    ensures Paint(t, t.T? && t.red) == t
  {
  }

  /** `HoldsMove` with the repainted tree named. */
  lemma HoldsPaint(h: Heap, k: Heap, p: nat, t: Tree, p': nat, red: bool)
    requires Holds(h, RootId(t), p, t) && Apart(t) && Same(h, k, Ids(t) - {RootId(t)})
    requires t.T? && t.id < |h| ==> |h| == |k| && k[t.id] == h[t.id].(parent := p', red := red)
    ensures Holds(k, RootId(t), p', Paint(t, red))
  {
    HoldsRoot(h, RootId(t), p, t);
    HoldsMove(h, k, RootId(t), p, t, p', red);
  }

  lemma OneOf(o: One, h: Heap, q: nat, c: Ctx)
    requires Focus(h, o.g, q, o.Was(), c)
    ensures o.Linked(h, q) && o.Disjoint(CIds(c))
  {
    hide Holds, Links, CIds, Apart, CApart, Mk, Ids;
    var low := Mk(o.s, o.outer, o.p, o.pr, o.mid);
    HoldsMk(h, q, o.s, low, o.g, o.gr, o.rest);
    HoldsMk(h, o.g, o.s, o.outer, o.p, o.pr, o.mid);
    HoldsRoot(h, Kid(h[o.g], o.s), o.g, low);
    MkRoot(o.s, o.outer, o.p, o.pr, o.mid);
    HoldsRoot(h, Kid(h[o.g], Opp(o.s)), o.g, o.rest);
    HoldsRoot(h, Kid(h[o.p], o.s), o.p, o.outer);
    HoldsRoot(h, Kid(h[o.p], Opp(o.s)), o.p, o.mid);
  }

  lemma MkRoot(s: Side, a: Tree, x: nat, red: bool, b: Tree)
    ensures RootId(Mk(s, a, x, red, b)) == x
  {
  }

  lemma HoldsRehang(h: Heap, k: Heap, p: nat, t: Tree, p': nat)
    requires Holds(h, RootId(t), p, t) && Apart(t) && Same(h, k, Ids(t) - {RootId(t)})
    requires t.T? && t.id < |h| ==> |h| == |k| && k[t.id] == h[t.id].(parent := p')
    ensures Holds(k, RootId(t), p', t)
  {
    HoldsRoot(h, RootId(t), p, t);
    PaintLeaf(t);
    HoldsPaint(h, k, p, t, p', t.T? && t.red);
  }

  lemma RotateOneFrames(o: One, h: Heap, k: Heap, q: nat, c: Ctx, outerRed: bool, pr': bool, gr': bool)
    requires Links(h, q, o.g, c) && CApart(c) && o.Linked(h, q) && o.Disjoint(CIds(c))
    requires o.Rotated(h, k, q, c, outerRed, pr', gr')
    ensures Holds(k, RootId(o.outer), o.p, Paint(o.outer, outerRed)) && Holds(k, RootId(o.mid), o.g, o.mid)
    ensures Holds(k, RootId(o.rest), o.g, o.rest) && Links(k, q, o.p, c)
  {
    hide Holds, Links, CIds, Apart, CApart, Ids, Paint;
    LinksHead(h, q, o.g, c);
    RootIn(o.outer);
    RootIn(o.mid);
    HoldsPaint(h, k, o.p, o.outer, o.p, outerRed);
    HoldsRehang(h, k, o.p, o.mid, o.g);
    HoldsFrame(h, k, RootId(o.rest), o.g, o.rest);
    LinksReplace(h, k, q, o.g, o.p, c);
  }

  lemma RotateOne(o: One, h: Heap, k: Heap, q: nat, c: Ctx, outerRed: bool, pr': bool, gr': bool)
    requires Focus(h, o.g, q, o.Was(), c) && o.Linked(h, q) && o.Disjoint(CIds(c))
    requires o.Rotated(h, k, q, c, outerRed, pr', gr')
    ensures Focus(k, o.p, q, o.Now(Paint(o.outer, outerRed), pr', gr'), c)
  {
    hide Holds, Links, CIds, Apart, CApart, Mk, Ids, Paint;
    RotateOneFrames(o, h, k, q, c, outerRed, pr', gr');
    PaintIds(o.outer, outerRed);
    HoldsMk(k, o.p, o.s, o.mid, o.g, gr', o.rest);
    HoldsMk(k, q, o.s, Paint(o.outer, outerRed), o.p, pr', Mk(o.s, o.mid, o.g, gr', o.rest));
  }

  lemma OneInOrder(o: One, outer': Tree, pr': bool, gr': bool)
    requires InOrder(outer') == InOrder(o.outer)
    ensures InOrder(o.Now(outer', pr', gr')) == InOrder(o.Was())
  {
    hide InOrder, Mk;
    MkInOrder(o.s, o.outer, o.p, o.pr, o.mid);
    MkInOrder(o.s, Mk(o.s, o.outer, o.p, o.pr, o.mid), o.g, o.gr, o.rest);
    MkInOrder(o.s, o.mid, o.g, gr', o.rest);
    MkInOrder(o.s, outer', o.p, pr', Mk(o.s, o.mid, o.g, gr', o.rest));
    var A, B, C := InOrder(o.outer), InOrder(o.mid), InOrder(o.rest);
    if o.s == L {
      assert A + [o.p] + (B + [o.g] + C) == (A + [o.p] + B) + [o.g] + C;
    } else {
      assert (C + [o.g] + B) + [o.p] + A == C + [o.g] + (B + [o.p] + A);
    }
  }

  // ---------- repainting ----------

  lemma RepaintHeap(h: Heap, k: Heap, x: nat, q: nat, s: Side, a: Tree, r: bool, b: Tree, c: Ctx,
                    ar: bool, r': bool, br: bool)
    requires Focus(h, x, q, Mk(s, a, x, r, b), c)
    requires OnlyAt(h, k, {RootId(a), x, RootId(b)}) && x < |h|
    requires a.T? && a.id < |h| ==> k[a.id] == h[a.id].(red := ar)
    requires b.T? && b.id < |h| ==> k[b.id] == h[b.id].(red := br)
    requires k[x] == h[x].(red := r')
    ensures Focus(k, x, q, Mk(s, Paint(a, ar), x, r', Paint(b, br)), c)
  {
    hide Holds, Links, CIds, Apart, CApart, Mk, Ids, Paint;
    HoldsMk(h, q, s, a, x, r, b);
    RootIn(a);
    RootIn(b);
    HoldsRoot(h, Kid(h[x], s), x, a);
    HoldsRoot(h, Kid(h[x], Opp(s)), x, b);
    HoldsPaint(h, k, x, a, x, ar);
    HoldsPaint(h, k, x, b, x, br);
    PaintIds(a, ar);
    PaintIds(b, br);
    LinksFrame(h, k, q, x, c);
    HoldsMk(k, q, s, Paint(a, ar), x, r', Paint(b, br));
  }

  lemma PaintInOrder(t: Tree, red: bool)
    ensures InOrder(Paint(t, red)) == InOrder(t)
  {
  }

  // ---------- double rotation ----------

  /** A node `g` whose child `p` on side `s` has `x` on its inner side:
      s( s(outer, p, s(a, x, b)), g, rest ). */
  datatype Two = Two(s: Side, outer: Tree, p: nat, pr: bool, a: Tree, x: nat, xr: bool, b: Tree,
                     g: nat, gr: bool, rest: Tree) {
    function Mid(): Tree { Mk(s, a, x, xr, b) }

    function Base(): One { One(s, outer, p, pr, Mid(), g, gr, rest) }

    function Now(pr': bool, xr': bool, gr': bool): Tree {
      Mk(s, Mk(s, outer, p, pr', a), x, xr', Mk(s, b, g, gr', rest))
    }

    ghost predicate Linked(h: Heap, q: nat) {
      && 0 < g < |h| && h[g].parent == q && h[g].red == gr && Kid(h[g], s) == p
      && Kid(h[g], Opp(s)) == RootId(rest) && Holds(h, RootId(rest), g, rest)
      && 0 < p < |h| && h[p].parent == g && h[p].red == pr && Kid(h[p], Opp(s)) == x
      && Kid(h[p], s) == RootId(outer) && Holds(h, RootId(outer), p, outer)
      && 0 < x < |h| && h[x].parent == p && h[x].red == xr
      && Kid(h[x], s) == RootId(a) && Holds(h, RootId(a), x, a)
      && Kid(h[x], Opp(s)) == RootId(b) && Holds(h, RootId(b), x, b)
    }

    ghost predicate Disjoint(out: set<nat>) {
      && Apart(outer) && Apart(a) && Apart(b) && Apart(rest) && p != g && p != x && x != g
      && {p, x, g} !! Ids(outer) && {p, x, g} !! Ids(a) && {p, x, g} !! Ids(b) && {p, x, g} !! Ids(rest)
      && {p, x, g} !! out && Ids(outer) !! out && Ids(a) !! out && Ids(b) !! out && Ids(rest) !! out
      && Ids(outer) !! Ids(a) && Ids(outer) !! Ids(b) && Ids(outer) !! Ids(rest)
      && Ids(a) !! Ids(b) && Ids(a) !! Ids(rest) && Ids(b) !! Ids(rest)
    }

    ghost predicate Rotated(h: Heap, k: Heap, q: nat, c: Ctx, pr': bool, xr': bool, gr': bool)
      requires p < |h| && g < |h| && x < |h|
    {
      && OnlyAt(h, k, {RootId(a), RootId(b), p, x, g, q})
      && (a.T? && a.id < |h| ==> k[a.id] == h[a.id].(parent := p))
      && (b.T? && b.id < |h| ==> k[b.id] == h[b.id].(parent := g))
      && k[x] == WithKid(WithKid(h[x], s, p), Opp(s), g).(parent := q, red := xr')
      && k[p] == WithKid(h[p], Opp(s), RootId(a)).(parent := x, red := pr')
      && k[g] == WithKid(h[g], s, RootId(b)).(parent := x, red := gr')
      && (c.Step? && c.id < |h| ==> k[c.id] == WithKid(h[c.id], c.s, x))
    }
  }

  lemma TwoOf(o: Two, h: Heap, q: nat, c: Ctx)
    requires Focus(h, o.g, q, o.Base().Was(), c)
    ensures o.Linked(h, q) && o.Disjoint(CIds(c))
  {
    hide Holds, Links, CIds, Apart, CApart, Mk, Ids;
    OneOf(o.Base(), h, q, c);
    HoldsMk(h, o.p, o.s, o.a, o.x, o.xr, o.b);
    MkRoot(o.s, o.a, o.x, o.xr, o.b);
    HoldsRoot(h, Kid(h[o.x], o.s), o.x, o.a);
    HoldsRoot(h, Kid(h[o.x], Opp(o.s)), o.x, o.b);
  }

  lemma RotateTwoFrames(o: Two, h: Heap, k: Heap, q: nat, c: Ctx, pr': bool, xr': bool, gr': bool)
    requires Links(h, q, o.g, c) && CApart(c) && o.Linked(h, q) && o.Disjoint(CIds(c))
    requires o.Rotated(h, k, q, c, pr', xr', gr')
    ensures Holds(k, RootId(o.outer), o.p, o.outer) && Holds(k, RootId(o.a), o.p, o.a)
    ensures Holds(k, RootId(o.b), o.g, o.b) && Holds(k, RootId(o.rest), o.g, o.rest) && Links(k, q, o.x, c)
  {
    hide Holds, Links, CIds, Apart, CApart, Ids;
    LinksHead(h, q, o.g, c);
    RootIn(o.a);
    RootIn(o.b);
    HoldsRehang(h, k, o.x, o.a, o.p);
    HoldsRehang(h, k, o.x, o.b, o.g);
    HoldsFrame(h, k, RootId(o.outer), o.p, o.outer);
    HoldsFrame(h, k, RootId(o.rest), o.g, o.rest);
    LinksReplace(h, k, q, o.g, o.x, c);
  }

  lemma RotateTwo(o: Two, h: Heap, k: Heap, q: nat, c: Ctx, pr': bool, xr': bool, gr': bool)
    requires Focus(h, o.g, q, o.Base().Was(), c) && o.Linked(h, q) && o.Disjoint(CIds(c))
    requires o.Rotated(h, k, q, c, pr', xr', gr')
    ensures Focus(k, o.x, q, o.Now(pr', xr', gr'), c)
  {
    hide Holds, Links, CIds, Apart, CApart, Mk, Ids;
    RotateTwoFrames(o, h, k, q, c, pr', xr', gr');
    HoldsMk(k, o.x, o.s, o.outer, o.p, pr', o.a);
    HoldsMk(k, o.x, o.s, o.b, o.g, gr', o.rest);
    HoldsMk(k, q, o.s, Mk(o.s, o.outer, o.p, pr', o.a), o.x, xr', Mk(o.s, o.b, o.g, gr', o.rest));
  }

  lemma Regroup(A: seq<nat>, p: nat, B: seq<nat>, x: nat, C: seq<nat>, g: nat, D: seq<nat>)
    ensures (A + [p] + B) + [x] + (C + [g] + D) == (A + [p] + (B + [x] + C)) + [g] + D
    ensures (A + [p] + B) + [x] + (C + [g] + D) == A + [p] + ((B + [x] + C) + [g] + D)
  {
  }

  lemma TwoInOrder(o: Two, pr': bool, xr': bool, gr': bool)
    ensures InOrder(o.Now(pr', xr', gr')) == InOrder(o.Base().Was())
  {
    hide InOrder, Mk;
    MkInOrder(o.s, o.a, o.x, o.xr, o.b);
    MkInOrder(o.s, o.outer, o.p, o.pr, o.Mid());
    MkInOrder(o.s, Mk(o.s, o.outer, o.p, o.pr, o.Mid()), o.g, o.gr, o.rest);
    MkInOrder(o.s, o.outer, o.p, pr', o.a);
    MkInOrder(o.s, o.b, o.g, gr', o.rest);
    MkInOrder(o.s, Mk(o.s, o.outer, o.p, pr', o.a), o.x, xr', Mk(o.s, o.b, o.g, gr', o.rest));
    var O, A, B, S := InOrder(o.outer), InOrder(o.a), InOrder(o.b), InOrder(o.rest);
    if o.s == L {
      Regroup(O, o.p, A, o.x, B, o.g, S);
    } else {
      Regroup(S, o.g, B, o.x, A, o.p, O);
    }
  }

  lemma PlugSameOrder(c: Ctx, t: Tree, u: Tree)
    requires InOrder(t) == InOrder(u)
    ensures InOrder(Plug(c, t)) == InOrder(Plug(c, u))
  {
    PlugInOrder(c, t);
    PlugInOrder(c, u);
  }
}
