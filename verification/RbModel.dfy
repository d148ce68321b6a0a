/**
 The node heap of `common/rbtree.c` and its abstraction.

 Nodes live in a flat heap indexed by node id; id 0 is NULL.  A ghost tree records what the
 links mean, and a ghost zipper (a path from a node up to the root) records what surrounds a
 node in the middle of a tree.  Everything is stated once for a side and its opposite, because
 both fix-up loops of the program are written twice, once per side.
 */
module RbModel {
  datatype Side = L | R

  function Opp(s: Side): Side { if s == L then R else L }

  datatype Node = Node(left: nat, right: nat, parent: nat, red: bool)

  function Kid(n: Node, s: Side): nat { if s == L then n.left else n.right }

  function WithKid(n: Node, s: Side, k: nat): Node {
    if s == L then n.(left := k) else n.(right := k)
  }

  type Heap = seq<Node>

  datatype Tree = Leaf | T(l: Tree, id: nat, red: bool, r: Tree)

  /** A node whose child on side `s` is `a` and whose other child is `b`. */
  function Mk(s: Side, a: Tree, id: nat, red: bool, b: Tree): Tree {
    if s == L then T(a, id, red, b) else T(b, id, red, a)
  }

  /** The child of `t` on side `s`. */
  function Sub(t: Tree, s: Side): Tree
    requires t.T?
  {
    if s == L then t.l else t.r
  }

  /** A path from a hole up to the root: the hole is the child of `id` on side `s`. */
  datatype Ctx = Top | Step(s: Side, id: nat, red: bool, sib: Tree, up: Ctx)

  function Plug(c: Ctx, t: Tree): Tree {
    match c
    case Top => t
    case Step(s, id, red, sib, up) => Plug(up, Mk(s, t, id, red, sib))
  }

  function RootId(t: Tree): nat { if t.Leaf? then 0 else t.id }

  function IsRed(t: Tree): bool { t.T? && t.red }

  function HeadRed(c: Ctx): bool { c.Step? && c.red }

  function Black(t: Tree): Tree { if t.Leaf? then t else t.(red := false) }

  // ---------- in-order sequence ----------

  function InOrder(t: Tree): seq<nat> {
    match t
    case Leaf => []
    case T(l, id, _, r) => InOrder(l) + [id] + InOrder(r)
  }

  function Before(c: Ctx): seq<nat> {
    match c
    case Top => []
    case Step(s, id, _, sib, up) => if s == L then Before(up) else Before(up) + InOrder(sib) + [id]
  }

  function After(c: Ctx): seq<nat> {
    match c
    case Top => []
    case Step(s, id, _, sib, up) => if s == L then [id] + InOrder(sib) + After(up) else After(up)
  }

  lemma MkInOrder(s: Side, a: Tree, id: nat, red: bool, b: Tree)
    ensures InOrder(Mk(s, a, id, red, b)) ==
            if s == L then InOrder(a) + [id] + InOrder(b) else InOrder(b) + [id] + InOrder(a)
  {
  }

  lemma {:induction false} PlugInOrder(c: Ctx, t: Tree)
    ensures InOrder(Plug(c, t)) == Before(c) + InOrder(t) + After(c)
  {
    hide InOrder, Mk;
    if c.Step? {
      PlugInOrder(c.up, Mk(c.s, t, c.id, c.red, c.sib));
      MkInOrder(c.s, t, c.id, c.red, c.sib);
      Regroup(Before(c.up), InOrder(t), [c.id], InOrder(c.sib), After(c.up));
    } else {
      assert [] + InOrder(t) + [] == InOrder(t);
    }
  }

  lemma Regroup(a: seq<nat>, b: seq<nat>, c: seq<nat>, d: seq<nat>, e: seq<nat>)
    ensures a + b + (c + d + e) == a + (b + c + d) + e
    ensures a + d + c + b + e == a + (d + c + b) + e
  {
  }

  // ---------- node sets ----------

  ghost function Ids(t: Tree): set<nat> {
    match t
    case Leaf => {}
    case T(l, id, _, r) => Ids(l) + {id} + Ids(r)
  }

  ghost function CIds(c: Ctx): set<nat> {
    match c
    case Top => {}
    case Step(_, id, _, sib, up) => {id} + Ids(sib) + CIds(up)
  }

  /** No node occurs twice in the tree. */
  ghost predicate Apart(t: Tree) {
    match t
    case Leaf => true
    case T(l, id, _, r) => id !in Ids(l) && id !in Ids(r) && Ids(l) !! Ids(r) && Apart(l) && Apart(r)
  }

  ghost predicate CApart(c: Ctx) {
    match c
    case Top => true
    case Step(_, id, _, sib, up) =>
      id !in Ids(sib) && id !in CIds(up) && Ids(sib) !! CIds(up) && Apart(sib) && CApart(up)
  }

  lemma {:induction false} IdsInOrder(t: Tree, x: nat)
    ensures x in Ids(t) <==> x in InOrder(t)
  {
    match t
    case Leaf =>
    case T(l, id, _, r) =>
      IdsInOrder(l, x);
      IdsInOrder(r, x);
  }

  lemma {:induction false} PlugApart(c: Ctx, t: Tree)
    requires CApart(c) && Apart(t) && Ids(t) !! CIds(c)
    ensures Apart(Plug(c, t)) && Ids(Plug(c, t)) == Ids(t) + CIds(c)
  {
    match c
    case Top =>
    case Step(s, id, red, sib, up) =>
      PlugApart(up, Mk(s, t, id, red, sib));
  }

  // ---------- links ----------

  /** The heap cells reachable from `x` are exactly the tree `t`, and `x` has parent `p`. */
  ghost predicate Holds(h: Heap, x: nat, p: nat, t: Tree)
    decreases t
  {
    match t
    case Leaf => x == 0
    case T(l, id, red, r) =>
      && x == id && 0 < x < |h|
      && h[x].parent == p && h[x].red == red
      && Holds(h, h[x].left, x, l) && Holds(h, h[x].right, x, r)
  }

  /** The heap cells from `p` upwards are exactly the path `c`, whose hole holds `x`. */
  ghost predicate Links(h: Heap, p: nat, x: nat, c: Ctx)
    decreases c
  {
    match c
    case Top => p == 0
    case Step(s, id, red, sib, up) =>
      && p == id && 0 < p < |h|
      && Kid(h[p], s) == x && h[p].red == red
      && Holds(h, Kid(h[p], Opp(s)), p, sib)
      && Links(h, h[p].parent, p, up)
  }

  /** The id at the top of the path, or `x` when the hole is the root. */
  function RootOf(c: Ctx, x: nat): nat {
    match c
    case Top => x
    case Step(_, id, _, _, up) => RootOf(up, id)
  }

  /** A zipper position: subtree `t` at `x` below `p`, in the surroundings `c`, without sharing. */
  ghost predicate Focus(h: Heap, x: nat, p: nat, t: Tree, c: Ctx) {
    Holds(h, x, p, t) && Links(h, p, x, c) && Apart(t) && CApart(c) && Ids(t) !! CIds(c)
  }

  ghost predicate Same(h: Heap, k: Heap, ids: set<nat>) {
    |h| == |k| && forall i :: i in ids && 0 <= i < |h| ==> h[i] == k[i]
  }

  /** Only cells of `ids` differ; cell 0, which stands for NULL, never does. */
  ghost predicate OnlyAt(h: Heap, k: Heap, ids: set<nat>) {
    |h| == |k| && forall i {:trigger h[i]} {:trigger k[i]} :: 0 <= i < |h| && (i == 0 || i !in ids) ==> h[i] == k[i]
  }

  lemma {:induction false} HoldsFrame(h: Heap, k: Heap, x: nat, p: nat, t: Tree)
    requires Holds(h, x, p, t) && Same(h, k, Ids(t))
    ensures Holds(k, x, p, t)
    decreases t
  {
    match t
    case Leaf =>
    case T(l, id, red, r) =>
      assert id in Ids(t);
      HoldsFrame(h, k, h[x].left, x, l);
      HoldsFrame(h, k, h[x].right, x, r);
  }

  lemma {:induction false} LinksFrame(h: Heap, k: Heap, p: nat, x: nat, c: Ctx)
    requires Links(h, p, x, c) && Same(h, k, CIds(c))
    ensures Links(k, p, x, c)
    decreases c
  {
    match c
    case Top =>
    case Step(s, id, red, sib, up) =>
      assert id in CIds(c);
      HoldsFrame(h, k, Kid(h[p], Opp(s)), p, sib);
      LinksFrame(h, k, h[p].parent, p, up);
  }

  /** Hanging a subtree under another parent, possibly repainting its root. */
  lemma HoldsMove(h: Heap, k: Heap, x: nat, p: nat, t: Tree, p': nat, red: bool)
    requires Holds(h, x, p, t) && Apart(t) && Same(h, k, Ids(t) - {x})
    requires t.T? ==> |h| == |k| && k[x] == h[x].(parent := p', red := red)
    ensures t.T? ==> Holds(k, x, p', t.(red := red))
    ensures t.Leaf? ==> Holds(k, x, p', t)
  {
    if t.T? {
      HoldsFrame(h, k, h[x].left, x, t.l);
      HoldsFrame(h, k, h[x].right, x, t.r);
    }
  }

  /** Replacing the child in the hole: only the cell next to the hole changes. */
  lemma LinksReplace(h: Heap, k: Heap, p: nat, x: nat, x': nat, c: Ctx)
    requires Links(h, p, x, c) && CApart(c)
    requires Same(h, k, CIds(c) - {p})
    requires c.Step? ==> k[p] == WithKid(h[p], c.s, x')
    ensures Links(k, p, x', c)
  {
    if c.Step? {
      HoldsFrame(h, k, Kid(h[p], Opp(c.s)), p, c.sib);
      LinksFrame(h, k, h[p].parent, p, c.up);
    }
  }

  lemma {:induction false} PlugHolds(h: Heap, x: nat, p: nat, t: Tree, c: Ctx)
    requires Holds(h, x, p, t) && Links(h, p, x, c)
    ensures Holds(h, RootOf(c, x), 0, Plug(c, t))
    decreases c
  {
    match c
    case Top =>
    case Step(s, id, red, sib, up) =>
      PlugHolds(h, id, h[p].parent, Mk(s, t, id, red, sib), up);
  }

  // ---------- red-black invariants ----------

  /** Every path from the root of `t` to a leaf meets exactly `n` black nodes. */
  predicate Bal(t: Tree, n: nat) {
    match t
    case Leaf => n == 0
    case T(l, _, red, r) =>
      if red then Bal(l, n) && Bal(r, n) else n >= 1 && Bal(l, n - 1) && Bal(r, n - 1)
  }

  /** No red node has a red child. */
  predicate NoRR(t: Tree) {
    match t
    case Leaf => true
    case T(l, _, red, r) => NoRR(l) && NoRR(r) && (red ==> !IsRed(l) && !IsRed(r))
  }

  /** Filling the hole with a tree of black height `n` gives equal black heights everywhere. */
  predicate CBal(c: Ctx, n: nat) {
    match c
    case Top => true
    case Step(_, _, red, sib, up) => Bal(sib, n) && CBal(up, if red then n else n + 1)
  }

  /** No two adjacent red nodes on or beside the path, and a black node at its top. */
  predicate CNoRR(c: Ctx) {
    match c
    case Top => true
    case Step(_, _, red, sib, up) =>
      NoRR(sib) && CNoRR(up) && (red ==> !IsRed(sib) && up.Step? && !up.red)
  }

  function BlackHeight(t: Tree): nat {
    match t
    case Leaf => 0
    case T(l, _, red, _) => BlackHeight(l) + (if red then 0 else 1)
  }

  predicate RedBlack(t: Tree) {
    Bal(t, BlackHeight(t)) && NoRR(t) && !IsRed(t)
  }

  lemma {:induction false} BalIsBlackHeight(t: Tree, n: nat)
    requires Bal(t, n)
    ensures n == BlackHeight(t)
  {
    match t
    case Leaf =>
    case T(l, _, red, _) => BalIsBlackHeight(l, if red then n else n - 1);
  }

  lemma {:induction false} PlugRedBlack(c: Ctx, t: Tree, n: nat)
    requires Bal(t, n) && NoRR(t) && CBal(c, n) && CNoRR(c)
    requires IsRed(t) ==> c.Step? && !c.red
    ensures RedBlack(Plug(c, t))
  {
    match c
    case Top => BalIsBlackHeight(t, n);
    case Step(s, id, red, sib, up) =>
      PlugRedBlack(up, Mk(s, t, id, red, sib), if red then n else n + 1);
  }

  lemma BlackKeeps(t: Tree, n: nat)
    requires Bal(t, n) && NoRR(t)
    ensures Bal(Black(t), if IsRed(t) then n + 1 else n) && NoRR(Black(t)) && !IsRed(Black(t))
    ensures InOrder(Black(t)) == InOrder(t)
  {
  }

  // ---------- opening a tree at a node ----------

  /** The path from the root of `t` to the node `id`, on top of `c`. */
  ghost function PathTo(t: Tree, id: nat, c: Ctx): Ctx {
    match t
    case Leaf => c
    case T(l, i, red, r) =>
      if i == id then c
      else if id in Ids(l) then PathTo(l, id, Step(L, i, red, r, c))
      else PathTo(r, id, Step(R, i, red, l, c))
  }

  ghost function SubAt(t: Tree, id: nat): Tree {
    match t
    case Leaf => Leaf
    case T(l, i, red, r) =>
      if i == id then t else if id in Ids(l) then SubAt(l, id) else SubAt(r, id)
  }

  lemma {:induction false} Open(h: Heap, x: nat, p: nat, t: Tree, c: Ctx, id: nat)
    requires Focus(h, x, p, t, c) && id in Ids(t)
    ensures 0 < id < |h|
    ensures SubAt(t, id).T? && SubAt(t, id).id == id
    ensures Focus(h, id, h[id].parent, SubAt(t, id), PathTo(t, id, c))
    ensures Plug(PathTo(t, id, c), SubAt(t, id)) == Plug(c, t)
    ensures RootOf(PathTo(t, id, c), id) == RootOf(c, x)
    decreases t
  {
    var T(l, i, red, r) := t;
    if i == id {
    } else if id in Ids(l) {
      Open(h, h[x].left, x, l, Step(L, i, red, r, c), id);
    } else {
      Open(h, h[x].right, x, r, Step(R, i, red, l, c), id);
    }
  }

  lemma {:induction false} OpenColours(t: Tree, n: nat, c: Ctx, id: nat)
    requires Bal(t, n) && NoRR(t) && CBal(c, n) && CNoRR(c) && id in Ids(t)
    requires IsRed(t) ==> c.Step? && !c.red
    ensures var u, d := SubAt(t, id), PathTo(t, id, c);
            Bal(u, BlackHeight(u)) && NoRR(u) && CBal(d, BlackHeight(u)) && CNoRR(d)
            && (IsRed(u) ==> d.Step? && !d.red)
  {
    var T(l, i, red, r) := t;
    BalIsBlackHeight(t, n);
    if i == id {
    } else if id in Ids(l) {
      OpenColours(l, if red then n else n - 1, Step(L, i, red, r, c), id);
    } else {
      OpenColours(r, if red then n else n - 1, Step(R, i, red, l, c), id);
    }
  }
}
