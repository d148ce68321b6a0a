/** `common/rbtree.c` on a heap of nodes; node 0 is NULL. */
module RbTree {
  import opened RbModel
  import opened RbRotate
  import opened RbInsert
  import opened RbErase
  import opened RbUnlink
  import opened Sequences
  import opened RbOrder

  // The inline helpers at the top of the file.

  function SetParentColor(h: Heap, x: nat, p: nat, red: bool): Heap
    requires x < |h|
  {
    h[x := h[x].(parent := p, red := red)]
  }

  function SetParent(h: Heap, x: nat, p: nat): Heap
    requires x < |h|
  {
    h[x := h[x].(parent := p)]
  }

  function SetLeft(h: Heap, x: nat, k: nat): Heap
    requires x < |h|
  {
    h[x := h[x].(left := k)]
  }

  function SetRight(h: Heap, x: nat, k: nat): Heap
    requires x < |h|
  {
    h[x := h[x].(right := k)]
  }

  class Root {
    var mem: Heap
    var root: nat
    ghost var tree: Tree

    /** The cells below `root` are a red-black tree without sharing, all parent links included. */
    ghost predicate Valid()
      reads this
    {
      Holds(mem, root, 0, tree) && Apart(tree) && RedBlack(tree)
    }

    /** `__rb_change_child` */
    method ChangeChild(was: nat, now: nat, parent: nat)
      requires parent < |mem|
      modifies `mem, `root
      ensures parent == 0 ==> mem == old(mem) && root == now
      ensures parent != 0 ==> root == old(root)
      ensures parent != 0 && old(mem)[parent].left == was ==> mem == SetLeft(old(mem), parent, now)
      ensures parent != 0 && old(mem)[parent].left != was ==> mem == SetRight(old(mem), parent, now)
    {
      if parent != 0 {
        if mem[parent].left == was {
          mem := SetLeft(mem, parent, now);
        } else {
          mem := SetRight(mem, parent, now);
        }
      } else {
        root := now;
      }
    }

    /** `__rb_rotate_set_parents`, seen at a known place `c` of the old top. */
    method RotateSetParents(was: nat, now: nat, red: bool, ghost c: Ctx)
      requires was < |mem| && now < |mem| && was != now && mem[was].parent < |mem| && 0 !in {was, now}
      requires c.Top? <==> mem[was].parent == 0
      requires c.Step? ==> c.id == mem[was].parent && c.id !in {was, now}
      requires c.Step? ==> (mem[c.id].left == was <==> c.s == L)
      modifies `mem, `root
      ensures OnlyAt(old(mem), mem, {was, now, old(mem)[was].parent})
      ensures mem[now] == old(mem)[now].(parent := old(mem)[was].parent, red := old(mem)[was].red)
      ensures mem[was] == old(mem)[was].(parent := now, red := red)
      ensures c.Step? ==> mem[c.id] == WithKid(old(mem)[c.id], c.s, now)
      ensures root == if c.Top? then now else old(root)
    {
      var parent := mem[was].parent;
      mem := mem[now := mem[now].(parent := mem[was].parent, red := mem[was].red)];
      mem := SetParentColor(mem, was, now, red);
      ChangeChild(was, now, parent);
    }

    /** Lines 73-79 */
    method InsertTurnLeft(node: nat, parent: nat) returns (tmp: nat)
      requires 0 < node < |mem| && 0 < parent < |mem| && node != parent
      requires mem[node].left < |mem| && mem[node].left !in {node, parent}
      modifies `mem, `root
      ensures tmp == old(mem)[node].right && root == old(root)
      ensures TurnCells(old(mem), mem, L, node, parent, old(mem)[node].left)
    {
      tmp := mem[node].left;
      mem := SetRight(mem, parent, tmp);
      if tmp != 0 { mem := SetParentColor(mem, tmp, parent, false); }
      mem := SetLeft(mem, node, parent);
      mem := SetParentColor(mem, parent, node, true);
      tmp := mem[node].right;
    }

    /** Lines 82-86 */
    method InsertLiftLeft(gparent: nat, parent: nat, tmp: nat, ghost c: Ctx)
      requires 0 < gparent < |mem| && 0 < parent < |mem| && gparent != parent
      requires tmp < |mem| && tmp !in {gparent, parent} && (tmp != 0 ==> tmp != mem[gparent].parent)
      requires c.Top? <==> mem[gparent].parent == 0
      requires c.Step? ==> c.id == mem[gparent].parent < |mem| && c.id !in {gparent, parent}
      requires c.Step? ==> (mem[c.id].left == gparent <==> c.s == L)
      modifies `mem, `root
      ensures LiftCells(old(mem), mem, L, gparent, parent, tmp, c)
      ensures root == if c.Top? then parent else old(root)
    {
      mem := SetLeft(mem, gparent, tmp);
      if tmp != 0 { mem := SetParentColor(mem, tmp, gparent, false); }
      mem := SetRight(mem, parent, gparent);
      RotateSetParents(gparent, parent, true, c);
    }

    /** Lines 70-87: a black uncle on the right. */
    method InsertRotateLeft(node: nat, top: nat, gparent: nat, ghost v: Grand, ghost t: Tree)
      requires t.T? && t.id == node && t.red && v.s2 == L && v.p == top && v.g == gparent
      requires 0 < gparent < |mem| && Focus(mem, gparent, mem[gparent].parent, v.Was(t), v.up)
      requires !IsRed(v.sib) && !IsRed(t.l) && !IsRed(t.r)
      modifies `mem, `root
      ensures Focus(mem, v.Rotated(t).id, old(mem)[gparent].parent, v.Rotated(t), v.up)
      ensures root == if v.up.Top? then v.Rotated(t).id else old(root)
      ensures OnlyAt(old(mem), mem, Ids(v.Was(t)) + CIds(v.up))
    {
      hide Holds, Apart, CApart, Ids, CIds, Links, Focus, Mk, Paint;
      ghost var h, q := mem, mem[gparent].parent;
      FocusHead(h, gparent, q, v.Was(t), v.up);
      GrandCells(v, t, h, q);
      GrandShape(v, t);
      var parent := top;
      var tmp := mem[parent].right;
      if node == tmp {
        tmp := InsertTurnLeft(node, parent);
        parent := node;
      }
      ghost var m := mem;
      InsertLiftLeft(gparent, parent, tmp, v.up);
      if v.s == L {
        LiftOne(v, t, h, mem, q);
      } else {
        LiftTwo(v, t, h, m, mem, q);
      }
    }

    /** Lines 101-107 */
    method InsertTurnRight(node: nat, parent: nat) returns (tmp: nat)
      requires 0 < node < |mem| && 0 < parent < |mem| && node != parent
      requires mem[node].right < |mem| && mem[node].right !in {node, parent}
      modifies `mem, `root
      ensures tmp == old(mem)[node].left && root == old(root)
      ensures TurnCells(old(mem), mem, R, node, parent, old(mem)[node].right)
    {
      tmp := mem[node].right;
      mem := SetLeft(mem, parent, tmp);
      if tmp != 0 { mem := SetParentColor(mem, tmp, parent, false); }
      mem := SetRight(mem, node, parent);
      mem := SetParentColor(mem, parent, node, true);
      tmp := mem[node].left;
    }

    /** Lines 110-114 */
    method InsertLiftRight(gparent: nat, parent: nat, tmp: nat, ghost c: Ctx)
      requires 0 < gparent < |mem| && 0 < parent < |mem| && gparent != parent
      requires tmp < |mem| && tmp !in {gparent, parent} && (tmp != 0 ==> tmp != mem[gparent].parent)
      requires c.Top? <==> mem[gparent].parent == 0
      requires c.Step? ==> c.id == mem[gparent].parent < |mem| && c.id !in {gparent, parent}
      requires c.Step? ==> (mem[c.id].left == gparent <==> c.s == L)
      modifies `mem, `root
      ensures LiftCells(old(mem), mem, R, gparent, parent, tmp, c)
      ensures root == if c.Top? then parent else old(root)
    {
      mem := SetRight(mem, gparent, tmp);
      if tmp != 0 { mem := SetParentColor(mem, tmp, gparent, false); }
      mem := SetLeft(mem, parent, gparent);
      RotateSetParents(gparent, parent, true, c);
    }

    /** Lines 98-115: a black uncle on the left. */
    method InsertRotateRight(node: nat, top: nat, gparent: nat, ghost v: Grand, ghost t: Tree)
      requires t.T? && t.id == node && t.red && v.s2 == R && v.p == top && v.g == gparent
      requires 0 < gparent < |mem| && Focus(mem, gparent, mem[gparent].parent, v.Was(t), v.up)
      requires !IsRed(v.sib) && !IsRed(t.l) && !IsRed(t.r)
      modifies `mem, `root
      ensures Focus(mem, v.Rotated(t).id, old(mem)[gparent].parent, v.Rotated(t), v.up)
      ensures root == if v.up.Top? then v.Rotated(t).id else old(root)
      ensures OnlyAt(old(mem), mem, Ids(v.Was(t)) + CIds(v.up))
    {
      hide Holds, Apart, CApart, Ids, CIds, Links, Focus, Mk, Paint;
      ghost var h, q := mem, mem[gparent].parent;
      FocusHead(h, gparent, q, v.Was(t), v.up);
      GrandCells(v, t, h, q);
      GrandShape(v, t);
      var parent := top;
      var tmp := mem[parent].left;
      if node == tmp {
        tmp := InsertTurnRight(node, parent);
        parent := node;
      }
      ghost var m := mem;
      InsertLiftRight(gparent, parent, tmp, v.up);
      if v.s == R {
        LiftOne(v, t, h, mem, q);
      } else {
        LiftTwo(v, t, h, m, mem, q);
      }
    }

    /** Lines 63-67 and 91-95: a red uncle `tmp`. */
    method InsertRecolour(node: nat, tmp: nat, parent: nat, gparent: nat, ghost v: Grand, ghost t: Tree, ghost n: nat)
      returns (up: nat)
      requires v.p == parent && v.g == gparent && 0 < gparent < |mem| && InsertInv(t, n, v.Path()) && t.T?
      requires Focus(mem, gparent, mem[gparent].parent, v.Was(t), v.up)
      requires IsRed(v.uncle) && v.uncle.id == tmp && 0 < tmp < |mem| && 0 < parent < |mem|
      requires parent != gparent && tmp !in {parent, gparent} && mem[parent].parent == gparent
      modifies `mem, `root
      ensures up == old(mem)[gparent].parent && root == old(root) && gparent < |mem| && mem[gparent].parent == up
      ensures Focus(mem, gparent, up, v.Recoloured(t), v.up) && InsertInv(v.Recoloured(t), n + 1, v.up)
      ensures OnlyAt(old(mem), mem, Ids(Plug(v.Path(), t)))
    {
      hide Holds, Apart, CApart, Ids, CIds, Links, Focus, Mk, Paint, Plug, InsertInv;
      ghost var h := mem;
      mem := SetParentColor(mem, tmp, gparent, false);
      mem := SetParentColor(mem, parent, gparent, false);
      up := mem[gparent].parent;
      mem := SetParentColor(mem, gparent, up, true);
      Recolour(v, t, n, h, mem);
      GrandIds(v, t);
    }

    /** `__rb_insert_fix` */
    method InsertFix(added: nat, ghost t0: Tree, ghost n0: nat, ghost c0: Ctx) returns (ghost t': Tree)
      requires 0 < added < |mem| && Focus(mem, added, mem[added].parent, t0, c0) && InsertInv(t0, n0, c0)
      requires c0.Step? ==> root == RootOf(c0, added)
      modifies `mem, `root
      ensures Holds(mem, root, 0, t') && Apart(t') && RedBlack(t')
      ensures InOrder(t') == InOrder(Plug(c0, t0)) && OnlyAt(old(mem), mem, Ids(t'))
    {
      hide Holds, Apart, CApart, Ids, CIds, Links, Focus, Mk, Paint, InOrder, Plug, RedBlack, InsertInv, RootOf;
      var node, parent := added, mem[added].parent;
      ghost var t, n, c := t0, n0, c0;
      while true
        invariant 0 < node < |mem| && Focus(mem, node, parent, t, c) && mem[node].parent == parent
        invariant InsertInv(t, n, c) && (c.Step? ==> root == RootOf(c, node))
        invariant InOrder(Plug(c, t)) == InOrder(Plug(c0, t0))
        invariant OnlyAt(old(mem), mem, Ids(Plug(c, t)))
        decreases c
      {
        InsertShape(mem, node, parent, t, n, c);
        if parent == 0 {
          ghost var h := mem;
          mem := SetParentColor(mem, node, 0, false);
          root := node;
          BlackRoot(h, mem, node, t, n);
          return Paint(t, false);
        } else if !mem[parent].red {
          InsertDone(mem, node, parent, t, n, c);
          return Plug(c, t);
        }
        ghost var v := GrandOf(mem, node, parent, t, n, c);
        GrandInOrder(v, t);
        GrandIds(v, t);
        GrandShape(v, t);
        GrandRoot(v, node, v.g);
        GrandRoot(v, node, v.Rotated(t).id);
        var gparent := mem[parent].parent;
        ghost var q := mem[gparent].parent;
        var tmp := mem[gparent].right;
        if parent != tmp {
          if tmp != 0 && mem[tmp].red {
            parent := InsertRecolour(node, tmp, parent, gparent, v, t, n);
            node := gparent;
            t, n, c := v.Recoloured(t), n + 1, v.up;
            continue;
          }
          InsertRotateLeft(node, parent, gparent, v, t);
        } else {
          tmp := mem[gparent].left;
          if tmp != 0 && mem[tmp].red {
            parent := InsertRecolour(node, tmp, parent, gparent, v, t, n);
            node := gparent;
            t, n, c := v.Recoloured(t), n + 1, v.up;
            continue;
          }
          InsertRotateRight(node, parent, gparent, v, t);
        }
        t' := InsertRotated(v, t, n, mem, q);
        return;
      }
    }

    /** Lines 178-182: a red sibling on the right. */
    method EraseFlipLeft(parent: nat, sibling: nat, ghost v: Short, ghost t: Tree, ghost n: nat) returns (tmp1: nat)
      requires v.s == L && v.p == parent && v.sib.T? && v.sib.id == sibling && v.sib.red
      requires 0 < parent < |mem| && EraseInv(t, n, v.Path())
      requires Focus(mem, parent, mem[parent].parent, v.Was(t), v.up)
      modifies `mem, `root
      ensures v.Near().T? && tmp1 == v.Near().id && !v.Near().red && parent < |mem| && mem[parent].parent == sibling
      ensures Focus(mem, parent, sibling, v.Flipped().Was(t), v.Flipped().up)
      ensures EraseInv(t, n, v.Flipped().Path())
      ensures root == if v.up.Top? then sibling else old(root)
      ensures OnlyAt(old(mem), mem, Ids(v.Was(t)) + CIds(v.up))
    {
      hide Holds, Apart, CApart, Ids, CIds, Links, Focus, Mk, Paint, EraseInv;
      ghost var h, q := mem, mem[parent].parent;
      FocusHead(h, parent, q, v.Was(t), v.up);
      ShortColours(v, t, n);
      ShortCells(v, t, h, q);
      ShortIds(v, t);
      tmp1 := mem[sibling].left;
      mem := SetRight(mem, parent, tmp1);
      mem := SetParentColor(mem, tmp1, parent, false);
      mem := SetLeft(mem, sibling, parent);
      RotateSetParents(parent, sibling, true, v.up);
      FlipHeap(v, t, h, mem, q);
      FlipColours(v, t, n);
    }

    /** Lines 200-206 */
    method EraseNephewLeft(parent: nat, sibling: nat, tmp2: nat) returns (tmp1: nat)
      requires 0 < parent < |mem| && 0 < sibling < |mem| && 0 < tmp2 < |mem|
      requires parent != sibling && tmp2 !in {parent, sibling}
      requires mem[tmp2].right < |mem| && mem[tmp2].right !in {parent, sibling, tmp2}
      modifies `mem, `root
      ensures tmp1 == sibling && root == old(root)
      ensures NephewCells(old(mem), mem, L, parent, sibling, tmp2, old(mem)[tmp2].right)
    {
      tmp1 := mem[tmp2].right;
      mem := SetLeft(mem, sibling, tmp1);
      if tmp1 != 0 { mem := SetParentColor(mem, tmp1, sibling, false); }
      mem := SetRight(mem, tmp2, sibling);
      mem := SetRight(mem, parent, tmp2);
      tmp1 := sibling;
    }

    /** Lines 209-214 */
    method EraseRaiseLeft(parent: nat, sibling: nat, tmp1: nat, ghost c: Ctx)
      requires 0 < parent < |mem| && 0 < sibling < |mem| && 0 < tmp1 < |mem|
      requires parent != sibling && tmp1 !in {parent, sibling, mem[parent].parent}
      requires var near := mem[sibling].left;
               near < |mem| && (near != 0 ==> near !in {parent, sibling, tmp1, mem[parent].parent})
      requires c.Top? <==> mem[parent].parent == 0
      requires c.Step? ==> c.id == mem[parent].parent < |mem| && c.id !in {parent, sibling}
      requires c.Step? ==> (mem[c.id].left == parent <==> c.s == L)
      modifies `mem, `root
      ensures RaiseCells(old(mem), mem, L, parent, sibling, old(mem)[sibling].left, tmp1, c)
      ensures root == if c.Top? then sibling else old(root)
    {
      var tmp2 := mem[sibling].left;
      mem := SetRight(mem, parent, tmp2);
      if tmp2 != 0 { mem := SetParent(mem, tmp2, parent); }
      mem := SetLeft(mem, sibling, parent);
      mem := SetParentColor(mem, tmp1, sibling, false);
      RotateSetParents(parent, sibling, false, c);
    }

    /** Lines 199-215 with a red nephew: `tmp1` is the far one. */
    method EraseRotateLeft(parent: nat, sib: nat, far: nat, ghost v: Short, ghost t: Tree, ghost n: nat)
      requires v.s == L && v.p == parent && v.sib.T? && v.sib.id == sib && !v.sib.red && far == RootId(v.Far())
      requires IsRed(v.Far()) || IsRed(v.Near())
      requires 0 < parent < |mem| && EraseInv(t, n, v.Path())
      requires Focus(mem, parent, mem[parent].parent, v.Was(t), v.up)
      modifies `mem, `root
      ensures Focus(mem, v.Rotated(t).id, old(mem)[parent].parent, v.Rotated(t), v.up)
      ensures root == if v.up.Top? then v.Rotated(t).id else old(root)
      ensures OnlyAt(old(mem), mem, Ids(v.Was(t)) + CIds(v.up))
    {
      hide Holds, Apart, CApart, Ids, CIds, Links, Focus, Mk, Paint, EraseInv;
      ghost var h, q := mem, mem[parent].parent;
      FocusHead(h, parent, q, v.Was(t), v.up);
      ShortColours(v, t, n);
      ShortCells(v, t, h, q);
      ShortShape(v, t);
      ShortIds(v, t);
      ShortIdsOutside(v, t, h, q);
      var sibling, tmp1 := sib, far;
      if tmp1 == 0 || !mem[tmp1].red {
        var tmp2 := mem[sibling].left;
        tmp1 := EraseNephewLeft(parent, sibling, tmp2);
        sibling := tmp2;
      }
      ghost var m := mem;
      EraseRaiseLeft(parent, sibling, tmp1, v.up);
      if IsRed(v.Far()) {
        RaiseOne(v, t, h, mem, q);
      } else {
        RaiseTwo(v, t, h, m, mem, q);
      }
    }

    /** Lines 219-223: a red sibling on the left. */
    method EraseFlipRight(parent: nat, sibling: nat, ghost v: Short, ghost t: Tree, ghost n: nat) returns (tmp1: nat)
      requires v.s == R && v.p == parent && v.sib.T? && v.sib.id == sibling && v.sib.red
      requires 0 < parent < |mem| && EraseInv(t, n, v.Path())
      requires Focus(mem, parent, mem[parent].parent, v.Was(t), v.up)
      modifies `mem, `root
      ensures v.Near().T? && tmp1 == v.Near().id && !v.Near().red && parent < |mem| && mem[parent].parent == sibling
      ensures Focus(mem, parent, sibling, v.Flipped().Was(t), v.Flipped().up)
      ensures EraseInv(t, n, v.Flipped().Path())
      ensures root == if v.up.Top? then sibling else old(root)
      ensures OnlyAt(old(mem), mem, Ids(v.Was(t)) + CIds(v.up))
    {
      hide Holds, Apart, CApart, Ids, CIds, Links, Focus, Mk, Paint, EraseInv;
      ghost var h, q := mem, mem[parent].parent;
      FocusHead(h, parent, q, v.Was(t), v.up);
      ShortColours(v, t, n);
      ShortCells(v, t, h, q);
      ShortIds(v, t);
      tmp1 := mem[sibling].right;
      mem := SetLeft(mem, parent, tmp1);
      mem := SetParentColor(mem, tmp1, parent, false);
      mem := SetRight(mem, sibling, parent);
      RotateSetParents(parent, sibling, true, v.up);
      FlipHeap(v, t, h, mem, q);
      FlipColours(v, t, n);
    }

    /** Lines 241-247 */
    method EraseNephewRight(parent: nat, sibling: nat, tmp2: nat) returns (tmp1: nat)
      requires 0 < parent < |mem| && 0 < sibling < |mem| && 0 < tmp2 < |mem|
      requires parent != sibling && tmp2 !in {parent, sibling}
      requires mem[tmp2].left < |mem| && mem[tmp2].left !in {parent, sibling, tmp2}
      modifies `mem, `root
      ensures tmp1 == sibling && root == old(root)
      ensures NephewCells(old(mem), mem, R, parent, sibling, tmp2, old(mem)[tmp2].left)
    {
      tmp1 := mem[tmp2].left;
      mem := SetRight(mem, sibling, tmp1);
      if tmp1 != 0 { mem := SetParentColor(mem, tmp1, sibling, false); }
      mem := SetLeft(mem, tmp2, sibling);
      mem := SetLeft(mem, parent, tmp2);
      tmp1 := sibling;
    }

    /** Lines 250-255 */
    method EraseRaiseRight(parent: nat, sibling: nat, tmp1: nat, ghost c: Ctx)
      requires 0 < parent < |mem| && 0 < sibling < |mem| && 0 < tmp1 < |mem|
      requires parent != sibling && tmp1 !in {parent, sibling, mem[parent].parent}
      requires var near := mem[sibling].right;
               near < |mem| && (near != 0 ==> near !in {parent, sibling, tmp1, mem[parent].parent})
      requires c.Top? <==> mem[parent].parent == 0
      requires c.Step? ==> c.id == mem[parent].parent < |mem| && c.id !in {parent, sibling}
      requires c.Step? ==> (mem[c.id].left == parent <==> c.s == L)
      modifies `mem, `root
      ensures RaiseCells(old(mem), mem, R, parent, sibling, old(mem)[sibling].right, tmp1, c)
      ensures root == if c.Top? then sibling else old(root)
    {
      var tmp2 := mem[sibling].right;
      mem := SetLeft(mem, parent, tmp2);
      if tmp2 != 0 { mem := SetParent(mem, tmp2, parent); }
      mem := SetRight(mem, sibling, parent);
      mem := SetParentColor(mem, tmp1, sibling, false);
      RotateSetParents(parent, sibling, false, c);
    }

    /** Lines 240-256 with a red nephew: `tmp1` is the far one. */
    method EraseRotateRight(parent: nat, sib: nat, far: nat, ghost v: Short, ghost t: Tree, ghost n: nat)
      requires v.s == R && v.p == parent && v.sib.T? && v.sib.id == sib && !v.sib.red && far == RootId(v.Far())
      requires IsRed(v.Far()) || IsRed(v.Near())
      requires 0 < parent < |mem| && EraseInv(t, n, v.Path())
      requires Focus(mem, parent, mem[parent].parent, v.Was(t), v.up)
      modifies `mem, `root
      ensures Focus(mem, v.Rotated(t).id, old(mem)[parent].parent, v.Rotated(t), v.up)
      ensures root == if v.up.Top? then v.Rotated(t).id else old(root)
      ensures OnlyAt(old(mem), mem, Ids(v.Was(t)) + CIds(v.up))
    {
      hide Holds, Apart, CApart, Ids, CIds, Links, Focus, Mk, Paint, EraseInv;
      ghost var h, q := mem, mem[parent].parent;
      FocusHead(h, parent, q, v.Was(t), v.up);
      ShortColours(v, t, n);
      ShortCells(v, t, h, q);
      ShortShape(v, t);
      ShortIds(v, t);
      ShortIdsOutside(v, t, h, q);
      var sibling, tmp1 := sib, far;
      if tmp1 == 0 || !mem[tmp1].red {
        var tmp2 := mem[sibling].right;
        tmp1 := EraseNephewRight(parent, sibling, tmp2);
        sibling := tmp2;
      }
      ghost var m := mem;
      EraseRaiseRight(parent, sibling, tmp1, v.up);
      if IsRed(v.Far()) {
        RaiseOne(v, t, h, mem, q);
      } else {
        RaiseTwo(v, t, h, m, mem, q);
      }
    }

    /** Lines 189-192 and 230-233: the sibling turns red, and so absorbs the missing black node if
        the parent was red. */
    method EraseRepaint(parent: nat, sibling: nat, ghost v: Short, ghost t: Tree, ghost n: nat) returns (done: bool)
      requires v.p == parent && v.sib.T? && v.sib.id == sibling && !v.sib.red && !IsRed(v.Near()) && !IsRed(v.Far())
      requires 0 < parent < |mem| && EraseInv(t, n, v.Path())
      requires Focus(mem, parent, mem[parent].parent, v.Was(t), v.up)
      modifies `mem, `root
      ensures done == v.pr && root == old(root) && parent < |mem| && mem[parent].parent == old(mem)[parent].parent
      ensures Focus(mem, parent, mem[parent].parent, v.Repainted(t), v.up)
      ensures OnlyAt(old(mem), mem, Ids(v.Was(t)) + CIds(v.up))
    {
      hide Holds, Apart, CApart, Ids, CIds, Links, Focus, Mk, Paint, EraseInv;
      ghost var h, q := mem, mem[parent].parent;
      ShortCells(v, t, h, q);
      ShortIds(v, t);
      mem := SetParentColor(mem, sibling, parent, true);
      done := false;
      if mem[parent].red {
        mem := mem[parent := mem[parent].(red := false)];
        done := true;
      }
      RepaintedHeap(v, t, h, mem, q);
    }

    /** Lines 175-215, one turn of the loop for a short left subtree; `again` is its `continue`. */
    method EraseStepLeft(parent: nat, ghost v0: Short, ghost t: Tree, ghost n: nat) returns (again: bool, ghost u: Tree)
      requires v0.s == L && v0.p == parent && 0 < parent < |mem| && EraseInv(t, n, v0.Path())
      requires Focus(mem, parent, mem[parent].parent, v0.Was(t), v0.up) && root == RootOf(v0.up, parent)
      modifies `mem, `root
      ensures again ==>
                && 0 < parent < |mem| && 0 < mem[parent].parent < |mem|
                && Focus(mem, parent, mem[parent].parent, u, v0.up) && EraseInv(u, n + 1, v0.up)
                && root == RootOf(v0.up, parent) && InOrder(Plug(v0.up, u)) == InOrder(Plug(v0.Path(), t))
      ensures !again ==>
                Holds(mem, root, 0, u) && Apart(u) && RedBlack(u) && InOrder(u) == InOrder(Plug(v0.Path(), t))
      ensures OnlyAt(old(mem), mem, Ids(Plug(v0.Path(), t)))
    {
      hide Holds, Apart, CApart, Ids, CIds, Links, Focus, Mk, Paint, InOrder, Plug, RedBlack, EraseInv, RootOf;
      ghost var v := v0;
      ShortColours(v, t, n);
      ShortCells(v, t, mem, mem[parent].parent);
      EraseOrders(v, t, v.sib.id);
      var sibling := mem[parent].right;
      if mem[sibling].red {
        sibling := EraseFlipLeft(parent, sibling, v, t, n);
        FlipInOrder(v, t);
        FlippedIds(v, t);
        v := v.Flipped();
        ShortColours(v, t, n);
        ShortCells(v, t, mem, mem[parent].parent);
        EraseOrders(v, t, v.sib.id);
      }
      var tmp1 := mem[sibling].right;
      if tmp1 == 0 || !mem[tmp1].red {
        var tmp2 := mem[sibling].left;
        if tmp2 == 0 || !mem[tmp2].red {
          again := EraseRepaint(parent, sibling, v, t, n);
          again := !again;
          RepaintedColours(v, t, n);
          u := v.Repainted(t);
          FocusAt(mem, parent, u, v.up);
          if again && mem[parent].parent != 0 {
            return true, u;
          }
          u := EraseDone(mem, parent, mem[parent].parent, u, v.up);
          return false, u;
        }
      }
      ghost var q := mem[parent].parent;
      EraseRotateLeft(parent, sibling, tmp1, v, t, n);
      ShortShape(v, t);
      RaiseColours(v, t, n);
      EraseOrders(v, t, v.Rotated(t).id);
      u := EraseDone(mem, v.Rotated(t).id, q, v.Rotated(t), v.up);
      return false, u;
    }

    /** Lines 217-256, one turn of the loop for a short right subtree; `again` is its `continue`. */
    method EraseStepRight(parent: nat, ghost v0: Short, ghost t: Tree, ghost n: nat)
        returns (again: bool, ghost u: Tree)
      requires v0.s == R && v0.p == parent && 0 < parent < |mem| && EraseInv(t, n, v0.Path())
      requires Focus(mem, parent, mem[parent].parent, v0.Was(t), v0.up) && root == RootOf(v0.up, parent)
      modifies `mem, `root
      ensures again ==>
                && 0 < parent < |mem| && 0 < mem[parent].parent < |mem|
                && Focus(mem, parent, mem[parent].parent, u, v0.up) && EraseInv(u, n + 1, v0.up)
                && root == RootOf(v0.up, parent) && InOrder(Plug(v0.up, u)) == InOrder(Plug(v0.Path(), t))
      ensures !again ==>
                Holds(mem, root, 0, u) && Apart(u) && RedBlack(u) && InOrder(u) == InOrder(Plug(v0.Path(), t))
      ensures OnlyAt(old(mem), mem, Ids(Plug(v0.Path(), t)))
    {
      hide Holds, Apart, CApart, Ids, CIds, Links, Focus, Mk, Paint, InOrder, Plug, RedBlack, EraseInv, RootOf;
      ghost var v := v0;
      ShortColours(v, t, n);
      ShortCells(v, t, mem, mem[parent].parent);
      EraseOrders(v, t, v.sib.id);
      var sibling := mem[parent].left;
      if mem[sibling].red {
        sibling := EraseFlipRight(parent, sibling, v, t, n);
        FlipInOrder(v, t);
        FlippedIds(v, t);
        v := v.Flipped();
        ShortColours(v, t, n);
        ShortCells(v, t, mem, mem[parent].parent);
        EraseOrders(v, t, v.sib.id);
      }
      var tmp1 := mem[sibling].left;
      if tmp1 == 0 || !mem[tmp1].red {
        var tmp2 := mem[sibling].right;
        if tmp2 == 0 || !mem[tmp2].red {
          again := EraseRepaint(parent, sibling, v, t, n);
          again := !again;
          RepaintedColours(v, t, n);
          u := v.Repainted(t);
          FocusAt(mem, parent, u, v.up);
          if again && mem[parent].parent != 0 {
            return true, u;
          }
          u := EraseDone(mem, parent, mem[parent].parent, u, v.up);
          return false, u;
        }
      }
      ghost var q := mem[parent].parent;
      EraseRotateRight(parent, sibling, tmp1, v, t, n);
      ShortShape(v, t);
      RaiseColours(v, t, n);
      EraseOrders(v, t, v.Rotated(t).id);
      u := EraseDone(mem, v.Rotated(t).id, q, v.Rotated(t), v.up);
      return false, u;
    }

    /** `__rb_erase_fix` */
    method EraseFix(start: nat, ghost c0: Ctx) returns (ghost t': Tree)
      requires 0 < start < |mem| && Focus(mem, 0, start, Leaf, c0) && EraseInv(Leaf, 0, c0)
      requires root == RootOf(c0, 0)
      modifies `mem, `root
      ensures Holds(mem, root, 0, t') && Apart(t') && RedBlack(t')
      ensures InOrder(t') == InOrder(Plug(c0, Leaf)) && OnlyAt(old(mem), mem, Ids(t'))
    {
      hide Holds, Apart, CApart, Ids, CIds, Links, Focus, Mk, Paint, InOrder, Plug, RedBlack, EraseInv, RootOf;
      var node, parent := 0, start;
      ghost var t, n, c := Leaf, 0, c0;
      while true
        invariant 0 < parent < |mem| && Focus(mem, node, parent, t, c)
        invariant EraseInv(t, n, c) && root == RootOf(c, node)
        invariant InOrder(Plug(c, t)) == InOrder(Plug(c0, Leaf))
        invariant OnlyAt(old(mem), mem, Ids(Plug(c, t)))
        decreases c
      {
        ghost var v := ShortOf(mem, node, parent, t, n, c);
        ShortRoot(v, node);
        var again;
        ghost var u;
        if node != mem[parent].right {
          again, u := EraseStepLeft(parent, v, t, n);
        } else {
          again, u := EraseStepRight(parent, v, t, n);
        }
        if !again {
          SameOrderSameIds(u, Plug(c, t));
          return u;
        }
        SameOrderSameIds(Plug(v.up, u), Plug(c, t));
        node := parent;
        parent := mem[node].parent;
        t, n, c := u, n + 1, v.up;
      }
    }

    /** A rebalancing place left by `__rb_erase`, or 0 and a finished tree `u`. */
    ghost predicate Unlinked(rebalance: nat, d: Ctx, u: Tree, want: seq<nat>)
      reads this
    {
      if rebalance == 0 then
        Holds(mem, root, 0, u) && Apart(u) && RedBlack(u) && InOrder(u) == want
      else
        && rebalance < |mem| && Focus(mem, 0, rebalance, Leaf, d) && EraseInv(Leaf, 0, d)
        && root == RootOf(d, 0) && InOrder(Plug(d, Leaf)) == want
    }

    /** Lines 124-137: `node` lacks its child on side `Opp(s)`; the other one moves up. */
    method UnlinkHalf(node: nat, noLeft: bool, ghost t: Tree, ghost n: nat, ghost c: Ctx)
      returns (rebalance: nat, ghost u: Tree)
      requires 0 < node < |mem| && Focus(mem, node, mem[node].parent, t, c) && Fits(t, n, c)
      requires if noLeft then mem[node].left == 0 else mem[node].left != 0 && mem[node].right == 0
      requires root == RootOf(c, node)
      modifies `mem, `root
      ensures Unlinked(rebalance, c, u, Without(InOrder(Plug(c, t)), node))
      ensures OnlyAt(old(mem), mem, Ids(t) + CIds(c))
    {
      hide Holds, Apart, CApart, Ids, CIds, Links, Focus, Mk, Paint, InOrder, Plug, RedBlack, EraseInv, Fits, RootOf;
      ghost var h, q, s := mem, mem[node].parent, if noLeft then R else L;
      FocusHead(h, node, q, t, c);
      FocusSub(h, node, q, t, c, L);
      FocusSub(h, node, q, t, c, R);
      HalfPlaces(h, node, q, t, s, c);
      var child, tmp := mem[node].right, mem[node].left;
      var parent, red := mem[node].parent, mem[node].red;
      if tmp == 0 {
        ChangeChild(node, child, parent);
        if child != 0 {
          mem := mem[child := mem[child].(parent := parent, red := red)];
          rebalance := 0;
        } else {
          rebalance := if !red then parent else 0;
        }
      } else {
        mem := mem[tmp := mem[tmp].(parent := parent, red := red)];
        ChangeChild(node, tmp, parent);
        rebalance := 0;
      }
      PullHeap(h, mem, node, q, t, s, c);
      PullColours(t, n, s, c);
      u := PullDone(mem, t, n, s, c, q);
    }

    /** Lines 140-149: the leftmost node of the right subtree. */
    method Successor(node: nat, ghost t: Tree, ghost n: nat, ghost c: Ctx)
      returns (successor: nat, parent: nat, ghost s: Tree, ghost m: nat, ghost a: Ctx)
      requires 0 < node < |mem| && t.T? && t.id == node && mem[node].right != 0
      requires Focus(mem, node, mem[node].parent, t, c) && Fits(t, n, c)
      ensures 0 < successor < |mem| && mem[successor].left == 0 && mem[node].right < |mem|
      ensures a.Top? <==> mem[mem[node].right].left == 0
      ensures parent == if a.Top? then successor else mem[successor].parent
      ensures a.Top? ==> successor == mem[node].right
      ensures Focus(mem, successor, mem[successor].parent, s, Append(a, Base(node, t.red, t.l, c)))
      ensures Fits(s, m, Append(a, Base(node, t.red, t.l, c)))
      ensures s.T? && s.id == successor && s.l.Leaf? && LeftOnly(a) && Plug(a, s) == t.r
    {
      hide Holds, Apart, CApart, Ids, CIds, Links, Focus, Fits;
      FocusSub(mem, node, mem[node].parent, t, c, R);
      m := FitsDown(t, n, c, R);
      s, a := t.r, Top;
      successor := mem[node].right;
      parent := successor;
      var tmp := mem[successor].left;
      while tmp != 0
        invariant 0 < successor < |mem| && tmp == mem[successor].left && mem[node].right < |mem|
        invariant parent == if a.Top? then successor else mem[successor].parent
        invariant if a.Top? then successor == mem[node].right else mem[mem[node].right].left != 0
        invariant Focus(mem, successor, mem[successor].parent, s, Append(a, Base(node, t.red, t.l, c)))
        invariant Fits(s, m, Append(a, Base(node, t.red, t.l, c)))
        invariant s.T? && s.id == successor && LeftOnly(a) && Plug(a, s) == t.r
        decreases s
      {
        ghost var d := Append(a, Base(node, t.red, t.l, c));
        FocusSub(mem, successor, mem[successor].parent, s, d, L);
        m := FitsDown(s, m, d, L);
        parent := successor;
        successor := tmp;
        tmp := mem[tmp].left;
        SpineDown(s, a, Base(node, t.red, t.l, c));
        s, a := s.l, Step(L, s.id, s.red, s.r, a);
      }
      FocusSub(mem, successor, mem[successor].parent, s, Append(a, Base(node, t.red, t.l, c)), L);
    }

    /** Lines 154-167: the successor takes over the node's left subtree, parent and colour. */
    method Seat(node: nat, successor: nat, parent: nat, child2: nat, ghost c: Ctx) returns (rebalance: nat)
      requires 0 < node < |mem| && 0 < successor < |mem| && node != successor && child2 < |mem|
      requires var l0, q := mem[node].left, mem[node].parent;
               && 0 < l0 < |mem| && l0 !in {node, successor, child2, q} && successor != q && node != q
               && (child2 != 0 ==> child2 !in {node, successor, q})
               && (c.Top? <==> q == 0) && (c.Step? ==> c.id == q < |mem| && (mem[q].left == node <==> c.s == L))
      modifies `mem, `root
      ensures SeatCells(old(mem), mem, node, successor, parent, child2, c)
      ensures root == (if c.Top? then successor else old(root))
      ensures rebalance == (if child2 == 0 && !old(mem)[successor].red then parent else 0)
    {
      var tmp := mem[node].left;
      mem := SetLeft(mem, successor, tmp);
      mem := SetParent(mem, tmp, successor);
      var pc, red := mem[node].parent, mem[node].red;
      ChangeChild(node, successor, pc);
      if child2 != 0 {
        mem := SetParentColor(mem, successor, pc, red);
        mem := SetParentColor(mem, child2, parent, false);
        rebalance := 0;
      } else {
        var red2 := mem[successor].red;
        mem := SetParentColor(mem, successor, pc, red);
        rebalance := if !red2 then parent else 0;
      }
    }

    /** Lines 141-143 and 150-167: the pointer work around the successor. */
    method Splice(node: nat, successor: nat, up: nat, ghost c: Ctx) returns (rebalance: nat)
      requires 0 < node < |mem| && 0 < successor < |mem| && node != successor && 0 < up < |mem|
      requires var l0, r0, c2, q := mem[node].left, mem[node].right, mem[successor].right, mem[node].parent;
               && 0 < l0 < |mem| && 0 < r0 < |mem| && c2 < |mem| && l0 !in {node, successor, c2, q} && node != q
               && (c2 != 0 ==> c2 !in {node, successor, q}) && r0 !in {node, q} && successor != q
               && (if mem[r0].left == 0 then successor == r0 && r0 == up
                   else up !in {node, successor, l0, c2, q} && r0 !in {successor, l0, c2})
               && mem[successor].left == 0
               && (c.Top? <==> q == 0) && (c.Step? ==> c.id == q < |mem| && (mem[q].left == node <==> c.s == L))
      modifies `mem, `root
      ensures var h, r0 := old(mem), old(mem)[node].right;
              && (if h[r0].left == 0 then PromoteCells(h, mem, node, successor, c)
                  else SpliceCells(h, mem, node, successor, up, r0, c))
              && root == (if c.Top? then successor else old(root))
              && rebalance == (if h[successor].right == 0 && !h[successor].red then up else 0)
    {
      var child := mem[node].right;
      var parent, child2;
      var tmp := mem[child].left;
      if tmp == 0 {
        parent := successor;
        child2 := mem[successor].right;
      } else {
        parent := up;
        child2 := mem[successor].right;
        mem := SetLeft(mem, parent, child2);
        mem := SetRight(mem, successor, child);
        mem := SetParent(mem, child, successor);
      }
      rebalance := Seat(node, successor, parent, child2, c);
    }

    /** Lines 139-167: `node` has both children; its successor takes its place. */
    method UnlinkBoth(node: nat, ghost t: Tree, ghost n: nat, ghost c: Ctx)
      returns (rebalance: nat, ghost d: Ctx, ghost u: Tree)
      requires 0 < node < |mem| && t.T? && t.id == node && mem[node].left != 0 && mem[node].right != 0
      requires Focus(mem, node, mem[node].parent, t, c) && Fits(t, n, c) && root == RootOf(c, node)
      modifies `mem, `root
      ensures Unlinked(rebalance, d, u, Without(InOrder(Plug(c, t)), node))
      ensures OnlyAt(old(mem), mem, Ids(t) + CIds(c))
    {
      hide Holds, Apart, CApart, Ids, CIds, Links, Focus, Paint, InOrder, Plug, RedBlack, EraseInv, Fits, RootOf,
        LeftOnly, Outmost;
      ghost var h, q := mem, mem[node].parent;
      var successor, parent;
      ghost var s, m, a;
      successor, parent, s, m, a := Successor(node, t, n, c);
      SpineOf(h, node, q, t, c, successor, s, a);
      FocusHead(h, node, q, t, c);
      SpinePlaces(h, node, q, t, c, successor, s, a);
      rebalance := Splice(node, successor, parent, c);
      if a.Top? {
        PromoteHeap(h, mem, node, q, t, c, successor, s);
      } else {
        SpliceHeap(h, mem, node, q, t, c, successor, s, a);
      }
      d := Append(a, Base(successor, t.red, t.l, c));
      u := SpliceDone(h, mem, parent, q, t, c, successor, s, m, a);
    }

    /** `_rb_erase` */
    method Erase(node: nat)
      requires Valid() && node in Ids(tree)
      modifies this
      ensures Valid() && InOrder(tree) == Without(old(InOrder(tree)), node)
      ensures OnlyAt(old(mem), mem, old(Ids(tree)))
    {
      hide Holds, Apart, CApart, Ids, CIds, Links, Focus, Paint, InOrder, Plug, RedBlack, EraseInv, Fits, RootOf,
        Without;
      ghost var t, n, c := OpenAt(mem, root, tree, node);
      var rebalance;
      ghost var d, u;
      FocusSub(mem, node, mem[node].parent, t, c, L);
      FocusSub(mem, node, mem[node].parent, t, c, R);
      if mem[node].left == 0 {
        rebalance, u := UnlinkHalf(node, true, t, n, c);
        d := c;
      } else if mem[node].right == 0 {
        rebalance, u := UnlinkHalf(node, false, t, n, c);
        d := c;
      } else {
        rebalance, d, u := UnlinkBoth(node, t, n, c);
      }
      if rebalance != 0 {
        u := EraseFix(rebalance, d);
      }
      IdsWithout(tree, u, node);
      tree := u;
    }

    /** `_rb_insert`: 0 with the node in its sorted place, or -1 because a tied node is present. */
    method Insert(node: nat, cmp: (nat, nat) -> bool) returns (r: int)
      requires Valid() && 0 < node < |mem| && node !in Ids(tree)
      requires StrictWeak(cmp) && Ordered(cmp, InOrder(tree))
      modifies this
      ensures Valid() && r in {0, -1}
      ensures r == -1 <==> exists y :: y in old(InOrder(tree)) && Tied(cmp, node, y)
      ensures r == 0 ==> InOrder(tree) == Placed(cmp, old(InOrder(tree)), node)
      ensures r == -1 ==> tree == old(tree) && root == old(root)
      ensures OnlyAt(old(mem), mem, if r == 0 then Ids(tree) else {node})
    {
      hide Holds, Apart, CApart, Ids, CIds, Links, Focus, InOrder, RedBlack, Fits, RootOf, Placed, Before, After,
        Ordered, StrictWeak, Below, Above, Plug;
      var nw: nat, parent: nat := root, 0;
      ghost var h := mem;
      mem := mem[node := mem[node].(left := 0, right := 0)];
      mem := mem[node := mem[node].(parent := 0, red := true)];
      StartAt(h, mem, root, tree, node);
      ghost var t, n, c := tree, BlackHeight(tree), Top;
      NewRoot(cmp, node, tree);
      NewAlone(mem, node);
      while nw != 0
        invariant tree == old(tree) && root == old(root) && |mem| == |h| && nw < |mem| && (nw == 0 <==> t.Leaf?)
        invariant Plug(c, t) == tree && Fits(t, n, c) && RootOf(c, nw) == root
        invariant nw != 0 ==> mem[node] == Node(0, 0, 0, true) && OnlyAt(h, mem, {node}) && Focus(mem, nw, parent, t, c)
        invariant nw == 0 ==> Focus(mem, node, mem[node].parent, T(Leaf, node, true, Leaf), c)
        invariant OnlyAt(h, mem, Ids(tree) + {node}) && node !in Ids(t) && node !in CIds(c)
        invariant Below(cmp, Before(c), node) && Above(cmp, After(c), node)
        decreases t
      {
        ghost var k, parent0 := mem, parent;
        FocusSub(mem, nw, parent, t, c, L);
        FocusSub(mem, nw, parent, t, c, R);
        parent := nw;
        if cmp(node, nw) {
          ghost var m := Descend(cmp, mem, nw, parent0, t, n, c, L, node);
          nw := mem[nw].left;
          if nw == 0 {
            mem := SetLeft(mem, parent, node);
            mem := SetParentColor(mem, node, parent, true);
            GrowHeap(k, mem, parent, parent0, t, c, L, node);
          }
          t, n, c := Sub(t, L), m, Down(t, L, c);
        } else if cmp(nw, node) {
          ghost var m := Descend(cmp, mem, nw, parent0, t, n, c, R, node);
          nw := mem[nw].right;
          if nw == 0 {
            mem := SetRight(mem, parent, node);
            mem := SetParentColor(mem, node, parent, true);
            GrowHeap(k, mem, parent, parent0, t, c, R, node);
          }
          t, n, c := Sub(t, R), m, Down(t, R, c);
        } else {
          PlugMember(c, t);
          Unharmed(h, mem, root, tree, node);
          assert Tied(cmp, node, nw);
          return -1;
        }
      }
      NoneTied(cmp, c, node);
      assert t == Leaf;
      NewLeaf(c, n, node);
      NewOrder(cmp, c, node);
      RootAny(c, node);
      ghost var u := InsertFix(node, T(Leaf, node, true, Leaf), 0, c);
      IdsPlaced(cmp, tree, u, node);
      tree := u;
      return 0;
    }

    /** `_rb_lookup`, counting the nodes it visits. */
    method Lookup(node: nat, cmp: (nat, nat) -> bool) returns (x: nat, ghost visits: nat)
      requires Valid() && StrictWeak(cmp) && Ordered(cmp, InOrder(tree))
      ensures x != 0 ==> x in InOrder(tree) && Tied(cmp, node, x)
      ensures x == 0 ==> forall y :: y in InOrder(tree) ==> !Tied(cmp, node, y)
      ensures Pow2(visits) <= (|InOrder(tree)| + 1) * (|InOrder(tree)| + 1)
    {
      hide Holds, Apart, CApart, Ids, CIds, Links, Focus, InOrder, RedBlack, Fits, RootOf, Before, After, Ordered,
        StrictWeak, Below, Above, Plug, Height, Pow2;
      var nw: nat := root;
      visits := 0;
      ghost var t, c, q: nat := tree, Top, 0;
      StartHere(mem, root, tree);
      NewRoot(cmp, node, tree);
      while nw != 0
        invariant nw == 0 <==> t.Leaf?
        invariant (nw == 0 || nw < |mem|) && Focus(mem, nw, q, t, c) && Plug(c, t) == tree
        invariant Below(cmp, Before(c), node) && Above(cmp, After(c), node)
        invariant visits + Height(t) <= Height(tree)
        decreases t
      {
        FocusSub(mem, nw, q, t, c, L);
        FocusSub(mem, nw, q, t, c, R);
        visits := visits + 1;
        if cmp(node, nw) {
          DescendLeft(cmp, t, c, node);
          DownPlug(t, c, L);
          q, nw := nw, mem[nw].left;
          t, c := t.l, Down(t, L, c);
        } else if cmp(nw, node) {
          DescendRight(cmp, t, c, node);
          DownPlug(t, c, R);
          q, nw := nw, mem[nw].right;
          t, c := t.r, Down(t, R, c);
        } else {
          PlugMember(c, t);
          DownPlug(t, c, L);
          VisitsBound(tree, visits);
          return nw, visits;
        }
      }
      NoneTied(cmp, c, node);
      VisitsBound(tree, visits);
      return 0, visits;
    }

    /** `_rb_first` */
    method First() returns (x: nat)
      requires Valid()
      ensures if InOrder(tree) == [] then x == 0 else x == InOrder(tree)[0]
    {
      hide Holds, Apart, CApart, Ids, CIds, Links, Focus, RedBlack, RootOf;
      StartHere(mem, root, tree);
      var n: nat := root;
      if n == 0 {
        return 0;
      }
      ghost var t, c, q: nat := tree, Top, 0;
      FocusSub(mem, n, q, t, c, L);
      while mem[n].left != 0
        invariant 0 < n < |mem| && Focus(mem, n, q, t, c) && Plug(c, t) == tree && t.T? && t.id == n && Before(c) == []
        invariant mem[n].left == 0 <==> t.l.Leaf?
        decreases t
      {
        FocusSub(mem, n, q, t, c, L);
        DownPlug(t, c, L);
        q, n := n, mem[n].left;
        t, c := t.l, Down(t, L, c);
        FocusSub(mem, n, q, t, c, L);
      }
      PlugInOrder(c, t);
      return n;
    }
  }
}
