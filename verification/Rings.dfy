/** The doubly linked rings of `common/list.c`: merging, detaching, inserting and walking. */
module Rings {
  import opened Sequences

  function Succ(i: nat, n: nat): nat { if i + 1 == n then 0 else i + 1 }

  /** The nodes of `r`, in this order, form a ring: each points to the next one and back. */
  ghost predicate Ring(next: seq<nat>, prev: seq<nat>, r: seq<nat>) {
    && r != [] && Distinct(r) && |next| == |prev|
    && (forall i :: 0 <= i < |r| ==> 0 < r[i] < |next|)
    && (forall i :: 0 <= i < |r| ==> next[r[i]] == r[Succ(i, |r|)] && prev[r[Succ(i, |r|)]] == r[i])
  }

  predicate Apart(a: seq<nat>, b: seq<nat>) { forall x :: x in a ==> x !in b }

  /** Where an element of the rotated sequence was. */
  function Turned(i: nat, m: nat, n: nat): nat { if i < n then m + i else i - n }

  /** A ring may be written from any of its nodes on. */
  lemma Rotate(next: seq<nat>, prev: seq<nat>, a: seq<nat>, b: seq<nat>)
    requires Ring(next, prev, a + b)
    ensures Ring(next, prev, b + a)
  {
    var r, s := a + b, b + a;
    DistinctParts(a, b);
    DistinctParts(b, a);
    forall i | 0 <= i < |s| ensures s[i] == r[Turned(i, |a|, |b|)] {}
    forall i | 0 <= i < |s| ensures 0 < s[i] < |next| && next[s[i]] == s[Succ(i, |s|)] && prev[s[Succ(i, |s|)]]
      == s[i] {
      var k := Turned(i, |a|, |b|);
      assert Turned(Succ(i, |s|), |a|, |b|) == Succ(k, |r|);
      assert s[Succ(i, |s|)] == r[Succ(k, |r|)];
    }
  }

  /** Rings that a change does not touch stay rings. */
  lemma Elsewhere(next: seq<nat>, prev: seq<nat>, next': seq<nat>, prev': seq<nat>, r: seq<nat>)
    requires Ring(next, prev, r) && |next'| == |prev'| == |next|
    requires forall x :: x in r && x < |next| ==> next'[x] == next[x] && prev'[x] == prev[x]
    ensures Ring(next', prev', r)
  {
    forall i | 0 <= i < |r| ensures next'[r[i]] == r[Succ(i, |r|)] && prev'[r[Succ(i, |r|)]] == r[i] {
      assert r[i] in r && r[Succ(i, |r|)] in r;
    }
  }

  /** The links of a ring are determined by its order. */
  lemma SameLinks(next: seq<nat>, prev: seq<nat>, next': seq<nat>, prev': seq<nat>, r: seq<nat>)
    requires Ring(next, prev, r) && Ring(next', prev', r)
    ensures forall x :: x in r ==> next'[x] == next[x] && prev'[x] == prev[x]
  {
    forall x | x in r ensures next'[x] == next[x] && prev'[x] == prev[x] {
      var i :| 0 <= i < |r| && r[i] == x;
      var j := if i == 0 then |r| - 1 else i - 1;
      assert Succ(j, |r|) == i && next[r[i]] == r[Succ(i, |r|)] && prev[r[Succ(j, |r|)]] == r[j];
    }
  }

  /** No links but those of the nodes in `r` differ. */
  ghost predicate OthersSame(next: seq<nat>, prev: seq<nat>, next': seq<nat>, prev': seq<nat>, r: seq<nat>) {
    && |next'| == |next| && |prev'| == |prev|
    && (forall z :: 0 <= z < |next| && z !in r ==> next'[z] == next[z])
    && (forall z :: 0 <= z < |prev| && z !in r ==> prev'[z] == prev[z])
  }

  lemma Merged(next: seq<nat>, prev: seq<nat>, a: seq<nat>, b: seq<nat>)
    requires Ring(next, prev, a) && Ring(next, prev, b) && Apart(a, b)
    ensures var x, y, u, v := a[|a| - 1], b[0], a[0], b[|b| - 1];
            Ring(next[x := y][v := u], prev[y := x][u := v], a + b)
  {
    var x, y, u, v := a[|a| - 1], b[0], a[0], b[|b| - 1];
    var n, p, r := next[x := y][v := u], prev[y := x][u := v], a + b;
    forall i, j | 0 <= i < |a| && 0 <= j < |b| ensures a[i] != b[j] { assert a[i] in a && b[j] in b; }
    forall i | 0 <= i < |r| ensures n[r[i]] == r[Succ(i, |r|)] && p[r[Succ(i, |r|)]] == r[i] {
      assert x == r[|a| - 1] && y == r[|a|] && u == r[0] && v == r[|r| - 1];
      if i < |a| - 1 {
        assert next[a[i]] == a[Succ(i, |a|)] && prev[a[Succ(i, |a|)]] == a[i];
        assert r[i] == a[i] && r[i + 1] == a[i + 1];
      } else if |a| <= i < |r| - 1 {
        assert next[b[i - |a|]] == b[Succ(i - |a|, |b|)] && prev[b[Succ(i - |a|, |b|)]] == b[i - |a|];
        assert r[i] == b[i - |a|] && r[i + 1] == b[i - |a| + 1];
      }
    }
  }

  /** The link from one place of a ring to the next. */
  lemma LinkAt(next: seq<nat>, prev: seq<nat>, r: seq<nat>, i: nat)
    requires Ring(next, prev, r) && i < |r|
    ensures 0 < r[i] < |next| == |prev| && next[r[i]] == r[Succ(i, |r|)]
    ensures r[Succ(i, |r|)] < |next| && prev[r[Succ(i, |r|)]] == r[i]
  {
  }

  lemma FirstOf(next: seq<nat>, prev: seq<nat>, x: nat, rest: seq<nat>)
    requires Ring(next, prev, [x] + rest)
    ensures x !in rest && Distinct(rest)
  {
    assert ([x] + rest)[0] == x;
    DistinctParts([x], rest);
    assert x in [x];
  }

  /** The links from the first of `s` to the last. */
  ghost predicate Chained(next: seq<nat>, prev: seq<nat>, s: seq<nat>) {
    && |next| == |prev| && (forall i :: 0 <= i < |s| ==> 0 < s[i] < |next|)
    && forall i, j :: 0 <= i && j == i + 1 && j < |s| ==> next[s[i]] == s[j] && prev[s[j]] == s[i]
  }

  lemma RestChained(next: seq<nat>, prev: seq<nat>, x: nat, rest: seq<nat>)
    requires Ring(next, prev, [x] + rest)
    ensures Chained(next, prev, rest)
  {
    hide Ring;
    var r := [x] + rest;
    LinkAt(next, prev, r, 0);
    forall i | 0 <= i < |rest| ensures 0 < rest[i] < |next| {
      LinkAt(next, prev, r, i + 1);
      assert rest[i] == r[i + 1];
    }
    forall i, j | 0 <= i && j == i + 1 && j < |rest| ensures next[rest[i]] == rest[j] && prev[rest[j]] == rest[i] {
      LinkAt(next, prev, r, j);
      assert rest[i] == r[j] && rest[j] == r[j + 1];
    }
  }

  /** The neighbours of the first node, and the links among the others. */
  lemma Neighbours(next: seq<nat>, prev: seq<nat>, x: nat, rest: seq<nat>)
    requires Ring(next, prev, [x] + rest)
    ensures 0 < x < |next| == |prev| && 0 < next[x] < |next| && 0 < prev[x] < |next| && x !in rest && Distinct(rest)
    ensures if rest == [] then prev[x] == x && next[x] == x else prev[x] == rest[|rest| - 1] && next[x] == rest[0]
    ensures Chained(next, prev, rest)
  {
    hide Ring, Distinct, Chained;
    var r := [x] + rest;
    FirstOf(next, prev, x, rest);
    RestChained(next, prev, x, rest);
    LinkAt(next, prev, r, 0);
    LinkAt(next, prev, r, |r| - 1);
    if rest != [] {
      LinkAt(next, prev, r, 1);
      assert r[1] == rest[0] && r[|r| - 1] == rest[|rest| - 1];
    }
  }

  lemma Detached(next: seq<nat>, prev: seq<nat>, x: nat, rest: seq<nat>)
    requires Ring(next, prev, [x] + rest)
    ensures 0 < x < |next| == |prev| && 0 < next[x] < |next| && 0 < prev[x] < |next|
    ensures var n, p := next[prev[x] := next[x]][x := x], prev[next[x] := prev[x]][x := x];
            Ring(n, p, [x]) && (rest != [] ==> Ring(n, p, rest))
    ensures if rest == [] then prev[x] == x == next[x]
            else prev[x] == rest[|rest| - 1] && prev[x] != x && next[x] == rest[0]
  {
    Neighbours(next, prev, x, rest);
    hide Ring, Chained;
    if rest != [] {
      assert rest[|rest| - 1] in rest && rest[0] in rest;
      Closed(next, prev, x, rest);
    }
    Alone(next[prev[x] := next[x]][x := x], prev[next[x] := prev[x]][x := x], x);
  }

  lemma Alone(next: seq<nat>, prev: seq<nat>, x: nat)
    requires 0 < x < |next| == |prev| && next[x] == x && prev[x] == x
    ensures Ring(next, prev, [x])
  {
  }

  /** Closing the gap that `x` leaves. */
  lemma Closed(next: seq<nat>, prev: seq<nat>, x: nat, rest: seq<nat>)
    requires rest != [] && Distinct(rest) && x !in rest && |next| == |prev| && x < |next|
    requires Chained(next, prev, rest) && prev[x] == rest[|rest| - 1] && next[x] == rest[0]
    ensures Ring(next[prev[x] := next[x]][x := x], prev[next[x] := prev[x]][x := x], rest)
  {
    var n, p := next[prev[x] := next[x]][x := x], prev[next[x] := prev[x]][x := x];
    assert forall i :: 0 <= i < |rest| ==> rest[i] in rest;
    forall i | 0 <= i < |rest| ensures n[rest[i]] == rest[Succ(i, |rest|)] && p[rest[Succ(i, |rest|)]] == rest[i] {}
  }

  /** All list nodes of the program by number, 0 being the null pointer. */
  class Nodes {
    var next: seq<nat>
    var prev: seq<nat>

    constructor (n: nat)
      ensures |next| == |prev| == n
    {
      next, prev := seq(n, _ => 0), seq(n, _ => 0);
    }

    /** `init_list_node` */
    method Init(x: nat)
      requires 0 < x < |next| == |prev|
      modifies this
      ensures Ring(next, prev, [x]) && |next| == |old(next)|
      ensures next == old(next)[x := x] && prev == old(prev)[x := x]
    {
      prev := prev[x := x];
      next := next[x := x];
    }

    /** `_merge_list`: `x` ends the one ring and `y` starts the other; the result goes from `x` to `y`. */
    method Merge(x: nat, y: nat, ghost a: seq<nat>, ghost b: seq<nat>) returns (r: nat)
      requires x != 0 ==> Ring(next, prev, a) && a[|a| - 1] == x
      requires y != 0 ==> Ring(next, prev, b) && b[0] == y
      requires x != 0 && y != 0 ==> Apart(a, b)
      modifies this
      ensures x == 0 ==> r == y
      ensures y == 0 && x != 0 ==> r == x
      ensures x == 0 || y == 0 ==> next == old(next) && prev == old(prev)
      ensures x != 0 && y != 0 ==> r == x && Ring(next, prev, a + b)
      ensures OthersSame(old(next), old(prev), next, prev, a + b)
    {
      if x == 0 { return y; }
      if y == 0 { return x; }
      Merged(next, prev, a, b);
      assert next[a[|a| - 1]] == a[Succ(|a| - 1, |a|)] && prev[b[Succ(|b| - 1, |b|)]] == b[|b| - 1];
      var node3 := next[x];
      var node4 := prev[y];
      next := next[x := y];
      prev := prev[y := x];
      next := next[node4 := node3];
      prev := prev[node3 := node4];
      return x;
    }

    /** `_insert_into_list`: the new node comes right after `head`. */
    method Insert(head: nat, x: nat, ghost rest: seq<nat>)
      requires Ring(next, prev, [head] + rest) && 0 < x < |next| && x !in [head] + rest
      modifies this
      ensures Ring(next, prev, [head, x] + rest) && OthersSame(old(next), old(prev), next, prev, [head, x] + rest)
    {
      Rotate(next, prev, [head], rest);
      ghost var n, p := next, prev;
      Init(x);
      Elsewhere(n, p, next, prev, rest + [head]);
      var r := Merge(head, x, rest + [head], [x]);
      assert rest + [head] + [x] == rest + [head, x];
      Rotate(next, prev, rest, [head, x]);
    }

    /** `_detach_from_list`: `x` becomes a ring of its own; the result is its former predecessor, or 0
        if it was alone. */
    method Detach(x: nat, ghost rest: seq<nat>) returns (r: nat)
      requires Ring(next, prev, [x] + rest)
      modifies this
      ensures Ring(next, prev, [x]) && (rest != [] ==> Ring(next, prev, rest))
      ensures OthersSame(old(next), old(prev), next, prev, [x] + rest)
      ensures r == if rest == [] then 0 else rest[|rest| - 1]
    {
      ghost var ring := [x] + rest;
      Detached(next, prev, x, rest);
      assert rest != [] ==> next[x] in ring && prev[x] in ring;
      var before := prev[x];
      next := next[prev[x] := next[x]];
      prev := prev[next[x] := before];
      Init(x);
      if before == x { return 0; }
      return before;
    }

    /** `_for_in_list`: the nodes in the order in which the body sees them. */
    method Walk(flag: nat, ghost rest: seq<nat>) returns (seen: seq<nat>)
      requires Ring(next, prev, [flag] + rest)
      ensures seen == rest + [flag]
    {
      ghost var r := [flag] + rest;
      seen := [];
      var val := next[flag];
      assert next[r[0]] == r[Succ(0, |r|)];
      ghost var i := 0;
      while val != 0
        invariant 0 <= i <= |r| && (val == 0 <==> i == |r|)
        invariant i < |r| ==> val == r[Succ(i, |r|)]
        invariant seen == (rest + [flag])[..i]
        decreases |r| - i
      {
        assert val == (rest + [flag])[i];
        seen := seen + [val];
        assert i + 1 < |r| ==> next[r[i + 1]] == r[Succ(i + 1, |r|)];
        val := if val == flag then 0 else next[val];
        i := i + 1;
      }
    }
  }
}
