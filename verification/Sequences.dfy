/** Numbers, sequences without repetition, and counting. */
module Sequences {
  const U64: nat := 0x1_0000_0000_0000_0000

  function Pow2(k: nat): nat { if k == 0 then 1 else 2 * Pow2(k - 1) }

  predicate Distinct(s: seq<nat>) { forall i, j :: 0 <= i < j < |s| ==> s[i] != s[j] }

  /** The sequence without the first occurrence of `x`. */
  function Without(s: seq<nat>, x: nat): seq<nat> {
    if s == [] then [] else if s[0] == x then s[1..] else [s[0]] + Without(s[1..], x)
  }

  /** What is before and behind the first occurrence of `x` keeps its order. */
  lemma {:induction false} WithoutJoins(a: seq<nat>, x: nat, b: seq<nat>)
    requires x !in a
    ensures Without(a + [x] + b, x) == a + b && Without(a, x) == a
  {
    var s := a + [x] + b;
    if a == [] {
      assert s[1..] == b && a + b == b;
    } else {
      assert s[1..] == a[1..] + [x] + b && s[0] == a[0];
      WithoutJoins(a[1..], x, b);
    }
  }

  lemma {:induction false} DistinctWithout(s: seq<nat>, x: nat)
    requires Distinct(s)
    ensures Distinct(Without(s, x)) && forall y :: y in Without(s, x) <==> y in s && y != x
    ensures x in s ==> |Without(s, x)| == |s| - 1
  {
    if s != [] {
      assert s == [s[0]] + s[1..];
      assert s[0] !in s[1..];
      if s[0] != x { DistinctWithout(s[1..], x); }
    }
  }

  /** Passing the element before position `i` on the way to `x`. */
  lemma WithoutFrom(s: seq<nat>, x: nat, i: nat)
    requires i < |s|
    ensures s[i] != x ==> s[..i] + Without(s[i..], x) == s[..i + 1] + Without(s[i + 1..], x)
    ensures s[i] == x ==> s[..i] + Without(s[i..], x) == s[..i] + s[i + 1..]
  {
    assert s[i..][1..] == s[i + 1..];
  }

  lemma WithoutEnd(s: seq<nat>, x: nat)
    ensures s[..|s|] + Without(s[|s|..], x) == s
  {
  }

  lemma DistinctDrop(s: seq<nat>, i: nat)
    requires Distinct(s) && i < |s|
    ensures Distinct(s[..i] + s[i + 1..]) && s[i] !in s[..i] + s[i + 1..]
    ensures forall x :: x in s[..i] + s[i + 1..] <==> x in s && x != s[i]
  {
    var t := s[..i] + s[i + 1..];
    assert forall k :: 0 <= k < |t| ==> t[k] == s[if k < i then k else k + 1];
    forall x | x in s && x != s[i] ensures x in t {
      var k :| 0 <= k < |s| && s[k] == x;
      assert t[if k < i then k else k - 1] == x;
    }
  }

  lemma DistinctParts(a: seq<nat>, b: seq<nat>)
    ensures Distinct(a + b) <==> Distinct(a) && Distinct(b) && forall x :: x in a ==> x !in b
  {
    var s := a + b;
    if Distinct(s) {
      forall i, j | 0 <= i < j < |a| ensures a[i] != a[j] { assert s[i] == a[i] && s[j] == a[j]; }
      forall i, j | 0 <= i < j < |b| ensures b[i] != b[j] { assert s[|a| + i] == b[i] && s[|a| + j] == b[j]; }
      forall x | x in a ensures x !in b {
        var i :| 0 <= i < |a| && a[i] == x;
        forall j | 0 <= j < |b| ensures b[j] != x { assert s[i] == x && s[|a| + j] == b[j]; }
      }
    }
    if Distinct(a) && Distinct(b) && forall x :: x in a ==> x !in b {
      forall i, j | 0 <= i < j < |s| ensures s[i] != s[j] {
        if i < |a| <= j { assert a[i] in a && b[j - |a|] in b; }
      }
    }
  }

  lemma {:induction false} Subset(a: set<nat>, b: set<nat>)
    requires a <= b
    ensures |a| <= |b|
    decreases |a|
  {
    if a != {} {
      var x :| x in a;
      Subset(a - {x}, b - {x});
    }
  }

  ghost function Elements(a: seq<nat>): set<nat> { set p | p in a }

  lemma {:induction false} CountElements(a: seq<nat>)
    requires Distinct(a)
    ensures |Elements(a)| == |a|
  {
    if a == [] {
      assert Elements(a) == {};
    } else {
      var n := |a| - 1;
      CountElements(a[..n]);
      assert a == a[..n] + [a[n]];
      assert a[n] !in Elements(a[..n]);
      assert Elements(a) == Elements(a[..n]) + {a[n]};
    }
  }

  lemma SameLength(a: seq<nat>, b: seq<nat>)
    requires Distinct(a) && Distinct(b) && forall p :: p in a <==> p in b
    ensures |a| == |b|
  {
    CountElements(a);
    CountElements(b);
    assert Elements(a) == Elements(b);
  }

  /** The `n` numbers from `lo` on. */
  ghost function Span(lo: nat, n: nat): (s: set<nat>)
    ensures |s| == n && forall i: nat :: i in s <==> lo <= i < lo + n
  {
    if n == 0 then {} else Span(lo, n - 1) + {lo + n - 1}
  }

  /** `n` different numbers below `n` are all of them. */
  lemma Covers(s: seq<nat>, n: nat)
    requires Distinct(s) && |s| == n && forall x :: x in s ==> x < n
    ensures forall x :: 0 <= x < n ==> x in s
  {
    CountElements(s);
    forall x | 0 <= x < n ensures x in s {
      if x !in s { Subset(Elements(s), Span(0, n) - {x}); }
    }
  }
}
