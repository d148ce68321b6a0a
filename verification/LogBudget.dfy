/** What an operation has been charged for the blocks it logged. */
module LogBudget {
  import opened Sequences
  import opened Wal

  /** The budget, the header count and the pinned blocks before and after logging `foot`: every
      block the log did not list costs one. */
  ghost predicate Charged(rm: nat, num: nat, pins: set<nat>, foot: set<nat>, rm': nat, num': nat, pins': set<nat>) {
    pins' == pins + foot && rm' + |foot - pins| == rm && num' == num + |foot - pins|
  }

  /** Logging `foot` is more than the operation or the log can take. */
  ghost predicate Exceeds(rm: nat, num: nat, pins: set<nat>, foot: set<nat>) {
    |foot - pins| > rm || num + |foot - pins| > LOG_MAX_SIZE
  }

  lemma Split(pins: set<nat>, a: set<nat>, b: set<nat>)
    ensures |(a + b) - pins| == |a - pins| + |b - (pins + a)|
  {
    assert (a + b) - pins == (a - pins) + (b - (pins + a));
    assert (a - pins) !! (b - (pins + a));
  }

  lemma ChargedThen(rm: nat, num: nat, pins: set<nat>, a: set<nat>, rm1: nat, num1: nat, pins1: set<nat>,
                    b: set<nat>, rm2: nat, num2: nat, pins2: set<nat>)
    requires Charged(rm, num, pins, a, rm1, num1, pins1) && Charged(rm1, num1, pins1, b, rm2, num2, pins2)
    ensures Charged(rm, num, pins, a + b, rm2, num2, pins2)
  {
    Split(pins, a, b);
  }

  lemma ExceedsThen(rm: nat, num: nat, pins: set<nat>, a: set<nat>, rm1: nat, num1: nat, pins1: set<nat>, b: set<nat>)
    requires Charged(rm, num, pins, a, rm1, num1, pins1) && Exceeds(rm1, num1, pins1, b)
    ensures Exceeds(rm, num, pins, a + b)
  {
    Split(pins, a, b);
  }

  lemma ChargedNothing(rm: nat, num: nat, pins: set<nat>)
    ensures Charged(rm, num, pins, {}, rm, num, pins)
  {
  }

  lemma ChargedGrows(rm: nat, num: nat, pins: set<nat>, foot: set<nat>, rm': nat, num': nat, pins': set<nat>)
    requires Charged(rm, num, pins, foot, rm', num', pins')
    ensures pins <= pins'
  {
  }

  lemma OneBlock(b: nat, pins: set<nat>)
    ensures |{b} - pins| == if b in pins then 0 else 1
  {
    if b in pins {
      assert {b} - pins == {};
    } else {
      assert {b} - pins == {b};
    }
  }

  lemma TwoBlocks(z: nat, n: nat, pins: set<nat>)
    requires z != n
    ensures |{z, n} - pins| == (if z in pins then 0 else 1) + (if n in pins then 0 else 1)
  {
    Split(pins, {z}, {n});
    OneBlock(z, pins);
    OneBlock(n, pins + {z});
    assert {z} + {n} == {z, n};
  }

  /** A footprint within the budget never exceeds it. */
  lemma WithinBudget(rm: nat, num: nat, pins: set<nat>, foot: set<nat>)
    requires |foot| <= rm && num + rm <= LOG_MAX_SIZE
    ensures !Exceeds(rm, num, pins, foot)
  {
    Subset(foot - pins, foot);
  }

  lemma UnionSize(a: set<nat>, b: set<nat>)
    ensures |a + b| <= |a| + |b|
  {
    assert a + b == a + (b - a);
    assert a !! (b - a);
    Subset(b - a, b);
  }
}
