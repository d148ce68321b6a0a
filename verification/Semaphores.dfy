/** The semaphore routines of `common/sem.c` that run under the semaphore's lock. */
module Semaphores {
  import opened Sequences

  /** As many sleepers as the value is below zero. */
  ghost predicate Balanced(val: int, list: seq<nat>) { |list| == if val < 0 then -val else 0 }

  /** A semaphore; the sleep list holds the waiters from the list head on, the newest first.  `up`
      are the waiters that a post has released, in this order. */
  class Semaphore {
    var val: int
    var sleeplist: seq<nat>
    var up: seq<nat>

    ghost predicate Valid()
      reads this
    {
      Balanced(val, sleeplist) && Distinct(sleeplist)
    }

    /** `init_sem` */
    constructor (val: int)
      requires val >= 0
      ensures Valid() && this.val == val && sleeplist == [] && up == []
    {
      this.val, sleeplist, up := val, [], [];
    }

    /** `_get_sem` */
    method Get() returns (ret: bool)
      requires Valid()
      modifies `val
      ensures Valid() && ret == (old(val) > 0) && val == if old(val) > 0 then old(val) - 1 else old(val)
    {
      ret := false;
      if val > 0 {
        val := val - 1;
        ret := true;
      }
    }

    /** `get_all_sem` */
    method GetAll() returns (ret: int)
      requires Valid()
      modifies `val
      ensures Valid() && ret == (if old(val) > 0 then old(val) else 0) && val + ret == old(val) && val <= 0
    {
      ret := 0;
      if val > 0 {
        ret := val;
        val := 0;
      }
    }

    /** `_wait_sem` up to going to sleep: `got` without waiting, else `t` queues up behind the others. */
    method Enter(t: nat) returns (got: bool)
      requires Valid() && t !in sleeplist
      modifies `val, `sleeplist
      ensures Valid() && val == old(val) - 1 && got == (old(val) > 0)
      ensures sleeplist == if got then old(sleeplist) else [t] + old(sleeplist)
    {
      val := val - 1;
      if val >= 0 { return true; }
      sleeplist := [t] + sleeplist;
      return false;
    }

    /** `_wait_sem` after waking up: a waiter that no post released takes itself off the list; its
        assertion holds. */
    method Leave(t: nat, wasUp: bool) returns (ret: bool)
      requires Valid() && (wasUp <==> t !in sleeplist)
      modifies `val, `sleeplist
      ensures Valid() && ret == wasUp && t !in sleeplist
      ensures wasUp ==> val == old(val) && sleeplist == old(sleeplist)
      ensures !wasUp ==> val == old(val) + 1 && val <= 0 && sleeplist == Without(old(sleeplist), t)
    {
      hide Without;
      DistinctWithout(sleeplist, t);
      if !wasUp {
        ghost var list := sleeplist;
        val := val + 1;
        assert val <= 0;
        var i := 0;
        assert sleeplist[..0] == [];
        while sleeplist[i] != t
          invariant 0 <= i < |sleeplist| && sleeplist == old(sleeplist) && val == old(val) + 1 && t in sleeplist[i..]
          invariant Without(sleeplist, t) == sleeplist[..i] + Without(sleeplist[i..], t)
          decreases |sleeplist| - i
        {
          WithoutFrom(sleeplist, t, i);
          assert sleeplist[i..] == [sleeplist[i]] + sleeplist[i + 1..];
          i := i + 1;
        }
        WithoutFrom(sleeplist, t, i);
        sleeplist := sleeplist[..i] + sleeplist[i + 1..];
        assert sleeplist == Without(list, t);
      }
      return wasUp;
    }

    /** `_post_sem`: the waiter that has waited longest is released; the assertion that there is one
        holds. */
    method Post()
      requires Valid()
      modifies this
      ensures Valid() && val == old(val) + 1
      ensures old(val) >= 0 ==> sleeplist == old(sleeplist) && up == old(up)
      ensures old(val) < 0 ==>
                && old(sleeplist) != [] && sleeplist == old(sleeplist)[..|old(sleeplist)| - 1]
                && up == old(up) + [old(sleeplist)[|old(sleeplist)| - 1]]
    {
      val := val + 1;
      if val <= 0 {
        assert sleeplist != [];
        var wait := sleeplist[|sleeplist| - 1];
        up := up + [wait];
        sleeplist := sleeplist[..|sleeplist| - 1];
      }
    }

    /** `post_all_sem`: it ends, having released exactly the present waiters, the oldest first, and
        leaves a value that was not negative as it was. */
    method PostAll() returns (ret: int)
      requires Valid()
      modifies this
      ensures Valid() && val == (if old(val) > 0 then old(val) else 0) && sleeplist == [] && ret == |old(sleeplist)|
      ensures |up| == |old(up)| + |old(sleeplist)| && old(up) <= up
      ensures forall j :: |old(up)| <= j < |up| ==> up[j] == old(sleeplist)[|up| - 1 - j]
    {
      hide Distinct;
      ret := -1;
      ghost var list, before := sleeplist, up;
      var done := false;
      while !done
        invariant Valid() && -1 <= ret <= |list|
        invariant !done ==> ret < |list| && val == old(val) + ret + 1 && (ret >= 0 ==> val <= 0)
        invariant !done ==> sleeplist == list[..|list| - ret - 1] && |up| == |before| + ret + 1
        invariant done ==> ret == |list| && val == (if old(val) > 0 then old(val) else 0) && sleeplist == []
        invariant done ==> |up| == |before| + |list|
        invariant before <= up && forall j :: |before| <= j < |up| ==> up[j] == list[|before| + |list| - 1 - j]
        decreases |list| - ret, !done
      {
        Post();
        ret := ret + 1;
        done := Get();
      }
    }
  }
}
