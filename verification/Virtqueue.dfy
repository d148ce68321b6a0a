/**
 The descriptor table and the available ring of the block driver in `driver/virtio_blk.c`, as in
 sections 2.6.5 and 2.6.6 of the VIRTIO 1.1 specification.
 */
module Virtqueue {
  import opened Sequences

  const NQUEUE: nat := 16
  const F_NEXT: nat := 1
  const F_WRITE: nat := 2

  datatype Desc = Desc(addr: nat, len: nat, flags: nat, next: nat)

  /** `flags & VIRTQ_DESC_F_NEXT`, `flags & VIRTQ_DESC_F_WRITE` */
  predicate HasNext(d: Desc) { d.flags % 2 == 1 }

  predicate DeviceWrites(d: Desc) { d.flags / 2 % 2 == 1 }

  /** A request in flight: header, data and status descriptor. */
  datatype Chain = Chain(d0: nat, d1: nat, d2: nat)

  function Of(c: Chain): seq<nat> { [c.d0, c.d1, c.d2] }

  /** All descriptors of the requests in flight. */
  function Used(cs: seq<Chain>): seq<nat> {
    if cs == [] then [] else Of(cs[0]) + Used(cs[1..])
  }

  /** `f` are the descriptors met from `head` on.  What the last one points to does not matter. */
  ghost predicate FreeList(d: seq<Desc>, head: nat, f: seq<nat>) {
    && (f != [] ==> f[0] == head)
    && (forall i :: 0 <= i < |f| ==> f[i] < |d|)
    && (forall i :: 0 <= i < |f| - 1 ==> HasNext(d[f[i]]) && d[f[i]].next == f[i + 1])
  }

  /** The three descriptors are chained and the chain ends with the status, which the device writes. */
  ghost predicate ChainOk(d: seq<Desc>, c: Chain) {
    && c.d0 < |d| && c.d1 < |d| && c.d2 < |d|
    && HasNext(d[c.d0]) && d[c.d0].next == c.d1 && HasNext(d[c.d1]) && d[c.d1].next == c.d2 && !HasNext(d[c.d2])
    && !DeviceWrites(d[c.d0]) && DeviceWrites(d[c.d2])
  }

  /** No descriptor is lost or used twice. */
  ghost predicate Parts(f: seq<nat>, cs: seq<Chain>) {
    Distinct(f + Used(cs)) && |f| + 3 * |cs| == NQUEUE
  }

  ghost predicate Sound(d: seq<Desc>, head: nat, nfree: nat, f: seq<nat>, cs: seq<Chain>) {
    && |d| == NQUEUE && nfree == |f| && FreeList(d, head, f) && Parts(f, cs)
    && forall i :: 0 <= i < |cs| ==> ChainOk(d, cs[i])
  }

  class Virtq {
    const desc: array<Desc>
    var freeHead: nat
    var nfree: nat
    const ring: array<nat>
    var idx: nat
    ghost var free: seq<nat>
    ghost var chains: seq<Chain>

    ghost predicate Valid()
      reads this, desc, ring
    {
      && desc.Length == NQUEUE && ring.Length == NQUEUE && idx < 0x1_0000
      && Sound(desc[..], freeHead, nfree, free, chains)
    }

    /** `virtq_init` with `desc_init` */
    constructor ()
      ensures Valid() && chains == [] && nfree == NQUEUE && freeHead == 0 && idx == 0
      ensures fresh(desc) && fresh(ring)
    {
      desc := new Desc[NQUEUE](_ => Desc(0, 0, 0, 0));
      ring := new nat[NQUEUE](_ => 0);
      freeHead, nfree, idx := 0, NQUEUE, 0;
      free, chains := seq(NQUEUE, i => i), [];
      new;
      var i := 0;
      while i < NQUEUE
        invariant 0 <= i <= NQUEUE
        invariant forall k :: 0 <= k < i && k < NQUEUE - 1 ==> desc[k] == Desc(0, 0, F_NEXT, k + 1)
        invariant forall k :: i <= k < NQUEUE || k == NQUEUE - 1 ==> desc[k] == Desc(0, 0, 0, 0)
        modifies desc
      {
        if i != NQUEUE - 1 {
          desc[i] := desc[i].(flags := F_NEXT);
          desc[i] := desc[i].(next := i + 1);
        }
        i := i + 1;
      }
      assert free + Used(chains) == free;
    }

    /** `alloc_desc`: the first of the list; it panics on an empty one. */
    method AllocDesc() returns (panics: bool, d: nat)
      requires |desc[..]| == NQUEUE && nfree == |free| && FreeList(desc[..], freeHead, free)
      modifies `freeHead, `nfree, `free
      ensures panics <==> old(nfree) == 0
      ensures !panics ==>
          old(free) == [d] + free && nfree == old(nfree) - 1 && FreeList(desc[..], freeHead, free) && d < NQUEUE
      ensures panics ==> free == old(free) && nfree == old(nfree) && freeHead == old(freeHead)
    {
      if nfree == 0 { return true, 0; }
      d := freeHead;
      if HasNext(desc[d]) { freeHead := desc[d].next; }
      nfree := nfree - 1;
      free := free[1..];
      return false, d;
    }

    /** The queueing part of `virtio_blk_rw`: a chain of three descriptors, entered in the available
        ring.  It panics exactly if fewer than three descriptors are free. */
    method Request(read: bool, hdr: nat, data: nat, status: nat) returns (panics: bool, d0: nat)
      requires Valid()
      modifies this`freeHead, this`nfree, this`free, this`chains, this`idx, desc, ring
      ensures panics <==> old(nfree) < 3
      ensures !panics ==> Valid() && nfree == old(nfree) - 3 && |chains| == old(|chains|) + 1
      ensures !panics ==> chains[..|chains| - 1] == old(chains) && chains[|chains| - 1].d0 == d0
      ensures !panics ==>
                var c := chains[|chains| - 1];
                && old(free) == Of(c) + free && ChainOk(desc[..], c)
                && Filled(desc[..], c, read, hdr, data, status) && Same(old(desc[..]), desc[..], Of(c))
      ensures !panics ==> ring[old(idx) % NQUEUE] == d0 && idx == (old(idx) + 1) % 0x1_0000
      ensures !panics ==> forall k :: 0 <= k < NQUEUE && k != old(idx) % NQUEUE ==> ring[k] == old(ring[k])
    {
      hide Parts, ChainOk, FreeList, Distinct, Same, Filled;
      ghost var d, f := desc[..], free;
      FreeParts(f, chains);
      panics, d0 := AllocDesc();
      if panics { return; }
      Header(d0, hdr);
      ghost var e1 := desc[..];
      Apart(f, d0, free);
      FreeUntouched(d, freeHead, free, e1, [d0]);
      var d1;
      panics, d1 := AllocDesc();
      if panics { return; }
      assert f == [d0, d1] + free;
      PairApart(f, d0, d1, free);
      Data(d0, d1, data, read);
      ghost var e2 := desc[..];
      FreeUntouched(e1, freeHead, free, e2, [d0, d1]);
      var d2;
      panics, d2 := AllocDesc();
      if panics { return; }
      ghost var c := Chain(d0, d1, d2);
      assert f == Of(c) + free;
      ChainApart(f, c, free);
      Status(d0, d1, d2, status);
      ghost var e3 := desc[..];
      FreeUntouched(e2, freeHead, free, e3, [d1, d2]);
      Announce(d0);
      FilledChain(e1, e2, e3, c, read, hdr, data, status);
      OnlyChain(d, e1, e2, e3, c);
      Started(d, f, chains, e3, freeHead, free, c);
      chains := chains + [c];
    }

    /** Lines 109-111: the chain is entered in the available ring. */
    method Announce(d0: nat)
      requires ring.Length == NQUEUE && idx < 0x1_0000
      modifies `idx, ring
      ensures ring[old(idx) % NQUEUE] == d0 && idx == (old(idx) + 1) % 0x1_0000
      ensures forall k :: 0 <= k < NQUEUE && k != old(idx) % NQUEUE ==> ring[k] == old(ring[k])
    {
      ring[idx % NQUEUE] := d0;
      idx := (idx + 1) % 0x1_0000;
    }

    /** Lines 86-88 */
    method Header(d0: nat, hdr: nat)
      requires desc.Length == NQUEUE && d0 < NQUEUE
      modifies desc
      ensures Same(old(desc[..]), desc[..], [d0])
      ensures desc[d0] == Desc(hdr, 16, F_NEXT, old(desc[d0]).next)
    {
      desc[d0] := desc[d0].(addr := hdr);
      desc[d0] := desc[d0].(len := 16);
      desc[d0] := desc[d0].(flags := F_NEXT);
    }

    /** Lines 93-98 */
    method Data(d0: nat, d1: nat, data: nat, read: bool)
      requires desc.Length == NQUEUE && d0 < NQUEUE && d1 < NQUEUE && d0 != d1
      modifies desc
      ensures Same(old(desc[..]), desc[..], [d0, d1]) && desc[d0] == old(desc[d0]).(next := d1)
      ensures desc[d1] == Desc(data, 512, F_NEXT + if read then F_WRITE else 0, old(desc[d1]).next)
    {
      desc[d0] := desc[d0].(next := d1);
      desc[d1] := desc[d1].(addr := data);
      desc[d1] := desc[d1].(len := 512);
      desc[d1] := desc[d1].(flags := F_NEXT);
      if read { desc[d1] := desc[d1].(flags := F_NEXT + F_WRITE); }
    }

    /** Lines 103-107 */
    method Status(d0: nat, d1: nat, d2: nat, status: nat)
      requires desc.Length == NQUEUE && d1 < NQUEUE && d2 < NQUEUE && d1 != d2
      modifies desc
      ensures Same(old(desc[..]), desc[..], [d1, d2]) && desc[d1] == old(desc[d1]).(next := d2)
      ensures desc[d2] == Desc(status, 1, F_WRITE, 0)
    {
      desc[d1] := desc[d1].(next := d2);
      desc[d2] := desc[d2].(addr := status);
      desc[d2] := desc[d2].(len := 1);
      desc[d2] := desc[d2].(flags := F_WRITE);
      desc[d2] := desc[d2].(next := 0);
    }

    /** `free_desc`: the chain goes back in front of the list; the walk follows the chain only. */
    method FreeDesc(n: nat, ghost k: nat)
      requires Valid() && k < |chains| && chains[k].d0 == n
      modifies this`freeHead, this`nfree, this`free, this`chains, desc
      ensures Valid() && nfree == old(nfree) + 3
      ensures free == Of(old(chains)[k]) + old(free) && chains == old(chains)[..k] + old(chains)[k + 1..]
      ensures freeHead == n && Same(old(desc[..]), desc[..], [old(chains)[k].d2])
      ensures var d := old(chains)[k].d2;
              d < NQUEUE && desc[d] == old(desc[d]).(flags := F_NEXT,
                next := if old(nfree) == 0 then old(desc[d]).next else old(freeHead))
    {
      hide Parts, FreeList, Distinct;
      ghost var c, d, f := chains[k], desc[..], free;
      assert ChainOk(d, c);
      var head, at := n, n;
      var empty := nfree == 0;
      nfree := nfree + 1;
      ghost var steps := 0;
      while HasNext(desc[at])
        invariant 0 <= steps <= 2 && at == Of(c)[steps] && nfree == |f| + 1 + steps && desc[..] == d
        invariant freeHead == old(freeHead) && free == f && chains == old(chains) && at < NQUEUE
        decreases 2 - steps
      {
        at := desc[at].next;
        nfree := nfree + 1;
        steps := steps + 1;
      }
      assert steps == 2;
      desc[at] := desc[at].(flags := F_NEXT);
      if !empty { desc[at] := desc[at].(next := freeHead); }
      freeHead := head;
      free := Of(c) + f;
      chains := chains[..k] + chains[k + 1..];
      Returned(d, old(freeHead), f, old(chains), k, desc[..]);
    }

    /** The descriptors of the list and of the requests in flight are all sixteen, each once. */
    lemma AllThere()
      requires Valid()
      ensures nfree + 3 * |chains| == NQUEUE && Distinct(free + Used(chains)) && nfree >= 1
      ensures forall x :: 0 <= x < NQUEUE ==> x in free || x in Used(chains)
    {
      hide FreeList, ChainOk;
      UsedLength(chains);
      Bounded(desc[..], freeHead, free, chains);
      Covers(free + Used(chains), NQUEUE);
      assert forall x :: x in free + Used(chains) ==> x in free || x in Used(chains);
    }
  }

  lemma {:induction false} UsedAppend(cs: seq<Chain>, c: Chain)
    ensures Used(cs + [c]) == Used(cs) + Of(c)
  {
    if cs == [] {
      assert cs + [c] == [c] && Used([]) == [];
    } else {
      assert (cs + [c])[1..] == cs[1..] + [c];
      UsedAppend(cs[1..], c);
    }
  }

  lemma FreeParts(f: seq<nat>, cs: seq<Chain>)
    requires Parts(f, cs)
    ensures Distinct(f)
  {
    DistinctParts(f, Used(cs));
  }

  lemma Apart(f: seq<nat>, d0: nat, rest: seq<nat>)
    requires Distinct(f) && f == [d0] + rest
    ensures forall x :: x in rest ==> x !in [d0]
  {
    DistinctParts([d0], rest);
  }

  lemma PairApart(f: seq<nat>, d0: nat, d1: nat, rest: seq<nat>)
    requires Distinct(f) && f == [d0, d1] + rest
    ensures d0 != d1 && forall x :: x in rest ==> x !in [d0, d1]
  {
    DistinctParts([d0, d1], rest);
    assert f[0] == d0 && f[1] == d1;
  }

  lemma ChainApart(f: seq<nat>, c: Chain, rest: seq<nat>)
    requires Distinct(f) && f == Of(c) + rest
    ensures c.d0 != c.d1 && c.d0 != c.d2 && c.d1 != c.d2 && forall x :: x in rest ==> x !in [c.d1, c.d2]
  {
    DistinctParts(Of(c), rest);
    assert Of(c)[0] == c.d0 && Of(c)[1] == c.d1 && Of(c)[2] == c.d2;
    assert forall x :: x in [c.d1, c.d2] ==> x in Of(c);
  }

  /** Only descriptors of `xs` differ. */
  predicate Same(d: seq<Desc>, e: seq<Desc>, xs: seq<nat>) {
    |e| == |d| && forall i :: 0 <= i < |d| && i !in xs ==> e[i] == d[i]
  }

  lemma FreeUntouched(d: seq<Desc>, head: nat, f: seq<nat>, e: seq<Desc>, xs: seq<nat>)
    requires FreeList(d, head, f) && Same(d, e, xs) && forall x :: x in f ==> x !in xs
    ensures FreeList(e, head, f)
  {
    forall i | 0 <= i < |f| ensures f[i] in f {}
  }

  lemma ChainsUntouched(d: seq<Desc>, cs: seq<Chain>, e: seq<Desc>, xs: seq<nat>)
    requires (forall i :: 0 <= i < |cs| ==> ChainOk(d, cs[i])) && Same(d, e, xs) && forall x :: x in Used(cs) ==>
        x !in xs
    ensures forall i :: 0 <= i < |cs| ==> ChainOk(e, cs[i])
  {
    hide Used, ChainOk, Same;
    forall i | 0 <= i < |cs| ensures ChainOk(e, cs[i]) {
      UsedHas(cs, i);
      ChainUntouched(d, cs[i], e, xs);
    }
  }

  lemma ChainUntouched(d: seq<Desc>, c: Chain, e: seq<Desc>, xs: seq<nat>)
    requires ChainOk(d, c) && Same(d, e, xs) && c.d0 !in xs && c.d1 !in xs && c.d2 !in xs
    ensures ChainOk(e, c)
  {
  }

  lemma {:induction false} UsedHas(cs: seq<Chain>, i: nat)
    requires i < |cs|
    ensures cs[i].d0 in Used(cs) && cs[i].d1 in Used(cs) && cs[i].d2 in Used(cs)
  {
    var s := Of(cs[0]) + Used(cs[1..]);
    if i > 0 { UsedHas(cs[1..], i - 1); } else { assert s[0] == cs[0].d0 && s[1] == cs[0].d1 && s[2] == cs[0].d2; }
  }

  /** The first three free descriptors become a chain in flight. */
  lemma Started(d: seq<Desc>, f: seq<nat>, cs: seq<Chain>, e: seq<Desc>, head: nat, g: seq<nat>, c: Chain)
    requires |d| == NQUEUE && Parts(f, cs) && f == Of(c) + g && Same(d, e, Of(c))
    requires (forall i :: 0 <= i < |cs| ==> ChainOk(d, cs[i])) && FreeList(e, head, g) && ChainOk(e, c)
    ensures Sound(e, head, |g|, g, cs + [c])
  {
    UsedAppend(cs, c);
    DistinctParts(f, Used(cs));
    DistinctParts(Of(c), g);
    DistinctParts(Used(cs), Of(c));
    DistinctParts(g, Used(cs + [c]));
    forall x | x in Of(c) || x in g ensures x in f {
      if x in Of(c) { var k :| 0 <= k < 3 && Of(c)[k] == x; assert f[k] == x; }
      if x in g { var k :| 0 <= k < |g| && g[k] == x; assert f[3 + k] == x; }
    }
    ChainsUntouched(d, cs, e, Of(c));
  }

  /** What the three descriptors of a request say: 16 bytes of header, 512 of data, one of status. */
  ghost predicate Filled(d: seq<Desc>, c: Chain, read: bool, hdr: nat, data: nat, status: nat) {
    && c.d0 < |d| && c.d1 < |d| && c.d2 < |d|
    && d[c.d0] == Desc(hdr, 16, F_NEXT, c.d1)
    && d[c.d1] == Desc(data, 512, F_NEXT + if read then F_WRITE else 0, c.d2)
    && d[c.d2] == Desc(status, 1, F_WRITE, 0)
  }

  lemma FilledChain(e1: seq<Desc>, e2: seq<Desc>, e3: seq<Desc>, c: Chain, read: bool, hdr: nat, data: nat, status: nat)
    requires |e1| == NQUEUE && c.d0 < NQUEUE && c.d1 < NQUEUE && c.d2 < NQUEUE && c.d0 != c.d1 && c.d0 != c.d2
        && c.d1 != c.d2
    requires Same(e1, e2, [c.d0, c.d1]) && Same(e2, e3, [c.d1, c.d2])
    requires e1[c.d0] == Desc(hdr, 16, F_NEXT, e1[c.d0].next) && e2[c.d0] == e1[c.d0].(next := c.d1)
    requires e2[c.d1] == Desc(data, 512, F_NEXT + if read then F_WRITE else 0, e2[c.d1].next)
    requires e3[c.d1] == e2[c.d1].(next := c.d2) && e3[c.d2] == Desc(status, 1, F_WRITE, 0)
    ensures ChainOk(e3, c) && Filled(e3, c, read, hdr, data, status)
  {
  }

  lemma OnlyChain(d: seq<Desc>, e1: seq<Desc>, e2: seq<Desc>, e3: seq<Desc>, c: Chain)
    requires Same(d, e1, [c.d0]) && Same(e1, e2, [c.d0, c.d1]) && Same(e2, e3, [c.d1, c.d2])
    ensures Same(d, e3, Of(c))
  {
    assert Of(c)[0] == c.d0 && Of(c)[1] == c.d1 && Of(c)[2] == c.d2;
  }

  /** The chain of a finished request in front of the free list. */
  lemma Returned(d: seq<Desc>, head: nat, f: seq<nat>, cs: seq<Chain>, k: nat, e: seq<Desc>)
    requires Sound(d, head, |f|, f, cs) && k < |cs| && Same(d, e, [cs[k].d2])
    requires HasNext(e[cs[k].d2]) && (f != [] ==> e[cs[k].d2].next == head)
    ensures Sound(e, cs[k].d0, |f| + 3, Of(cs[k]) + f, cs[..k] + cs[k + 1..])
  {
    hide Used, Parts;
    var c, g, rest := cs[k], Of(cs[k]) + f, cs[..k] + cs[k + 1..];
    ReturnedParts(f, cs, k);
    PartsApart(g, rest, c, f);
    assert ChainOk(d, c);
    FreeUntouched(d, head, f, e, [c.d2]);
    forall i | 0 <= i < |rest| ensures ChainOk(d, rest[i]) {}
    ChainsUntouched(d, rest, e, [c.d2]);
    Prepended(e, head, f, c);
  }

  lemma PartsApart(g: seq<nat>, rest: seq<Chain>, c: Chain, f: seq<nat>)
    requires Parts(g, rest) && g == Of(c) + f
    ensures c.d0 != c.d2 && c.d1 != c.d2 && c.d2 !in f && c.d2 !in Used(rest)
  {
    hide Used;
    DistinctParts(g, Used(rest));
    DistinctParts(Of(c), f);
    assert Of(c)[0] == c.d0 && Of(c)[1] == c.d1 && Of(c)[2] == c.d2 && c.d2 in Of(c) && g[2] == c.d2;
  }

  /** A chain whose last descriptor points to the head of the list. */
  lemma Prepended(e: seq<Desc>, head: nat, f: seq<nat>, c: Chain)
    requires FreeList(e, head, f) && c.d0 < |e| && c.d1 < |e| && c.d2 < |e|
    requires HasNext(e[c.d0]) && e[c.d0].next == c.d1 && HasNext(e[c.d1]) && e[c.d1].next == c.d2
    requires HasNext(e[c.d2]) && (f != [] ==> e[c.d2].next == head)
    ensures FreeList(e, c.d0, Of(c) + f)
  {
    var g := Of(c) + f;
    assert g[0] == c.d0 && g[1] == c.d1 && g[2] == c.d2;
    assert forall i :: 3 <= i < |g| ==> g[i] == f[i - 3];
  }

  lemma ReturnedParts(f: seq<nat>, cs: seq<Chain>, k: nat)
    requires Parts(f, cs) && k < |cs|
    ensures Parts(Of(cs[k]) + f, cs[..k] + cs[k + 1..])
  {
    var c, rest := cs[k], cs[..k] + cs[k + 1..];
    UsedSplit(cs, k);
    DistinctParts(f, Used(cs));
    DistinctParts(Used(cs[..k]), Of(c) + Used(cs[k + 1..]));
    DistinctParts(Of(c), Used(cs[k + 1..]));
    DistinctParts(Used(cs[..k]), Used(cs[k + 1..]));
    DistinctParts(Of(c), f);
    DistinctParts(Of(c) + f, Used(rest));
  }

  lemma {:induction false} UsedPlus(a: seq<Chain>, b: seq<Chain>)
    ensures Used(a + b) == Used(a) + Used(b)
  {
    if a == [] {
      assert a + b == b;
    } else {
      assert (a + b)[1..] == a[1..] + b;
      UsedPlus(a[1..], b);
    }
  }

  lemma UsedSplit(cs: seq<Chain>, k: nat)
    requires k < |cs|
    ensures Used(cs) == Used(cs[..k]) + (Of(cs[k]) + Used(cs[k + 1..]))
    ensures Used(cs[..k] + cs[k + 1..]) == Used(cs[..k]) + Used(cs[k + 1..])
  {
    assert cs == cs[..k] + cs[k..] && cs[k..][1..] == cs[k + 1..];
    UsedPlus(cs[..k], cs[k..]);
    UsedPlus(cs[..k], cs[k + 1..]);
  }

  lemma {:induction false} UsedLength(cs: seq<Chain>)
    ensures |Used(cs)| == 3 * |cs|
  {
    if cs != [] { UsedLength(cs[1..]); }
  }

  lemma Bounded(d: seq<Desc>, head: nat, f: seq<nat>, cs: seq<Chain>)
    requires Sound(d, head, |f|, f, cs)
    ensures forall x :: x in f + Used(cs) ==> x < NQUEUE
  {
    UsedBounded(d, cs);
  }

  lemma {:induction false} UsedBounded(d: seq<Desc>, cs: seq<Chain>)
    requires forall i :: 0 <= i < |cs| ==> ChainOk(d, cs[i])
    ensures forall x :: x in Used(cs) ==> x < |d|
  {
    if cs != [] {
      assert ChainOk(d, cs[0]);
      forall i | 0 <= i < |cs[1..]| ensures ChainOk(d, cs[1..][i]) { assert cs[1..][i] == cs[i + 1]; }
      UsedBounded(d, cs[1..]);
    }
  }
}
