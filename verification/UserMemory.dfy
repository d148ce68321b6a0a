/** `copyout`: writing into the memory of another address space, page by page. */
module UserMemory {
  import opened Pages
  import opened Sequences
  import opened PageTableModel
  import opened PageTables

  const USERTOP: nat := 0x1_0000_0000_0000

  type Frames = map<nat, seq<int>>

  /** Every mapped page has contents. */
  ghost predicate Space(m: Tables, r: nat, data: Frames) {
    forall path :: |path| == 4 && Valid(Walk(m, r, path)) ==>
      Address(Walk(m, r, path)) in data && |data[Address(Walk(m, r, path))]| == PAGE_SIZE
  }

  predicate Mapped(m: Tables, r: nat, x: nat) { Valid(Walk(m, r, Parts(x))) }

  function PageAt(m: Tables, r: nat, x: nat): nat { Address(Walk(m, r, Parts(x))) }

  /** The byte that a process finds at address `x`. */
  function ByteAt(m: Tables, r: nat, data: Frames, x: nat): int {
    var page := PageAt(m, r, x);
    if page in data && x % PAGE_SIZE < |data[page]| then data[page][x % PAGE_SIZE] else 0
  }

  /** The last of the `n` addresses from `va` on, counted from `va`, that lies where `x` lies, -1 if there
      is none.  Two addresses may lie in the same place, as a page may be mapped twice. */
  function LastAt(m: Tables, r: nat, va: nat, n: nat, x: nat): (j: int)
    ensures -1 <= j < n
  {
    if n == 0 then -1
    else if PageAt(m, r, va + n - 1) == PageAt(m, r, x) && (va + n - 1) % PAGE_SIZE == x % PAGE_SIZE then n - 1
    else LastAt(m, r, va, n - 1, x)
  }

  /** What was mapped stays mapped to the same page; a new page is one that was not in use, mapped once. */
  ghost predicate Added(m: Tables, r: nat, data: Frames, w: Tables, q: nat) {
    && (forall x: nat :: Mapped(m, r, x) ==> Mapped(w, q, x) && PageAt(w, q, x) == PageAt(m, r, x))
    && (forall x: nat :: Mapped(w, q, x) && !Mapped(m, r, x) ==> PageAt(w, q, x) !in data)
    && (forall x: nat, y: nat ::
          Mapped(w, q, x) && Mapped(w, q, y) && !Mapped(m, r, x) && PageAt(w, q, x) == PageAt(w, q, y) ==>
            Parts(x) == Parts(y))
  }

  /** The bytes from `va` on were written, in this order: every address holds what was last written to
      its place, and what it held before if nothing was. */
  ghost predicate Wrote(m: Tables, r: nat, data: Frames, w: Tables, q: nat, now: Frames, va: nat, bytes: seq<int>) {
    && Added(m, r, data, w, q) && (forall p :: p in data ==> p in now)
    && (forall y: nat :: va <= y < va + |bytes| ==> Mapped(w, q, y))
    && (forall x: nat :: Mapped(w, q, x) ==> Holds(m, r, data, w, q, now, va, bytes, x))
    && (forall p :: p in data && p !in Touched(w, q, va, |bytes|) ==> now[p] == data[p])
  }

  ghost predicate Holds(m: Tables, r: nat, data: Frames, w: Tables, q: nat, now: Frames, va: nat, bytes: seq<int>,
      x: nat) {
    var j := LastAt(w, q, va, |bytes|, x);
    if j >= 0 then ByteAt(w, q, now, x) == bytes[j]
    else Mapped(m, r, x) ==> ByteAt(w, q, now, x) == ByteAt(m, r, data, x)
  }

  /** What was mapped has the entry it had; a new page has bits 0, 1, 2, 6, 9 and 10: normal memory for
      user mode, writable and accessed. */
  ghost predicate Entries(m: Tables, r: nat, w: Tables, q: nat) {
    forall path :: |path| == 4 ==>
      if Valid(Walk(m, r, path)) then Walk(w, q, path) == Walk(m, r, path)
      else Valid(Walk(w, q, path)) ==> Walk(w, q, path) % PAGE_SIZE == 0x647 && Walk(w, q, path) / PA_LIMIT == 0
  }

  lemma EntriesOn(m: Tables, r: nat, w: Tables, q: nat, y: Tables, p: nat)
    requires Entries(m, r, w, q) && Entries(w, q, y, p)
    ensures Entries(m, r, y, p)
  {
    hide Walk, Valid;
  }

  lemma EntriesSame(m: Tables, r: nat, w: Tables, q: nat)
    requires SameWalks(m, r, w, q)
    ensures Entries(m, r, w, q)
  {
    hide Walk, Valid;
  }

  lemma EntriesBut(m: Tables, r: nat, w: Tables, q: nat, full: seq<nat>, e: nat)
    requires WalksBut(m, r, w, q, full, e) && |full| == 4
    requires if Valid(Walk(m, r, full)) then e == Walk(m, r, full) else e % PAGE_SIZE == 0x647 && e / PA_LIMIT == 0
    ensures Entries(m, r, w, q)
  {
    hide Walk, Valid;
  }

  /** The pages that the `n` bytes from `va` on lie in. */
  function Touched(m: Tables, r: nat, va: nat, n: nat): set<nat> {
    if n == 0 then {} else Touched(m, r, va, n - 1) + {PageAt(m, r, va + n - 1)}
  }

  // ---------- one write after the other ----------

  lemma {:induction false} LastSplit(m: Tables, r: nat, va: nat, a: nat, b: nat, x: nat)
    ensures LastAt(m, r, va, a + b, x) ==
            if LastAt(m, r, va + a, b, x) >= 0 then a + LastAt(m, r, va + a, b, x) else LastAt(m, r, va, a, x)
  {
    hide PageAt;
    if b > 0 { LastSplit(m, r, va, a, b - 1, x); }
  }

  lemma {:induction false} LastSame(m: Tables, r: nat, w: Tables, q: nat, va: nat, n: nat, x: nat)
    requires PageAt(w, q, x) == PageAt(m, r, x)
    requires forall y: nat :: va <= y < va + n ==> PageAt(w, q, y) == PageAt(m, r, y)
    ensures LastAt(w, q, va, n, x) == LastAt(m, r, va, n, x)
  {
    hide PageAt;
    if n > 0 { LastSame(m, r, w, q, va, n - 1, x); }
  }

  lemma {:induction false} LastNone(m: Tables, r: nat, va: nat, n: nat, x: nat)
    requires forall y: nat :: va <= y < va + n ==> PageAt(m, r, y) != PageAt(m, r, x)
    ensures LastAt(m, r, va, n, x) == -1
  {
    hide PageAt;
    if n > 0 { LastNone(m, r, va, n - 1, x); }
  }

  lemma {:induction false} TouchedSplit(m: Tables, r: nat, va: nat, a: nat, b: nat)
    ensures Touched(m, r, va, a + b) == Touched(m, r, va, a) + Touched(m, r, va + a, b)
  {
    hide PageAt;
    if b > 0 { TouchedSplit(m, r, va, a, b - 1); }
  }

  lemma {:induction false} TouchedSame(m: Tables, r: nat, w: Tables, q: nat, va: nat, n: nat)
    requires forall y: nat :: va <= y < va + n ==> PageAt(w, q, y) == PageAt(m, r, y)
    ensures Touched(w, q, va, n) == Touched(m, r, va, n)
  {
    hide PageAt;
    if n > 0 { TouchedSame(m, r, w, q, va, n - 1); }
  }

  lemma AddedOn(m: Tables, r: nat, data: Frames, w: Tables, q: nat, now: Frames, y: Tables, p: nat)
    requires Added(m, r, data, w, q) && Added(w, q, now, y, p) && forall k :: k in data ==> k in now
    ensures Added(m, r, data, y, p)
  {
    hide Parts, Walk, Address, Valid;
    forall a: nat, b: nat | Mapped(y, p, a) && Mapped(y, p, b) && !Mapped(m, r, a) && PageAt(y, p, a) == PageAt(y, p, b)
      ensures Parts(a) == Parts(b)
    {
      if Mapped(w, q, a) && !Mapped(w, q, b) { assert Parts(b) == Parts(a); }
    }
  }

  lemma WroteOn(m: Tables, r: nat, data: Frames, w: Tables, q: nat, now: Frames, y: Tables, p: nat, last: Frames,
      va: nat,
                a: seq<int>, b: seq<int>)
    requires Wrote(m, r, data, w, q, now, va, a) && Wrote(w, q, now, y, p, last, va + |a|, b) && Space(w, q, now)
    ensures Wrote(m, r, data, y, p, last, va, a + b)
  {
    hide Mapped, ByteAt, PageAt, LastAt, Space, Added, Touched;
    AddedOn(m, r, data, w, q, now, y, p);
    AddedStays(w, q, now, y, p);
    forall x: nat | Mapped(y, p, x) ensures Holds(m, r, data, y, p, last, va, a + b, x) {
      LastSplit(y, p, va, |a|, |b|, x);
      AddedStays(m, r, data, w, q);
      if Mapped(w, q, x) {
        LastSame(w, q, y, p, va, |a|, x);
      } else {
        forall z: nat | va <= z < va + |a| ensures PageAt(y, p, z) != PageAt(y, p, x)
        {
          NewElsewhere(w, q, now, y, p, z, x);
        }
        LastNone(y, p, va, |a|, x);
      }
    }
    TouchedSplit(y, p, va, |a|, |b|);
    TouchedSame(w, q, y, p, va, |a|);
  }

  lemma AddedStays(m: Tables, r: nat, data: Frames, w: Tables, q: nat)
    requires Added(m, r, data, w, q)
    ensures forall x: nat :: Mapped(m, r, x) ==> Mapped(w, q, x) && PageAt(w, q, x) == PageAt(m, r, x)
  {
    hide Mapped, PageAt, Parts;
  }

  lemma NewElsewhere(m: Tables, r: nat, data: Frames, w: Tables, q: nat, x: nat, y: nat)
    requires Added(m, r, data, w, q) && Space(m, r, data) && Mapped(m, r, x) && Mapped(w, q, y) && !Mapped(m, r, y)
    ensures PageAt(w, q, x) != PageAt(w, q, y)
  {
    hide Walk, Address, Valid, Parts;
    PartsArePath(x);
  }

  lemma WroteNothing(m: Tables, r: nat, data: Frames, w: Tables, q: nat, va: nat)
    requires SameWalks(m, r, w, q)
    ensures Wrote(m, r, data, w, q, data, va, []) && (Space(m, r, data) ==> Space(w, q, data))
  {
    hide Walk, Address, Valid, Parts;
    forall x: nat ensures Walk(w, q, Parts(x)) == Walk(m, r, Parts(x)) { PartsArePath(x); }
  }

  // ---------- one page ----------

  function Patched(page: seq<int>, o: nat, bytes: seq<int>): (s: seq<int>)
    requires o + |bytes| <= |page|
    ensures |s| == |page|
  {
    page[..o] + bytes + page[o + |bytes|..]
  }

  lemma PatchedAt(page: seq<int>, o: nat, bytes: seq<int>, i: nat)
    requires o + |bytes| <= |page| && i < |page|
    ensures Patched(page, o, bytes)[i] == if o <= i < o + |bytes| then bytes[i - o] else page[i]
  {
  }

  lemma SamePage(x: nat, va: nat, n: nat)
    requires va % PAGE_SIZE + n <= PAGE_SIZE && va <= x < va + n
    ensures Parts(x) == Parts(va) && x % PAGE_SIZE == va % PAGE_SIZE + (x - va)
  {
    hide Parts;
    assert x / PAGE_SIZE == va / PAGE_SIZE;
    PartsAreThePage(x, va);
  }

  /** Bytes of one page are written once each. */
  lemma {:induction false} LastInPage(m: Tables, r: nat, va: nat, n: nat, x: nat, page: nat)
    requires va % PAGE_SIZE + n <= PAGE_SIZE && forall y: nat :: va <= y < va + n ==> PageAt(m, r, y) == page
    ensures var i := x % PAGE_SIZE - va % PAGE_SIZE;
            LastAt(m, r, va, n, x) == if PageAt(m, r, x) == page && 0 <= i < n then i else -1
  {
    hide PageAt;
    if n > 0 {
      LastInPage(m, r, va, n - 1, x, page);
      assert (va + n - 1) % PAGE_SIZE == va % PAGE_SIZE + (n - 1) by {
        hide LastAt;
        InPage(va, n - 1);
      }
    }
  }

  lemma InPage(va: nat, i: nat)
    requires va % PAGE_SIZE + i < PAGE_SIZE
    ensures (va + i) % PAGE_SIZE == va % PAGE_SIZE + i
  {
  }

  lemma {:induction false} TouchedPage(m: Tables, r: nat, va: nat, n: nat, page: nat)
    requires forall y: nat :: va <= y < va + n ==> PageAt(m, r, y) == page
    ensures Touched(m, r, va, n) == if n == 0 then {} else {page}
  {
    hide PageAt;
    if n > 0 { TouchedPage(m, r, va, n - 1, page); }
  }

  /** The page of `va` is what it was, or is new. */
  lemma PieceAdded(m: Tables, r: nat, data: Frames, w: Tables, q: nat, va: nat, e: nat)
    requires Space(m, r, data) && WalksBut(m, r, w, q, Parts(va), e) && Valid(e)
    requires if Valid(Walk(m, r, Parts(va))) then e == Walk(m, r, Parts(va)) else Address(e) !in data
    ensures Added(m, r, data, w, q)
    ensures forall x: nat :: Mapped(w, q, x) && (!Mapped(m, r, x) || Parts(x) == Parts(va)) ==>
        PageAt(w, q, x) == Address(e)
  {
    hide Walk, Address, Valid, Parts;
    forall x: nat ensures |Parts(x)| == 4 { PartsArePath(x); }
  }

  /** The bytes go to the page that `va` is mapped to in the end. */
  lemma PieceWrote(m: Tables, r: nat, data: Frames, w: Tables, q: nat, now: Frames, va: nat, bytes: seq<int>, e: nat,
                   was: seq<int>)
    requires Space(m, r, data) && WalksBut(m, r, w, q, Parts(va), e) && Valid(e) && |was| == PAGE_SIZE
    requires va % PAGE_SIZE + |bytes| <= PAGE_SIZE
    requires now == data[Address(e) := Patched(was, va % PAGE_SIZE, bytes)]
    requires if Valid(Walk(m, r, Parts(va))) then e == Walk(m, r, Parts(va)) && was == data[Address(e)]
        else Address(e) !in data
    ensures Space(w, q, now) && Wrote(m, r, data, w, q, now, va, bytes)
  {
    hide Walk, Address, Valid, Parts, Patched, LastAt, Touched, Added;
    var page := Address(e);
    PieceAdded(m, r, data, w, q, va, e);
    PieceSpace(m, r, data, w, q, now, va, bytes, e, was);
    PartsArePath(va);
    forall y: nat | va <= y < va + |bytes| ensures Mapped(w, q, y) && PageAt(w, q, y) == page
    {
      SamePage(y, va, |bytes|);
    }
    forall x: nat | Mapped(w, q, x) ensures Holds(m, r, data, w, q, now, va, bytes, x) {
      LastInPage(w, q, va, |bytes|, x, page);
      PatchedAt(was, va % PAGE_SIZE, bytes, x % PAGE_SIZE);
      PieceByte(m, r, data, w, q, va, e, was, x);
    }
    TouchedPage(w, q, va, |bytes|, page);
    if bytes == [] { NothingPatched(was, va % PAGE_SIZE); }
  }

  lemma NothingPatched(page: seq<int>, o: nat)
    requires o <= |page|
    ensures Patched(page, o, []) == page
  {
  }

  lemma PieceSpace(m: Tables, r: nat, data: Frames, w: Tables, q: nat, now: Frames, va: nat, bytes: seq<int>, e: nat,
                   was: seq<int>)
    requires Space(m, r, data) && WalksBut(m, r, w, q, Parts(va), e) && Valid(e) && |was| == PAGE_SIZE
    requires va % PAGE_SIZE + |bytes| <= PAGE_SIZE && now == data[Address(e) := Patched(was, va % PAGE_SIZE, bytes)]
    ensures Space(w, q, now)
  {
    hide Walk, Address, Valid, Parts, Patched;
  }

  /** An address that was mapped before, seen from the page that is written. */
  lemma PieceByte(m: Tables, r: nat, data: Frames, w: Tables, q: nat, va: nat, e: nat, was: seq<int>, x: nat)
    requires Space(m, r, data) && WalksBut(m, r, w, q, Parts(va), e) && Valid(e) && Mapped(w, q, x)
    requires if Valid(Walk(m, r, Parts(va))) then e == Walk(m, r, Parts(va)) && Address(e) in data
        && was == data[Address(e)]
             else Address(e) !in data
    ensures Mapped(m, r, x) ==>
        PageAt(w, q, x) == PageAt(m, r, x) && PageAt(m, r, x) in data && |data[PageAt(m, r, x)]| == PAGE_SIZE
    ensures Mapped(m, r, x) && PageAt(w, q, x) == Address(e) ==> was == data[Address(e)]
    ensures !Mapped(m, r, x) ==> PageAt(w, q, x) == Address(e)
  {
    hide Walk, Address, Valid, Parts;
    PartsArePath(x);
    PartsArePath(va);
  }

  lemma SameButHere(m: Tables, r: nat, w: Tables, q: nat, full: seq<nat>)
    requires SameWalks(m, r, w, q) && |full| == 4
    ensures WalksBut(m, r, w, q, full, Walk(w, q, full)) && Walk(m, r, full) == Walk(w, q, full)
  {
    hide Walk;
  }

  lemma SpaceAt(m: Tables, r: nat, data: Frames, full: seq<nat>)
    requires Space(m, r, data) && |full| == 4 && Valid(Walk(m, r, full))
    ensures Address(Walk(m, r, full)) in data && |data[Address(Walk(m, r, full))]| == PAGE_SIZE
  {
    hide Walk, Address, Valid;
  }

  lemma PartsArePath(va: nat)
    ensures Path(Parts(va)) && |Parts(va)| == 4
  {
  }

  // ---------- addresses wrap around ----------

  /** Only the low 48 bits of an address count. */
  lemma PartsWrap(x: nat, k: nat)
    ensures Parts(x + k * U64) == Parts(x) && (x + k * U64) % PAGE_SIZE == x % PAGE_SIZE
  {
    hide Parts;
    assert k * U64 == k * 0x10_0000_0000_0000 * PAGE_SIZE;
    assert (x + k * U64) / PAGE_SIZE == x / PAGE_SIZE + k * 0x1_0000 * 0x10_0000_0000;
    PartsAreThePage(x + k * U64, x);
  }

  lemma {:induction false} LastWrap(m: Tables, r: nat, va: nat, k: nat, n: nat, x: nat)
    ensures LastAt(m, r, va + k * U64, n, x) == LastAt(m, r, va, n, x)
  {
    hide Parts;
    if n > 0 {
      PartsWrap(va + n - 1, k);
      LastWrap(m, r, va, k, n - 1, x);
    }
  }

  lemma {:induction false} TouchedWrap(m: Tables, r: nat, va: nat, k: nat, n: nat)
    ensures Touched(m, r, va + k * U64, n) == Touched(m, r, va, n)
  {
    hide Parts;
    if n > 0 {
      PartsWrap(va + n - 1, k);
      TouchedWrap(m, r, va, k, n - 1);
    }
  }

  lemma WroteWrap(m: Tables, r: nat, data: Frames, w: Tables, q: nat, now: Frames, va: nat, bytes: seq<int>)
    requires Wrote(m, r, data, w, q, now, va % U64, bytes)
    ensures Wrote(m, r, data, w, q, now, va, bytes)
  {
    hide Walk, Parts, LastAt, ByteAt, Touched, Added;
    var k := va / U64;
    assert va == va % U64 + k * U64;
    forall y: nat | va <= y < va + |bytes| ensures Mapped(w, q, y) {
      var z := y - k * U64;
      assert Mapped(w, q, z);
      PartsWrap(z, k);
    }
    forall x: nat | Mapped(w, q, x) ensures Holds(m, r, data, w, q, now, va, bytes, x) {
      LastWrap(w, q, va % U64, k, |bytes|, x);
      assert Holds(m, r, data, w, q, now, va % U64, bytes, x);
    }
    TouchedWrap(w, q, va % U64, k, |bytes|);
  }

  // ---------- what it means when no page is mapped twice ----------

  ghost predicate Single(m: Tables, r: nat) {
    forall x: nat, y: nat :: Mapped(m, r, x) && Mapped(m, r, y) && PageAt(m, r, x) == PageAt(m, r, y) ==>
      Parts(x) == Parts(y)
  }

  /** Then no page is mapped twice afterwards, and exactly the bytes of the range have changed, if the
      range fits user space. */
  lemma WroteSingle(m: Tables, r: nat, data: Frames, w: Tables, q: nat, now: Frames, va: nat, bytes: seq<int>)
    requires Space(m, r, data) && Single(m, r) && Wrote(m, r, data, w, q, now, va, bytes) && va + |bytes| <= USERTOP
    ensures Single(w, q)
    ensures forall x: nat :: x < USERTOP ==>
              if va <= x < va + |bytes| then Mapped(w, q, x) && ByteAt(w, q, now, x) == bytes[x - va]
              else Mapped(m, r, x) ==> Mapped(w, q, x) && ByteAt(w, q, now, x) == ByteAt(m, r, data, x)
  {
    hide Walk, Parts, LastAt, ByteAt, Touched, PageAt, Space, Mapped;
    SingleStill(m, r, data, w, q);
    forall x: nat | x < USERTOP && Mapped(w, q, x)
      ensures if va <= x < va + |bytes| then ByteAt(w, q, now, x) == bytes[x - va]
              else Mapped(m, r, x) ==> ByteAt(w, q, now, x) == ByteAt(m, r, data, x)
    {
      LastSingle(w, q, va, |bytes|, x);
      assert Holds(m, r, data, w, q, now, va, bytes, x);
    }
  }

  lemma SingleStill(m: Tables, r: nat, data: Frames, w: Tables, q: nat)
    requires Space(m, r, data) && Single(m, r) && Added(m, r, data, w, q)
    ensures Single(w, q)
  {
    hide Walk, Parts, PageAt, Space, Mapped;
  }

  lemma {:induction false} LastSingle(m: Tables, r: nat, va: nat, n: nat, x: nat)
    requires Single(m, r) && Mapped(m, r, x) && x < USERTOP && va + n <= USERTOP
    requires forall y: nat :: va <= y < va + n ==> Mapped(m, r, y)
    ensures LastAt(m, r, va, n, x) == if va <= x < va + n then x - va else -1
  {
    hide PageAt, Mapped, Parts;
    if n > 0 {
      LastSingle(m, r, va, n - 1, x);
      OnePlace(va + n - 1, x);
    }
  }

  /** Below the top of user space the indices and the offset determine the address. */
  lemma OnePlace(x: nat, y: nat)
    requires x < USERTOP && y < USERTOP
    ensures Parts(x) == Parts(y) && x % PAGE_SIZE == y % PAGE_SIZE <==> x == y
  {
    hide Parts;
    PartsAreThePage(x, y);
  }

  // ---------- the routine ----------

  /** Lines 136-148: the page that `va` is mapped to, a new one if there is none; `junk` is what a new
      page happens to hold, and `full` means that none was to be had. */
  method PageFor(mem: Memory, dir: PageDir, va: nat, junk: seq<int>)
      returns (ok: bool, full: bool, page: nat, ghost e: nat)
    requires mem.Sane() && mem.Owns(dir) && Space(mem.tables, dir.pt, mem.data) && |junk| == PAGE_SIZE
    modifies mem`tables, mem`data, mem.pool, dir
    ensures mem.Sane() && mem.Owns(dir) && Entries(old(mem.tables), old(dir.pt), mem.tables, dir.pt)
    ensures !ok || full ==>
              mem.pool.free == [] && SameWalks(old(mem.tables), old(dir.pt), mem.tables, dir.pt)
                && mem.data == old(mem.data)
    ensures ok && !full ==>
              && PageTableModel.Valid(e) && page == PageTableModel.Address(e)
              && WalksBut(old(mem.tables), old(dir.pt), mem.tables, dir.pt, Parts(va), e)
              && var was := Walk(old(mem.tables), old(dir.pt), Parts(va));
                 if PageTableModel.Valid(was) then e == was && mem.data == old(mem.data)
                 else page !in old(mem.data) && mem.data == old(mem.data)[page := junk]
  {
    hide Walk, Address, Valid, IsTable, TableOk, HasParent, LinkOk, Frame, Space, WalksBut, SameWalks, Parts, Missing,
      DirOk, Entries, Entry;
    ghost var m, r, parts := mem.tables, dir.pt, Parts(va);
    full, page, e := false, 0, 0;
    var t, i;
    ok, t, i := mem.GetPte(dir, va, true);
    ghost var w, q := mem.tables, dir.pt;
    EntriesSame(m, r, w, q);
    if !ok { return; }
    PlacedTable(w, q, dir.at, t);
    PartsArePath(va);
    SlotSet(w, q, dir.at, t, parts, 0);
    SameButHere(m, r, w, q, parts);
    var pte := mem.tables[t][i];
    e := pte;
    if PageTableModel.Valid(pte) {
      page := PageTableModel.Address(pte);
    } else {
      ghost var free := mem.pool.free;
      page := mem.pool.Take();
      if page == 0 { return true, true, 0, 0; }
      assert page in free;
      e := Entry(page, PTE_USER_DATA);
      UserData(page);
      mem.data := mem.data[page := junk];
      mem.SetPte(dir, va, t, i, Entry(page, PTE_USER_DATA));
      SameThenBut(m, r, w, mem.tables, q, parts, e);
      EntriesBut(m, r, mem.tables, q, parts, e);
    }
  }

  /** The body of the loop: bytes that lie on one page. */
  method CopyPiece(mem: Memory, dir: PageDir, va: nat, bytes: seq<int>, junk: seq<int>) returns (ok: bool, full: bool)
    requires mem.Sane() && mem.Owns(dir) && Space(mem.tables, dir.pt, mem.data) && |junk| == PAGE_SIZE
    requires va % PAGE_SIZE + |bytes| <= PAGE_SIZE
    modifies mem`tables, mem`data, mem.pool, dir
    ensures mem.Sane() && mem.Owns(dir) && Space(mem.tables, dir.pt, mem.data)
    ensures Entries(old(mem.tables), old(dir.pt), mem.tables, dir.pt)
    ensures !ok || full ==>
              mem.pool.free == [] && Wrote(old(mem.tables), old(dir.pt), old(mem.data), mem.tables, dir.pt, mem.data,
                va, [])
    ensures ok && !full ==>
              Wrote(old(mem.tables), old(dir.pt), old(mem.data), mem.tables, dir.pt, mem.data, va, bytes)
  {
    hide Walk, Address, Valid, Frame, Space, WalksBut, SameWalks, Parts, Wrote, Patched, DirOk, Entries;
    ghost var m, r, data, parts := mem.tables, dir.pt, mem.data, Parts(va);
    var page;
    ghost var e;
    ok, full, page, e := PageFor(mem, dir, va, junk);
    if !ok || full {
      WroteNothing(m, r, data, mem.tables, dir.pt, va);
      return;
    }
    PartsArePath(va);
    if PageTableModel.Valid(Walk(m, r, parts)) { SpaceAt(m, r, data, parts); }
    ghost var was := mem.data[page];
    mem.data := mem.data[page := Patched(mem.data[page], va % PAGE_SIZE, bytes)];
    assert mem.data == data[page := Patched(was, va % PAGE_SIZE, bytes)];
    PieceWrote(m, r, data, mem.tables, dir.pt, mem.data, va, bytes, e, was);
  }

  /** A piece after the bytes `done`, which were written from `va` on. */
  method CopyNext(mem: Memory, dir: PageDir, at: nat, piece: seq<int>, junk: seq<int>, ghost m: Tables, ghost r: nat,
                  ghost data: Frames, ghost va: nat, ghost done: seq<int>)
    returns (ok: bool, full: bool)
    requires mem.Sane() && mem.Owns(dir) && Space(mem.tables, dir.pt, mem.data) && |junk| == PAGE_SIZE
    requires at % PAGE_SIZE + |piece| <= PAGE_SIZE && at == (va + |done|) % U64
    requires Wrote(m, r, data, mem.tables, dir.pt, mem.data, va, done) && Entries(m, r, mem.tables, dir.pt)
    modifies mem`tables, mem`data, mem.pool, dir
    ensures mem.Sane() && mem.Owns(dir) && Space(mem.tables, dir.pt, mem.data)
    ensures (!ok || full ==> mem.pool.free == []) && Entries(m, r, mem.tables, dir.pt)
    ensures Wrote(m, r, data, mem.tables, dir.pt, mem.data, va, if ok && !full then done + piece else done)
  {
    hide Walk, Space, Parts, Wrote, DirOk, SameWalks, Entries;
    ghost var w, q, now := mem.tables, dir.pt, mem.data;
    ok, full := CopyPiece(mem, dir, at, piece, junk);
    EntriesOn(m, r, w, q, mem.tables, dir.pt);
    ghost var written := if ok && !full then piece else [];
    WroteWrap(w, q, now, mem.tables, dir.pt, mem.data, va + |done|, written);
    WroteOn(m, r, data, w, q, now, mem.tables, dir.pt, mem.data, va, done, written);
    assert done + [] == done;
  }

  lemma PiecesJoin(s: seq<int>, a: nat, n: nat)
    requires a + n <= |s|
    ensures s[..a] + s[a..a + n] == s[..a + n]
  {
  }

  /** `copyout` of the bytes `p`, or of `len` zeros for a null pointer.  `done` bytes were written; the
      call returns 0 exactly if these are all, and -1 if the range does not fit user space, in the
      64-bit arithmetic of the test, or no page is left. */
  method CopyOut(mem: Memory, dir: PageDir, va: nat, p: seq<int>, zero: bool, len: nat, junk: seq<int>)
    returns (ok: bool, ret: int, ghost done: nat)
    requires mem.Sane() && mem.Owns(dir) && Space(mem.tables, dir.pt, mem.data) && |junk| == PAGE_SIZE
    requires va < U64 && len < U64 && (!zero ==> |p| >= len)
    modifies mem`tables, mem`data, mem.pool, dir
    ensures mem.Sane() && mem.Owns(dir) && Space(mem.tables, dir.pt, mem.data)
    ensures (va + len) % U64 > USERTOP ==>
              ok && ret == -1 && mem.tables == old(mem.tables) && mem.data == old(mem.data) && dir.pt == old(dir.pt)
    ensures (va + len) % U64 <= USERTOP ==>
              && done <= len && (ok && ret == 0 <==> done == len) && (ok ==> ret == 0 || ret == -1)
              && (done < len ==> mem.pool.free == [])
              && Wrote(old(mem.tables), old(dir.pt), old(mem.data), mem.tables, dir.pt, mem.data, va,
                      (if zero then Zeros(len) else p)[..done])
    ensures forall path :: |path| == 4 ==>
              var e, e' := Walk(old(mem.tables), old(dir.pt), path), Walk(mem.tables, dir.pt, path);
              if PageTableModel.Valid(e) then e' == e
              else PageTableModel.Valid(e') ==> e' % PAGE_SIZE == 0x647 && e' / PA_LIMIT == 0
  {
    hide Walk, Address, Valid, Frame, Space, Parts, Wrote, Patched, DirOk, Zeros, SameWalks;
    ghost var m, r, data := mem.tables, dir.pt, mem.data;
    ghost var src := if zero then Zeros(len) else p;
    done := 0;
    WalksSame(m, r);
    EntriesSame(m, r, m, r);
    if (va + len) % U64 > USERTOP { return true, -1, 0; }
    WroteNothing(m, r, data, m, r, va);
    assert src[..0] == [];
    var at, left := va, len;
    while left > 0
      invariant 0 <= left <= len && at == (va + done) % U64 && done == len - left
      invariant mem.Sane() && mem.Owns(dir) && Space(mem.tables, dir.pt, mem.data)
      invariant Wrote(m, r, data, mem.tables, dir.pt, mem.data, va, src[..done])
      invariant Entries(m, r, mem.tables, dir.pt)
    {
      var offset := at % PAGE_SIZE;
      var n := if PAGE_SIZE - offset < left then PAGE_SIZE - offset else left;
      var full;
      var piece := if zero then Zeros(n) else p[len - left..len - left + n];
      ZerosPart(len, len - left, n);
      ok, full := CopyNext(mem, dir, at, piece, junk, m, r, data, va, src[..done]);
      if !ok || full { return ok, -1, done; }
      PiecesJoin(src, done, n);
      NextAt(va + done, n);
      left := left - n;
      at := (at + n) % U64;
      done := done + n;
    }
    return true, 0, done;
  }

  lemma NextAt(x: nat, n: nat)
    ensures (x % U64 + n) % U64 == (x + n) % U64
  {
    assert x == x % U64 + x / U64 * U64;
    Wraps(x % U64 + n, x / U64);
  }

  lemma Wraps(y: nat, k: nat)
    ensures (y + k * U64) % U64 == y % U64
  {
  }

  function Zeros(n: nat): (s: seq<int>)
    ensures |s| == n
  {
    seq(n, _ => 0)
  }

  lemma ZerosPart(len: nat, i: nat, n: nat)
    requires i + n <= len
    ensures Zeros(len)[i..i + n] == Zeros(n)
  {
  }
}
