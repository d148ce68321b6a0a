/** `kernel/pt.c`: page-table walks with allocation, copying an address space, and tearing one down. */
module PageTables {
  import opened Pages
  import opened Sequences
  import opened PageTableModel

  /** A page directory; `at` records the place of each of its tables. */
  class PageDir {
    var pt: nat
    ghost var at: Places

    constructor ()
      ensures pt == 0 && at == map[]
    {
      pt, at := 0, map[];
    }
  }

  /** Page tables and data pages in memory, by physical address, and the pool they come from. */
  class Memory {
    const pool: PagePool
    var tables: Tables
    var data: map<nat, seq<int>>

    constructor (pool: PagePool)
      requires pool.Valid() && forall p :: p in pool.free ==> Frame(p)
      ensures this.pool == pool && tables == map[] && data == map[] && Sane()
    {
      this.pool := pool;
      tables, data := map[], map[];
    }

    /** Free pages are neither tables nor data. */
    ghost predicate Sane()
      reads this, pool
    {
      && pool.Valid() && 0 !in tables && (forall t :: t in tables ==> t !in data)
      && forall p :: p in pool.free ==> Frame(p) && p !in tables && p !in data
    }

    ghost predicate Owns(dir: PageDir)
      reads this, dir
    {
      DirOk(tables, dir.pt, dir.at)
    }

    /** `kalloc_page` and `memset`; 0 if the pool is empty (the program then writes through a null
        pointer). */
    method NewTable() returns (p: nat)
      requires Sane()
      modifies pool, `tables
      ensures Sane()
      ensures p == 0 <==> old(pool.free) == []
      ensures p == 0 ==> tables == old(tables) && pool.free == [] && pool.taken == old(pool.taken) + 1
      ensures p != 0 ==>
                && old(pool.free) != [] && p == old(pool.free)[0] && pool.free == old(pool.free)[1..]
                && pool.taken == old(pool.taken) + 1 && Frame(p) && p !in old(tables) && p !in data
                && tables == old(tables)[p := ZeroTable()]
    {
      hide Frame;
      p := pool.Take();
      if p != 0 {
        assert p in old(pool.free);
        tables := tables[p := ZeroTable()];
      }
    }

    /** Lines 34-43: a new table for the invalid entry `i` of table `t`. */
    method AddTable(dir: PageDir, t: nat, i: nat) returns (p: nat)
      requires Sane() && Owns(dir) && t in dir.at && |dir.at[t]| <= 2 && i < N_PTE
      requires t in tables && |tables[t]| == N_PTE && !PageTableModel.Valid(tables[t][i])
      modifies this`tables, pool, dir`at
      ensures Sane() && Owns(dir) && Grown(dir) && (p == 0 <==> old(pool.free) == [])
      ensures p == 0 ==> pool.free == [] && Overdrawn()
      ensures p != 0 ==>
                && |pool.free| + 1 == |old(pool.free)| && Counted() && p in dir.at && dir.at[p] == old(dir.at)[t] + [i]
                && p in tables && tables[p] == ZeroTable()
    {
      hide Walk, Address, Valid, IsTable, HasParent, TableOk, Frame, Descend, SameWalks, Grew;
      ghost var m, root, at, free := tables, dir.pt, dir.at, pool.free;
      p := NewTable();
      if p == 0 {
        GrewStart(m, root, at, free);
        return 0;
      }
      TableAdded(m, root, at, t, i, p);
      WalksAdded(m, root, at, t, i, p);
      GrewByTable(m, root, at, t, i, p, free);
      var table: seq<nat> := tables[t][i := Entry(p, PTE_TABLE)];
      tables := tables[t := table];
      dir.at := dir.at[p := dir.at[t] + [i]];
      assert tables == WithTable(m, t, i, p);
    }

    /** Lines 30-47 with `alloc`: follow entry `i` of table `t`, adding a table if there is none. */
    method NextTable(dir: PageDir, t: nat, i: nat, ghost rest: seq<nat>) returns (c: nat)
      requires Sane() && Owns(dir) && t in dir.at && |dir.at[t]| <= 2 && i < N_PTE
      modifies this`tables, pool, dir`at
      ensures Sane() && Owns(dir) && Grown(dir)
      ensures c == 0 ==> Overdrawn() && pool.free == [] && Missing(old(tables), t, [i] + rest) > |old(pool.free)|
      ensures t in old(tables) && i < |old(tables)[t]| && PageTableModel.Valid(old(tables)[t][i]) ==>
                && c != 0 && tables == old(tables) && dir.at == old(dir.at) && pool.free == old(pool.free)
                && pool.taken == old(pool.taken)
      ensures c != 0 ==>
                && Counted() && c in dir.at && dir.at[c] == old(dir.at)[t] + [i]
                && Missing(tables, c, rest) + |old(pool.free)| - |pool.free| == Missing(old(tables), t, [i] + rest)
    {
      hide Walk, Address, IsTable, HasParent, LinkOk, Frame, Descend, Grew, SameWalks, TableOk, DirOk, Missing;
      ghost var m, root, at := tables, dir.pt, dir.at;
      PlacedTable(m, root, at, t);
      MissingStep(m, t, i, rest);
      if !PageTableModel.Valid(tables[t][i]) {
        c := AddTable(dir, t, i);
        if c != 0 { ZeroMissing(tables, c, rest); }
      } else {
        LinkIn(m, root, at, t, i);
        GrewStart(m, root, at, pool.free);
        c := PageTableModel.Address(tables[t][i]);
      }
    }

    twostate predicate Counted()
      reads pool
    {
      |pool.free| - old(|pool.free|) == old(pool.taken) - pool.taken
    }

    /** The same, but `kalloc_page` was also called in vain, which it counts too. */
    twostate predicate Overdrawn()
      reads pool
    {
      |pool.free| - old(|pool.free|) == old(pool.taken) - pool.taken + 1
    }

    /** Tables were only added to `dir`, from the pool; no translation changed, and nothing else. */
    twostate predicate Grown(dir: PageDir)
      reads this, pool, dir
    {
      && Grew(old(tables), old(dir.pt), old(dir.at), old(pool.free), tables, dir.pt, dir.at, pool.free)
      && data == old(data)
    }

    /** Lines 17-23: the top-level table. */
    method NeedRoot(dir: PageDir)
      requires Sane() && Owns(dir) && dir.pt == 0
      modifies this`tables, pool, dir
      ensures Sane() && Owns(dir) && Grown(dir) && (dir.pt == 0 <==> old(pool.free) == [])
      ensures dir.pt == 0 ==> pool.free == [] && Overdrawn()
      ensures dir.pt != 0 ==>
          |pool.free| + 1 == |old(pool.free)| && Counted() && dir.pt in tables && tables[dir.pt] == ZeroTable()
    {
      hide Walk, Address, Valid, IsTable, Frame, Descend, SameWalks;
      ghost var m := tables;
      var p := NewTable();
      if p == 0 {
        WalksSame(m, 0);
        return;
      }
      dir.pt := p;
      dir.at := map[p := []];
      FirstTable(m, p);
    }

    /** The number of tables that translating `va` takes in addition. */
    ghost function Need(dir: PageDir, va: nat): nat
      reads this, dir
    {
      if dir.pt == 0 then 4 else Missing(tables, dir.pt, Parts(va)[..3])
    }

    /** Table `t` is the last-level table of `va`. */
    ghost predicate IsSlot(dir: PageDir, va: nat, t: nat, i: nat)
      reads dir
    {
      t in dir.at && dir.at[t] == Parts(va)[..3] && i == Parts(va)[3]
    }

    /** `get_pte`: table and index of the slot of `va`, or (0, 0) for the null pointer.  With `alloc`
        it stops (`ok` false) exactly if the pool cannot supply the missing tables. */
    method GetPte(dir: PageDir, va: nat, alloc: bool) returns (ok: bool, t: nat, i: nat)
      requires Sane() && Owns(dir)
      modifies this`tables, pool, dir
      ensures Sane() && Owns(dir) && Grown(dir)
      ensures alloc ==> (ok <==> old(Need(dir, va)) <= |old(pool.free)|) && (!ok ==> pool.free == [] && Overdrawn())
      ensures ok && alloc ==> IsSlot(dir, va, t, i) && |pool.free| + old(Need(dir, va)) == |old(pool.free)| && Counted()
      ensures !alloc ==>
                && ok && tables == old(tables) && dir.pt == old(dir.pt) && dir.at == old(dir.at)
                && pool.free == old(pool.free) && pool.taken == old(pool.taken)
                && (if Need(dir, va) == 0 then IsSlot(dir, va, t, i) else t == 0)
    {
      hide Walk, Address, IsTable, HasParent, LinkOk, Frame, Descend, SameWalks, Grew, TableOk, Parts, Missing;
      ghost var m, root, at, free, taken := tables, dir.pt, dir.at, pool.free, pool.taken;
      GrewStart(m, root, at, free);
      ok, t, i := true, 0, 0;
      if dir.pt == 0 && alloc {
        NeedRoot(dir);
        if dir.pt == 0 { return false, 0, 0; }
        MissingZero(tables, dir.pt, Parts(va)[..3]);
      }
      if dir.pt == 0 { return; }
      var idx := Parts(va);
      t := dir.pt;
      var level := 0;
      assert idx[level..3] == idx[..3] && idx[..level] == [];
      while level < 3
        invariant 0 <= level <= 3 && Sane() && Owns(dir) && t in dir.at && dir.at[t] == idx[..level]
        invariant Grew(m, root, at, free, tables, dir.pt, dir.at, pool.free) && data == old(data)
        invariant Missing(tables, t, idx[level..3]) + |free| - |pool.free| == old(Need(dir, va))
        invariant |pool.free| - |free| == taken - pool.taken
        invariant !alloc ==> tables == m && dir.pt == root && dir.at == at && pool.free == free && pool.taken == taken
      {
        PlacedTable(tables, dir.pt, dir.at, t);
        assert idx[level..3] == [idx[level]] + idx[level + 1..3];
        if !PageTableModel.Valid(tables[t][idx[level]]) && !alloc {
          MissingHere(tables, t, idx[level..3]);
          return true, 0, 0;
        }
        ghost var m1, at1, free1 := tables, dir.at, pool.free;
        var c := NextTable(dir, t, idx[level], idx[level + 1..3]);
        GrewOn(m, root, at, free, m1, dir.pt, at1, free1, tables, dir.pt, dir.at, pool.free);
        if c == 0 { return false, 0, 0; }
        t := c;
        level := level + 1;
      }
      assert idx[3..3] == [];
      MissingNothing(tables, t);
      return true, t, idx[3];
    }

    /** The pages of `gone` went back to the pool, each once, and nothing else. */
    twostate predicate GaveBack(gone: set<nat>)
      reads this, pool
    {
      && Sane() && tables == old(tables) - gone && Counted()
      && forall p :: p in pool.free <==> p in old(pool.free) || p in gone
    }

    /** `free_pagetable`: the tables below table `t`, which is at depth `level`.  At depth 4 there are
        no tables any more, and the entries of depth 3 lead to pages that stay. */
    method FreeTable(t: nat, level: nat, ghost m0: Tables, ghost root: nat, ghost at: Places)
      requires Sane() && DirOk(m0, root, at) && level <= 4
      requires level < 4 ==> t in at && |at[t]| == level && Intact(tables, m0, at, at[t])
      modifies `tables, pool
      ensures GaveBack(if level < 4 then Below(at, at[t]) else {})
      decreases 4 - level, 1
    {
      hide Address, Valid, IsTable, HasParent, Frame, LinkOk, Below, Part;
      assert tables - {} == tables;
      if level == 4 { return; }
      PartAll(m0, root, at, t);
      var i := 0;
      while i < N_PTE
        invariant 0 <= i <= N_PTE && GaveBack(Part(at, at[t], i))
      {
        ghost var m := tables;
        IntactStill(old(tables), m0, at, t, i, m);
        ghost var gone := FreeEntry(t, level, i, m0, root, at);
        TwoGone(old(tables), Part(at, at[t], i), gone);
        i := i + 1;
      }
    }

    /** The body of the loop: what entry `i` leads to, unless that is a data page. */
    method FreeEntry(t: nat, level: nat, i: nat, ghost m0: Tables, ghost root: nat, ghost at: Places)
      returns (ghost gone: set<nat>)
      requires Sane() && DirOk(m0, root, at) && level < 4 && i < N_PTE && t in at && |at[t]| == level
      requires t in tables && t in m0 && tables[t] == m0[t]
      requires forall c :: c in at && at[c] == at[t] + [i] ==> Intact(tables, m0, at, at[c])
      modifies `tables, pool
      ensures GaveBack(gone) && Part(at, at[t], i + 1) == Part(at, at[t], i) + gone
      decreases 4 - level, 0
    {
      hide Address, Valid, IsTable, HasParent, Frame, LinkOk, Below, Part;
      assert tables - {} == tables;
      assert TableOk(m0, at, t);
      gone := {};
      var pte := tables[t][i];
      if PageTableModel.Valid(pte) {
        if level < 3 { LinkAt(m0, at, t, i); }
        if IsTable(pte) {
          var next := PageTableModel.Address(pte);
          FreeTable(next, level + 1, m0, root, at);
          if level <= 2 {
            PartNext(m0, root, at, t, i, next);
            gone := Below(at, at[next]) + {next};
            TwoGone(old(tables), Below(at, at[next]), {next});
            assert TableOk(m0, at, next);
            Release(next);
          }
        }
      } else {
        PartNothing(m0, root, at, t, i);
      }
      if level == 3 { LeafBelow(m0, root, at, t); }
    }

    /** `kfree_page` of a table */
    method Release(t: nat)
      requires Sane() && t in tables && Frame(t)
      modifies `tables, pool
      ensures GaveBack({t})
    {
      hide Frame;
      FrameIsPage(t);
      pool.Give(t);
      tables := tables - {t};
    }

    /** `free_pgdir`: every table of the directory goes back to the pool, and no data page. */
    method FreePgdir(dir: PageDir)
      requires Sane() && Owns(dir)
      modifies `tables, pool, dir
      ensures GaveBack(old(dir.at.Keys)) && dir.pt == 0 && dir.at == map[] && Owns(dir) && data == old(data)
    {
      hide Address, Valid, IsTable, HasParent, Frame, LinkOk, Below, Part, TableOk;
      if dir.pt == 0 {
        assert dir.at.Keys == {} && tables - {} == tables;
        return;
      }
      ghost var m, root, at := tables, dir.pt, dir.at;
      TablesThere(m, root, at);
      FreeTable(dir.pt, 0, m, root, at);
      BelowRoot(m, root, at);
      TwoGone(m, Below(at, []), {root});
      Release(dir.pt);
      dir.pt := 0;
      dir.at := map[];
    }

    /** `*pte = e` on the slot that `get_pte` returned. */
    method SetPte(dir: PageDir, va: nat, t: nat, i: nat, e: nat)
      requires Sane() && Owns(dir) && IsSlot(dir, va, t, i)
      modifies `tables
      ensures Sane() && Owns(dir) && t in old(tables) && i < |old(tables)[t]|
          && tables == WithEntry(old(tables), t, i, e)
      ensures WalksBut(old(tables), dir.pt, tables, dir.pt, Parts(va), e)
    {
      hide Walk, Address, Valid, IsTable, TableOk, HasParent, Frame, WalksBut;
      PlacedTable(tables, dir.pt, dir.at, t);
      SlotSet(tables, dir.pt, dir.at, t, Parts(va), e);
      var table: seq<nat> := tables[t][i := e];
      tables := tables[t := table];
    }

    /** `vmmap`: page number of `va` is translated to `pa` with `flags`, no other translation changes. */
    method VmMap(dir: PageDir, va: nat, pa: nat, flags: nat) returns (ok: bool)
      requires Sane() && Owns(dir)
      modifies this`tables, pool, dir
      ensures Sane() && Owns(dir) && data == old(data) && (ok <==> old(Need(dir, va)) <= |old(pool.free)|)
      ensures ok ==> WalksBut(old(tables), old(dir.pt), tables, dir.pt, Parts(va), Entry(pa, flags))
      ensures ok && Frame(pa) && Attributes(flags) ==>
                var e := Walk(tables, dir.pt, Parts(va));
                Address(e) == pa && e % PAGE_SIZE == flags % PAGE_SIZE && e / PA_LIMIT == flags / PA_LIMIT
      ensures ok ==> |pool.free| + old(Need(dir, va)) == |old(pool.free)| && Counted()
      ensures !ok ==> Overdrawn()
      ensures Stock(old(dir.at), old(pool.free), dir.at, pool.free) && Apart(old(tables), old(dir.at), tables, dir.at)
    {
      hide Walk, Address, Valid, IsTable, TableOk, HasParent, Frame, WalksBut, SameWalks, Parts, Missing;
      ghost var m, r := tables, dir.pt;
      var t, i;
      ok, t, i := GetPte(dir, va, true);
      GrewStock(old(tables), old(dir.pt), old(dir.at), old(pool.free), tables, dir.pt, dir.at, pool.free);
      GrewApart(old(tables), old(dir.pt), old(dir.at), old(pool.free), tables, dir.pt, dir.at, pool.free);
      if !ok { return; }
      ghost var w := tables;
      SetPte(dir, va, t, i, Entry(pa, flags));
      SameThenBut(m, r, w, tables, dir.pt, Parts(va), Entry(pa, flags));
      ButHere(m, r, tables, dir.pt, Parts(va), Entry(pa, flags));
      if Frame(pa) && Attributes(flags) { EntryFields(pa, flags); }
    }

    /** One page of `uvmcopy`: lines 196-209. */
    method CopyPage(src: PageDir, dst: PageDir, path: seq<nat>, pa: nat) returns (ok: bool, ghost np: nat)
      requires Sane() && Owns(src) && Owns(dst) && src != dst && src.pt != 0 && dst.pt != 0
      requires src.at.Keys !! dst.at.Keys && Path(path) && pa in data
      modifies this`tables, this`data, pool, dst
      ensures Sane() && Owns(src) && Owns(dst) && dst.pt == old(dst.pt) && src.at.Keys !! dst.at.Keys
      ensures SameWalks(old(tables), src.pt, tables, src.pt) && (!ok ==> pool.free == [])
      ensures forall t :: t in src.at && t in old(tables) ==> t in tables && tables[t] == old(tables)[t]
      ensures ok ==>
                && np !in old(data) && data == old(data)[np := old(data)[pa]] && Frame(np)
                && WalksBut(old(tables), dst.pt, tables, dst.pt, path, Entry(np, PTE_USER_DATA))
    {
      hide Walk, Address, Valid, IsTable, TableOk, HasParent, Frame, WalksBut, SameWalks, Parts, Missing;
      ghost var m := tables;
      WalksSame(m, src.pt);
      var page := pool.Take();
      if page == 0 { return false, 0; }
      np := page;
      assert page in old(pool.free);
      data := data[page := data[pa]];
      PartsOfVa(path);
      var t, i;
      TablesHere(m, src.pt, src.at);
      ok, t, i := GetPte(dst, VaOf(path), true);
      ghost var w := tables;
      DirElsewhere(m, src.pt, src.at, w);
      if !ok { return false, np; }
      SetPte(dst, VaOf(path), t, i, Entry(page, PTE_USER_DATA));
      DirElsewhere(m, src.pt, src.at, tables);
      SameThenBut(m, dst.pt, w, tables, dst.pt, path, Entry(page, PTE_USER_DATA));
    }

    /** Source and target of a copy are in order and share no table; `cp` is what was copied so far. */
    ghost predicate Copies(src: PageDir, dst: PageDir, data0: map<nat, seq<int>>, cp: map<seq<nat>, nat>)
      reads this, pool, src, dst
    {
      && Sane() && Owns(src) && Owns(dst) && src != dst && src.pt != 0 && dst.pt != 0 && src.at.Keys !! dst.at.Keys
      && Backed(tables, src.pt, data0) && Copying(tables, src.pt, dst.pt, data0, data, cp)
    }

    /** The source is as before. */
    twostate predicate SourceSame(src: PageDir)
      reads this, src
    {
      && src.pt == old(src.pt) && src.at == old(src.at) && SameWalks(old(tables), src.pt, tables, src.pt)
      && forall t :: t in src.at && t in old(tables) ==> t in tables && tables[t] == old(tables)[t]
    }

    /** Entry `i` of the source table `t`, which has the place `prefix`: a page to copy, a table to go
        into, or nothing. */
    method CopyEntry(src: PageDir, dst: PageDir, t: nat, prefix: seq<nat>, i: nat, ghost data0: map<nat, seq<int>>,
                     ghost cp: map<seq<nat>, nat>) returns (ok: bool, ghost cq: map<seq<nat>, nat>)
      requires Copies(src, dst, data0, cp) && t in src.at && src.at[t] == prefix && |prefix| <= 3 && i < N_PTE
      requires forall path :: path in cp ==> !(prefix + [i] <= path)
      modifies this`tables, this`data, pool, dst
      ensures SourceSame(src) && (!ok ==> pool.free == [])
      ensures ok ==> Copies(src, dst, data0, cq) && CopiedBelow(tables, src.pt, prefix + [i], cp, cq)
      decreases 4 - |prefix|, 0
    {
      hide Walk, Address, Valid, IsTable, HasParent, Frame, SameWalks, Grew, Backed, Copying, CopiedBelow, LinkOk;
      ghost var m, root, at := tables, src.pt, src.at;
      TablesHere(m, root, at);
      assert TableOk(m, at, t);
      var pte := tables[t][i];
      ok, cq := true, cp;
      WalksSame(m, root);
      if !PageTableModel.Valid(pte) {
        NothingBelow(m, root, at, t, i, cp);
      } else if |prefix| == 3 {
        var path := prefix + [i];
        LeafWalk(m, root, at, t, i);
        BackedAt(m, root, data0, path, data, dst.pt, cp);
        ghost var np;
        ok, np := CopyPage(src, dst, path, PageTableModel.Address(pte));
        if ok {
          cq := cp[path := np];
          OneCopied(m, tables, root, dst.pt, data0, old(data), data, cp, path, np);
        }
      } else {
        LinkAt(m, at, t, i);
        ok, cq := CopyBelow(src, dst, PageTableModel.Address(pte), prefix + [i], data0, cp);
      }
    }

    /** The loop over the entries of one source table; the program writes the four levels out as four
        nested loops. */
    method CopyBelow(src: PageDir, dst: PageDir, t: nat, prefix: seq<nat>, ghost data0: map<nat, seq<int>>,
                     ghost cp: map<seq<nat>, nat>) returns (ok: bool, ghost cq: map<seq<nat>, nat>)
      requires Copies(src, dst, data0, cp) && t in src.at && src.at[t] == prefix && |prefix| <= 3
      requires forall path :: path in cp ==> !(prefix <= path)
      modifies this`tables, this`data, pool, dst
      ensures SourceSame(src) && (!ok ==> pool.free == [])
      ensures ok ==> Copies(src, dst, data0, cq) && CopiedBelow(tables, src.pt, prefix, cp, cq)
      decreases 4 - |prefix|, 1
    {
      hide Walk, Address, Valid, IsTable, HasParent, Frame, SameWalks, Grew, Backed, Copying, CopiedBelow, TableOk,
        CopiedPart;
      ghost var m := tables;
      WalksSame(m, src.pt);
      ok, cq := true, cp;
      PartStart(m, src.pt, prefix, cp);
      var i := 0;
      while i < N_PTE
        invariant 0 <= i <= N_PTE && Copies(src, dst, data0, cq) && SourceSame(src)
        invariant CopiedPart(m, src.pt, prefix, i, cp, cq)
      {
        ghost var w, cr := tables, cq;
        PartAhead(m, src.pt, prefix, i, cp, cq);
        ok, cq := CopyEntry(src, dst, t, prefix, i, data0, cq);
        WalksOn(m, w, tables, src.pt);
        if !ok { return; }
        PartOn(m, tables, src.pt, prefix, i, cp, cr, cq);
        i := i + 1;
      }
      PartEnd(m, tables, src.pt, prefix, cp, cq);
    }

    /** `uvmcopy`: a new directory that maps exactly the same page numbers, each to a page of its own
        with the same contents; the source is untouched.  It stops (`ok` false) if the pool is empty. */
    method UvmCopy(src: PageDir) returns (ok: bool, dst: PageDir, ghost cp: map<seq<nat>, nat>)
      requires Sane() && Owns(src) && src.pt != 0 && Backed(tables, src.pt, data)
      modifies this`tables, this`data, pool
      ensures fresh(dst) && SourceSame(src) && (!ok ==> pool.free == [])
      ensures ok ==> Copies(src, dst, old(data), cp)
      ensures ok ==> forall path :: path in cp <==> Path(path) && PageTableModel.Valid(Walk(old(tables), src.pt, path))
      ensures ok ==> forall path :: path in cp ==>
                var e := Walk(tables, dst.pt, path);
                && Address(e) == cp[path] && e % PAGE_SIZE == 0x647 && e / PA_LIMIT == 0
                && cp[path] !in old(data) && cp[path] in data
                && data[cp[path]] == old(data)[Address(Walk(old(tables), src.pt, path))]
      ensures ok ==> forall a, b :: a in cp && b in cp && a != b ==> cp[a] != cp[b]
      ensures ok ==> forall path :: |path| == 4 && path !in cp ==> Walk(tables, dst.pt, path) == 0
      ensures ok ==> forall p :: p in old(data) ==> p in data && data[p] == old(data)[p]
    {
      hide Walk, Address, Valid, IsTable, HasParent, Frame, SameWalks, Backed, Copying, CopiedBelow, TableOk;
      ghost var m, root, at, data0 := tables, src.pt, src.at, data;
      cp := map[];
      WalksSame(m, root);
      TablesHere(m, root, at);
      dst := new PageDir();
      EmptyDir(m);
      NeedRoot(dst);
      ghost var w := tables;
      DirElsewhere(m, root, at, w);
      if dst.pt == 0 { return false, dst, cp; }
      CopyStart(m, w, root, dst.pt, data0);
      ok, cp := CopyBelow(src, dst, src.pt, [], data0, cp);
      WalksOn(m, w, tables, root);
      if ok {
        AllCopied(m, tables, root, cp);
        UserPages(m, tables, root, dst.pt, data0, data, cp);
      }
    }
  }

  // ---------- copying ----------

  /** Every page the source maps has contents. */
  ghost predicate Backed(m: Tables, r: nat, data: map<nat, seq<int>>) {
    forall path :: |path| == 4 && Valid(Walk(m, r, path)) ==> Address(Walk(m, r, path)) in data
  }

  /** Exactly the page numbers in `cp` are mapped by the copy, each to the fresh page given there,
      with the contents of the source's page; no page is used twice and no old page changed. */
  ghost predicate Copying(m: Tables, r: nat, q: nat, data0: map<nat, seq<int>>, data: map<nat, seq<int>>,
                          cp: map<seq<nat>, nat>) {
    && (forall path :: path in cp ==> PageCopied(m, r, q, data0, data, path, cp[path]))
    && (forall path :: |path| == 4 && path !in cp ==> Walk(m, q, path) == 0)
    && (forall a, b :: a in cp && b in cp && cp[a] == cp[b] ==> a == b)
    && (forall p :: p in data0 ==> p in data && data[p] == data0[p])
  }

  ghost predicate PageCopied(m: Tables, r: nat, q: nat, data0: map<nat, seq<int>>, data: map<nat, seq<int>>,
                             path: seq<nat>, np: nat) {
    && Path(path) && Valid(Walk(m, r, path)) && Walk(m, q, path) == Entry(np, PTE_USER_DATA) && Frame(np)
    && Address(Walk(m, r, path)) in data0 && np !in data0
    && np in data && data[np] == data0[Address(Walk(m, r, path))]
  }

  ghost predicate CopiedBelow(m: Tables, r: nat, prefix: seq<nat>, cp: map<seq<nat>, nat>, cq: map<seq<nat>, nat>) {
    forall path :: path in cq <==> path in cp || (Path(path) && prefix <= path && Valid(Walk(m, r, path)))
  }

  ghost predicate CopiedPart(m: Tables, r: nat, prefix: seq<nat>, i: nat, cp: map<seq<nat>, nat>, cq: map<seq<nat>,
      nat>) {
    forall path :: path in cq <==>
      path in cp || (Path(path) && prefix < path && path[|prefix|] < i && Valid(Walk(m, r, path)))
  }

  lemma PartStart(m: Tables, r: nat, prefix: seq<nat>, cp: map<seq<nat>, nat>)
    ensures CopiedPart(m, r, prefix, 0, cp, cp)
  {
  }

  lemma PartAhead(m: Tables, r: nat, prefix: seq<nat>, i: nat, cp: map<seq<nat>, nat>, cq: map<seq<nat>, nat>)
    requires CopiedPart(m, r, prefix, i, cp, cq) && forall path :: path in cp ==> !(prefix <= path)
    ensures forall path :: path in cq ==> !(prefix + [i] <= path)
  {
    hide Walk, Valid;
    forall path: seq<nat> ensures prefix + [i] <= path ==> prefix <= path && |path| > |prefix| && path[|prefix|] == i {}
  }

  lemma PartOn(m: Tables, w: Tables, r: nat, prefix: seq<nat>, i: nat, cp: map<seq<nat>, nat>, cr: map<seq<nat>, nat>,
               cq: map<seq<nat>, nat>)
    requires CopiedPart(m, r, prefix, i, cp, cr) && CopiedBelow(w, r, prefix + [i], cr, cq) && SameWalks(m, r, w, r)
    ensures CopiedPart(m, r, prefix, i + 1, cp, cq)
  {
    hide Walk, Valid;
    forall path: seq<nat> | Path(path) ensures prefix + [i] <= path <==> prefix < path && path[|prefix|] == i {
      if prefix < path && path[|prefix|] == i { assert path[..|prefix| + 1] == prefix + [i]; }
    }
  }

  lemma PartEnd(m: Tables, w: Tables, r: nat, prefix: seq<nat>, cp: map<seq<nat>, nat>, cq: map<seq<nat>, nat>)
    requires CopiedPart(m, r, prefix, N_PTE, cp, cq) && SameWalks(m, r, w, r) && |prefix| <= 3
    ensures CopiedBelow(w, r, prefix, cp, cq)
  {
    hide Walk, Valid;
  }

  lemma WalksOn(m: Tables, w: Tables, x: Tables, r: nat)
    requires SameWalks(m, r, w, r) && SameWalks(w, r, x, r)
    ensures SameWalks(m, r, x, r)
  {
    hide Walk;
  }

  /** A walk through table `t` starts at `t`. */
  lemma {:induction false} WalkThrough(m: Tables, u: nat, pre: seq<nat>, rest: seq<nat>)
    requires rest != [] && Descend(m, u, pre) != 0
    ensures Walk(m, u, pre + rest) == Walk(m, Descend(m, u, pre), rest)
    decreases |pre|
  {
    if pre == [] {
      assert pre + rest == rest;
    } else {
      assert (pre + rest)[1..] == pre[1..] + rest && (pre + rest)[0] == pre[0];
      WalkThrough(m, Address(m[u][pre[0]]), pre[1..], rest);
    }
  }

  lemma PlaceWalk(m: Tables, root: nat, at: Places, t: nat, rest: seq<nat>)
    requires DirOk(m, root, at) && t in at && rest != []
    ensures Walk(m, root, at[t] + rest) == Walk(m, t, rest)
  {
    hide Walk, Descend, Address, Valid, HasParent, LinkOk;
    assert TableOk(m, at, t) && root in at;
    assert [] + at[t] == at[t];
    DescendPlace(m, root, at, t, root, at[t]);
    WalkThrough(m, root, at[t], rest);
  }

  lemma LeafWalk(m: Tables, root: nat, at: Places, t: nat, i: nat)
    requires DirOk(m, root, at) && t in at && |at[t]| == 3 && i < N_PTE
    ensures t in m && |m[t]| == N_PTE && Walk(m, root, at[t] + [i]) == m[t][i] && Path(at[t] + [i])
  {
    hide Descend, Address, Valid, HasParent, LinkOk;
    assert TableOk(m, at, t);
    PlaceWalk(m, root, at, t, [i]);
  }

  lemma NothingBelow(m: Tables, root: nat, at: Places, t: nat, i: nat, cp: map<seq<nat>, nat>)
    requires DirOk(m, root, at) && t in at && t in m && i < |m[t]| && !Valid(m[t][i])
    ensures CopiedBelow(m, root, at[t] + [i], cp, cp)
  {
    hide Descend, Address, HasParent, LinkOk, IsTable;
    assert TableOk(m, at, t);
    forall path | Path(path) && at[t] + [i] <= path ensures !Valid(Walk(m, root, path)) {
      var rest := path[|at[t]|..];
      assert path == at[t] + rest && rest[0] == i;
      PlaceWalk(m, root, at, t, rest);
    }
  }

  lemma BackedAt(m: Tables, r: nat, data0: map<nat, seq<int>>, path: seq<nat>, data: map<nat, seq<int>>, q: nat,
                 cp: map<seq<nat>, nat>)
    requires Backed(m, r, data0) && Path(path) && Valid(Walk(m, r, path)) && Copying(m, r, q, data0, data, cp)
    ensures Address(Walk(m, r, path)) in data0 && Address(Walk(m, r, path)) in data
    ensures data[Address(Walk(m, r, path))] == data0[Address(Walk(m, r, path))]
  {
    hide Walk, Address, Valid;
  }

  /** What was copied, spelled out. */
  lemma UserPages(m: Tables, w: Tables, r: nat, q: nat, data0: map<nat, seq<int>>, data: map<nat, seq<int>>,
                  cp: map<seq<nat>, nat>)
    requires SameWalks(m, r, w, r) && Copying(w, r, q, data0, data, cp)
    ensures forall path :: path in cp ==>
              var e := Walk(w, q, path);
              && Address(e) == cp[path] && e % PAGE_SIZE == 0x647 && e / PA_LIMIT == 0
              && Address(Walk(m, r, path)) in data0 && cp[path] !in data0 && cp[path] in data
              && data[cp[path]] == data0[Address(Walk(m, r, path))]
    ensures forall a, b :: a in cp && b in cp && a != b ==> cp[a] != cp[b]
    ensures forall path :: |path| == 4 && path !in cp ==> Walk(w, q, path) == 0
    ensures forall p :: p in data0 ==> p in data && data[p] == data0[p]
  {
    hide Walk, Address, Valid, Entry, Frame;
    forall path | path in cp
      ensures var e := Walk(w, q, path);
              && Address(e) == cp[path] && e % PAGE_SIZE == 0x647 && e / PA_LIMIT == 0
              && Address(Walk(m, r, path)) in data0 && cp[path] !in data0 && cp[path] in data
              && data[cp[path]] == data0[Address(Walk(m, r, path))]
    {
      UserData(cp[path]);
    }
  }

  lemma OneCopied(m: Tables, w: Tables, r: nat, q: nat, data0: map<nat, seq<int>>, data: map<nat, seq<int>>,
                  more: map<nat, seq<int>>, cp: map<seq<nat>, nat>, path: seq<nat>, np: nat)
    requires Copying(m, r, q, data0, data, cp) && Backed(m, r, data0) && Path(path) && path !in cp
    requires SameWalks(m, r, w, r) && WalksBut(m, q, w, q, path, Entry(np, PTE_USER_DATA)) && Valid(Walk(m, r, path))
    requires Address(Walk(m, r, path)) in data && np !in data && Frame(np)
        && more == data[np := data[Address(Walk(m, r, path))]]
    ensures Copying(w, r, q, data0, more, cp[path := np]) && Backed(w, r, data0)
    ensures CopiedBelow(w, r, path, cp, cp[path := np])
  {
    hide Walk, Address, Valid, Frame, Entry, PageCopied;
    var cq := cp[path := np];
    NewCopied(m, w, r, q, data0, data, more, cp, path, np);
    forall p | p in cp ensures PageCopied(w, r, q, data0, more, p, cp[p]) {
      StillCopied(m, w, r, q, data0, data, more, path, np, p, cp[p]);
    }
    assert forall p :: p in cq ==> PageCopied(w, r, q, data0, more, p, cq[p]);
    forall p | |p| == 4 && p !in cq ensures Walk(w, q, p) == 0 { assert p !in cp && Walk(m, q, p) == 0; }
    CopiesApart(m, r, q, data0, data, cp, np);
    forall p | Path(p) && path <= p ensures p == path {}
  }

  lemma NewCopied(m: Tables, w: Tables, r: nat, q: nat, data0: map<nat, seq<int>>, data: map<nat, seq<int>>,
                  more: map<nat, seq<int>>, cp: map<seq<nat>, nat>, path: seq<nat>, np: nat)
    requires Copying(m, r, q, data0, data, cp) && Backed(m, r, data0) && Path(path)
    requires SameWalks(m, r, w, r) && WalksBut(m, q, w, q, path, Entry(np, PTE_USER_DATA)) && Valid(Walk(m, r, path))
    requires Address(Walk(m, r, path)) in data && np !in data && Frame(np)
        && more == data[np := data[Address(Walk(m, r, path))]]
    ensures PageCopied(w, r, q, data0, more, path, np) && Backed(w, r, data0)
    ensures forall p :: p in data0 ==> p in more && more[p] == data0[p]
  {
    hide Walk, Address, Valid, Frame, Entry;
  }

  lemma StillCopied(m: Tables, w: Tables, r: nat, q: nat, data0: map<nat, seq<int>>, data: map<nat, seq<int>>,
                    more: map<nat, seq<int>>, path: seq<nat>, np: nat, p: seq<nat>, page: nat)
    requires PageCopied(m, r, q, data0, data, p, page) && p != path && np !in data
    requires SameWalks(m, r, w, r) && WalksBut(m, q, w, q, path, Entry(np, PTE_USER_DATA))
    requires np in more && more == data[np := more[np]]
    ensures PageCopied(w, r, q, data0, more, p, page)
  {
    hide Walk, Address, Valid, Frame, Entry;
  }

  lemma CopiesApart(m: Tables, r: nat, q: nat, data0: map<nat, seq<int>>, data: map<nat, seq<int>>,
                    cp: map<seq<nat>, nat>, np: nat)
    requires Copying(m, r, q, data0, data, cp) && np !in data
    ensures forall p :: p in cp ==> cp[p] != np
  {
    hide Walk, Address, Valid, Frame, Entry;
  }

  // ---------- tearing down ----------

  /** The tables below the place `place`, and those below one of its first `i` entries. */
  ghost function Below(at: Places, place: seq<nat>): set<nat> { set u | u in at && place < at[u] }

  ghost function Part(at: Places, place: seq<nat>, i: nat): set<nat> {
    set u | u in at && place < at[u] && at[u][|place|] < i
  }

  ghost predicate Intact(m: Tables, m0: Tables, at: Places, place: seq<nat>) {
    forall u :: u in at && u in m0 && place <= at[u] ==> u in m && m[u] == m0[u]
  }

  lemma PartNothing(m: Tables, root: nat, at: Places, t: nat, i: nat)
    requires DirOk(m, root, at) && t in at && t in m && i < |m[t]| && !Valid(m[t][i])
    ensures Part(at, at[t], i + 1) == Part(at, at[t], i)
  {
    hide Address, Valid, IsTable, TableOk, HasParent;
    forall u | u in at && at[t] < at[u] ensures at[u][|at[t]|] != i {
      var v := Above(m, root, at, u, |at[t]|);
      assert at[u][..|at[t]|] == at[t];
    }
  }

  lemma PartNext(m: Tables, root: nat, at: Places, t: nat, i: nat, c: nat)
    requires DirOk(m, root, at) && t in at && c in at && at[c] == at[t] + [i]
    ensures Part(at, at[t], i + 1) == Part(at, at[t], i) + Below(at, at[c]) + {c}
    ensures c !in Part(at, at[t], i) && c !in Below(at, at[c])
    ensures forall u :: u in at && at[c] <= at[u] ==> u !in Part(at, at[t], i)
  {
    hide TableOk, HasParent;
    forall u | u in at ensures at[t] < at[u] && at[u][|at[t]|] == i <==> at[c] < at[u] || u == c {
      if at[t] < at[u] && at[u][|at[t]|] == i { assert at[u][..|at[t]| + 1] == at[t] + [i]; }
    }
  }

  /** The part of the tree below entry `i` is not touched by freeing the entries before it. */
  lemma IntactStill(m: Tables, m0: Tables, at: Places, t: nat, i: nat, w: Tables)
    requires t in at && t in m0 && Intact(m, m0, at, at[t]) && w == m - Part(at, at[t], i)
    ensures t in w && w[t] == m0[t]
    ensures forall c :: c in at && at[c] == at[t] + [i] ==> Intact(w, m0, at, at[c])
  {
    assert t !in Part(at, at[t], i);
    forall c | c in at && at[c] == at[t] + [i] ensures Intact(w, m0, at, at[c]) {
      forall u | u in at && u in m0 && at[c] <= at[u] ensures u in w && w[u] == m0[u] {
        assert at[t] <= at[u] && at[u][|at[t]|] == at[c][|at[t]|];
      }
    }
  }

  lemma TwoGone(m: Tables, a: set<nat>, b: set<nat>)
    ensures m - a - b == m - (a + b)
  {
  }

  lemma FrameIsPage(t: nat)
    requires Frame(t)
    ensures IsPage(t)
  {
  }

  lemma TablesThere(m: Tables, root: nat, at: Places)
    requires DirOk(m, root, at)
    ensures forall u :: u in at ==> u in m && Frame(u)
  {
    forall u | u in at ensures u in m && Frame(u) { assert TableOk(m, at, u); }
  }

  lemma BelowRoot(m: Tables, root: nat, at: Places)
    requires DirOk(m, root, at) && root != 0
    ensures Below(at, []) + {root} == at.Keys && root !in Below(at, [])
  {
    hide TableOk, HasParent;
    forall u | u in at ensures u in Below(at, []) || u == root {
      if at[u] == [] { assert u == root; }
    }
  }

  lemma PartAll(m: Tables, root: nat, at: Places, t: nat)
    requires DirOk(m, root, at) && t in at
    ensures Part(at, at[t], N_PTE) == Below(at, at[t]) && Part(at, at[t], 0) == {}
  {
    hide HasParent, LinkOk;
    forall u | u in at && at[t] < at[u] ensures at[u][|at[t]|] < N_PTE { assert TableOk(m, at, u); }
  }

  lemma LeafBelow(m: Tables, root: nat, at: Places, t: nat)
    requires DirOk(m, root, at) && t in at && |at[t]| == 3
    ensures Below(at, at[t]) == {} && forall i :: Part(at, at[t], i) == {}
  {
    hide HasParent, LinkOk;
    forall u | u in at ensures !(at[t] < at[u]) { assert TableOk(m, at, u); }
  }

  ghost predicate Grew(m: Tables, r: nat, at: Places, free: seq<nat>, w: Tables, q: nat, bt: Places, left: seq<nat>) {
    && (q == r || r == 0) && SameWalks(m, r, w, q)
    && (forall t :: t in m ==> t in w && (t !in at ==> w[t] == m[t]))
    && (forall t :: t in at ==> t in bt && bt[t] == at[t])
    && (forall t :: t in bt && t !in at ==> t in free && t !in left)
    && (forall p :: p in left ==> p in free)
    && (forall t :: t in w && t !in m ==> t in bt)
    && (forall p :: p in free ==> p in left || (p in bt && p !in at))
  }

  lemma WalksSame(m: Tables, root: nat)
    ensures SameWalks(m, root, m, root)
  {
  }

  lemma LinkIn(m: Tables, root: nat, at: Places, t: nat, i: nat)
    requires DirOk(m, root, at) && t in at && |at[t]| <= 2 && i < N_PTE
    requires t in m && i < |m[t]| && Valid(m[t][i])
    ensures Address(m[t][i]) in at && at[Address(m[t][i])] == at[t] + [i] && Address(m[t][i]) != 0
  {
    hide Walk, Address, IsTable, HasParent, LinkOk, Frame, Descend;
    assert TableOk(m, at, t);
    LinkAt(m, at, t, i);
    PlacedTable(m, root, at, Address(m[t][i]));
  }

  lemma MissingStep(m: Tables, t: nat, i: nat, rest: seq<nat>)
    requires t in m && i < |m[t]|
    ensures Missing(m, t, [i] + rest) == if Valid(m[t][i]) then Missing(m, Address(m[t][i]), rest) else 1 + |rest|
  {
    hide Address, Valid;
    assert ([i] + rest)[1..] == rest;
  }

  lemma ZeroMissing(m: Tables, t: nat, rest: seq<nat>)
    requires t in m && m[t] == ZeroTable()
    ensures Missing(m, t, rest) == |rest|
  {
  }

  lemma GrewStart(m: Tables, r: nat, at: Places, free: seq<nat>)
    ensures Grew(m, r, at, free, m, r, at, free)
  {
  }

  lemma GrewByTable(m: Tables, root: nat, at: Places, t: nat, i: nat, p: nat, free: seq<nat>)
    requires t in at && t in m && i < |m[t]| && p !in m && p !in at && p != t && free != [] && p == free[0]
        && p !in free[1..]
    requires SameWalks(m, root, WithTable(m, t, i, p), root)
    ensures Grew(m, root, at, free, WithTable(m, t, i, p), root, at[p := at[t] + [i]], free[1..])
  {
    hide SameWalks;
    forall x | x in free ensures x == p || x in free[1..] {}
  }

  lemma GrewOn(m: Tables, r: nat, at: Places, free: seq<nat>, w: Tables, q: nat, bt: Places, left: seq<nat>,
               x: Tables, o: nat, ct: Places, rest: seq<nat>)
    requires Grew(m, r, at, free, w, q, bt, left) && Grew(w, q, bt, left, x, o, ct, rest)
    requires forall p :: p in free ==> p !in m
    ensures Grew(m, r, at, free, x, o, ct, rest)
  {
    hide Walk;
  }

  lemma FirstTable(m: Tables, p: nat)
    requires 0 !in m && p !in m && Frame(p)
    ensures SameWalks(m, 0, m[p := ZeroTable()], p) && DirOk(m[p := ZeroTable()], p, map[p := []])
  {
  }

  lemma MissingZero(m: Tables, t: nat, path: seq<nat>)
    requires t in m && m[t] == ZeroTable() && forall k :: 0 <= k < |path| ==> path[k] < N_PTE
    ensures Missing(m, t, path) == |path|
  {
  }

  lemma MissingHere(m: Tables, t: nat, path: seq<nat>)
    requires t in m && path != [] && path[0] < |m[t]| && !Valid(m[t][path[0]])
    ensures Missing(m, t, path) > 0
  {
  }

  lemma MissingNothing(m: Tables, t: nat)
    ensures Missing(m, t, []) == 0
  {
  }

  lemma PlacedTable(m: Tables, root: nat, at: Places, t: nat)
    requires DirOk(m, root, at) && t in at
    ensures t in m && |m[t]| == N_PTE && t != 0
  {
    assert TableOk(m, at, t);
  }

  /** The pages of a directory and the free pages are together always the same. */
  ghost predicate Stock(at: Places, free: seq<nat>, bt: Places, left: seq<nat>) {
    forall p :: p in at || p in free <==> p in bt || p in left
  }

  lemma GrewStock(m: Tables, r: nat, at: Places, free: seq<nat>, w: Tables, q: nat, bt: Places, left: seq<nat>)
    requires Grew(m, r, at, free, w, q, bt, left)
    ensures Stock(at, free, bt, left)
  {
  }

  /** Tables that are not the directory's are as before, and new tables are the directory's. */
  ghost predicate Apart(m: Tables, at: Places, w: Tables, bt: Places) {
    && (forall t :: t in at ==> t in bt) && (forall t :: t in m && t !in at ==> t !in bt && t in w && w[t] == m[t])
    && (forall t :: t in w && t !in m ==> t in bt)
  }

  lemma GrewApart(m: Tables, r: nat, at: Places, free: seq<nat>, w: Tables, q: nat, bt: Places, left: seq<nat>)
    requires Grew(m, r, at, free, w, q, bt, left) && forall p :: p in free ==> p !in m
    ensures Apart(m, at, w, bt)
  {
    hide SameWalks;
  }

  lemma ApartOn(m: Tables, at: Places, w: Tables, bt: Places, x: Tables, ct: Places)
    requires Apart(m, at, w, bt) && Apart(w, bt, x, ct)
    ensures Apart(m, at, x, ct)
  {
  }

  lemma ButHere(m: Tables, r: nat, w: Tables, q: nat, full: seq<nat>, e: nat)
    requires WalksBut(m, r, w, q, full, e) && |full| == 4
    ensures Walk(w, q, full) == e
  {
    hide Walk;
  }

  lemma SameThenBut(m: Tables, r: nat, w: Tables, x: Tables, q: nat, full: seq<nat>, e: nat)
    requires SameWalks(m, r, w, q) && WalksBut(w, q, x, q, full, e)
    ensures WalksBut(m, r, x, q, full, e)
  {
    hide Walk;
  }

  lemma TablesHere(m: Tables, root: nat, at: Places)
    requires DirOk(m, root, at)
    ensures forall t :: t in at ==> t in m
  {
    forall t | t in at ensures t in m { assert TableOk(m, at, t); }
  }

  lemma EmptyDir(m: Tables)
    ensures DirOk(m, 0, map[])
  {
  }

  lemma CopyStart(m: Tables, w: Tables, r: nat, q: nat, data0: map<nat, seq<int>>)
    requires 0 !in m && SameWalks(m, 0, w, q) && SameWalks(m, r, w, r) && Backed(m, r, data0)
    ensures Copying(w, r, q, data0, data0, map[]) && Backed(w, r, data0)
  {
  }

  lemma AllCopied(m: Tables, w: Tables, r: nat, cp: map<seq<nat>, nat>)
    requires SameWalks(m, r, w, r) && CopiedBelow(w, r, [], map[], cp)
    ensures forall path :: path in cp <==> Path(path) && Valid(Walk(m, r, path))
  {
    hide Walk, Valid;
  }

  /** Building a directory from nothing, a page for each address of `vas` in turn, and tearing it down
      again gives back exactly the pages that were taken, and leaves all other tables and all data as
      they were.  Building ends early (`ok` false) if the pool runs out, and then the counter stays one
      too high. */
  method BuildAndFree(mem: Memory, vas: seq<nat>, pas: seq<nat>, flags: nat) returns (ok: bool)
    requires mem.Sane() && |pas| == |vas|
    modifies mem`tables, mem.pool
    ensures mem.Sane() && mem.tables == old(mem.tables) && mem.data == old(mem.data)
    ensures forall p :: p in mem.pool.free <==> p in old(mem.pool.free)
    ensures |mem.pool.free| == |old(mem.pool.free)| && mem.pool.taken == old(mem.pool.taken) + if ok then 0 else 1
  {
    hide Walk, Address, Valid, IsTable, TableOk, HasParent, Frame, WalksBut, SameWalks, Parts, DirOk;
    ghost var m, free, taken := mem.tables, mem.pool.free, mem.pool.taken;
    var dir := new PageDir();
    EmptyDir(m);
    ok := true;
    var i := 0;
    while i < |vas| && ok
      invariant 0 <= i <= |vas| && mem.Sane() && mem.Owns(dir) && mem.data == old(mem.data)
      invariant Stock(map[], free, dir.at, mem.pool.free) && Apart(m, map[], mem.tables, dir.at)
      invariant |mem.pool.free| - |free| == taken - mem.pool.taken + if ok then 0 else 1
      decreases |vas| - i
    {
      ghost var w, at := mem.tables, dir.at;
      ok := mem.VmMap(dir, vas[i], pas[i], flags);
      ApartOn(m, map[], w, at, mem.tables, dir.at);
      i := i + 1;
    }
    ghost var w, at := mem.tables, dir.at;
    mem.FreePgdir(dir);
    SameLength(mem.pool.free, free);
    ApartGone(m, w, at);
  }

  lemma ApartGone(m: Tables, w: Tables, at: Places)
    requires Apart(m, map[], w, at)
    ensures w - at.Keys == m
  {
  }
}
