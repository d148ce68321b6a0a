/** Four-level translation tables: entries, index arithmetic, walks, and the shape of the tree. */
module PageTableModel {
  import opened Pages
  import opened Sequences

  const N_PTE: nat := 512
  const PA_LIMIT: nat := 0x1_0000_0000_0000

  // ---------- entries ----------

  predicate Valid(e: nat) { e % 2 == 1 }

  predicate IsTable(e: nat) { e % 4 == 3 }

  /** Bits 12 to 47: `PTE_ADDRESS` */
  function Address(e: nat): nat { e / PAGE_SIZE % 0x10_0000_0000 * PAGE_SIZE }

  /** `a | b` */
  function Or(a: nat, b: nat): nat {
    if a == 0 && b == 0 then 0 else 2 * Or(a / 2, b / 2) + if a % 2 == 1 || b % 2 == 1 then 1 else 0
  }

  /** `pa | flags` */
  function Entry(pa: nat, flags: nat): nat { Or(pa, flags) }

  /** Flags that leave bits 12 to 47 free. */
  predicate Attributes(flags: nat) { flags / PAGE_SIZE % 0x10_0000_0000 == 0 }

  const PTE_TABLE: nat := 3
  // PTE_USER | PTE_NORMAL | PTE_PAGE
  const PTE_USER_DATA: nat := 64 + PTE_NORMAL + 3
  const PTE_NORMAL: nat := 0x604

  predicate Frame(p: nat) { IsPage(p) && p < PA_LIMIT }

  /** The address and all flag bits of an entry come back, those above the address included. */
  lemma EntryFields(pa: nat, flags: nat)
    requires Frame(pa) && Attributes(flags)
    ensures Address(Entry(pa, flags)) == pa
    ensures Entry(pa, flags) % PAGE_SIZE == flags % PAGE_SIZE && Entry(pa, flags) / PA_LIMIT == flags / PA_LIMIT
    ensures (Valid(Entry(pa, flags)) <==> flags % 2 == 1) && (IsTable(Entry(pa, flags)) <==> flags % 4 == 3)
  {
    hide Or;
    var k, hi, lo := pa / PAGE_SIZE, flags / PA_LIMIT, flags % PAGE_SIZE;
    assert pa == k * 0x1000 && k < 0x10_0000_0000;
    assert flags / PAGE_SIZE == hi * 0x10_0000_0000;
    EntrySum(k, hi, lo);
    AboveFlags(hi * 0x10_0000_0000 + k, lo);
    Even((hi * 0x10_0000_0000 + k) * 0x800, lo);
    Fourfold((hi * 0x10_0000_0000 + k) * 0x400, lo);
    assert flags == hi * PA_LIMIT + lo;
    Even(hi * 0x8000_0000_0000, lo);
    Fourfold(hi * 0x4000_0000_0000, lo);
  }

  /** Address and flags do not overlap, so `|` adds them. */
  lemma EntrySum(k: nat, hi: nat, lo: nat)
    requires k < 0x10_0000_0000 && lo < PAGE_SIZE
    ensures Entry(k * 0x1000, hi * PA_LIMIT + lo) == (hi * 0x10_0000_0000 + k) * 0x1000 + lo
  {
    hide Or;
    assert Pow2(12) == 0x1000;
    assert Pow2(36) == 0x10_0000_0000 by { assert Pow2(24) == 0x100_0000; }
    OrParts(k, 0, hi * 0x10_0000_0000, lo, 12);
    OrParts(0, k, hi, 0, 36);
    OrZero(k);
    OrZero(hi);
    OrZero(lo);
    assert hi * PA_LIMIT == hi * 0x10_0000_0000 * 0x1000;
  }

  lemma {:induction false} OrZero(x: nat)
    ensures Or(x, 0) == x && Or(0, x) == x
  {
    if x > 0 { OrZero(x / 2); }
  }

  /** `|` works on the high and on the low bits on their own. */
  lemma {:induction false} OrParts(a: nat, b: nat, c: nat, d: nat, n: nat)
    requires b < Pow2(n) && d < Pow2(n)
    ensures Or(a * Pow2(n) + b, c * Pow2(n) + d) == Or(a, c) * Pow2(n) + Or(b, d)
  {
    if n > 0 {
      var p := Pow2(n - 1);
      OrParts(a, b / 2, c, d / 2, n - 1);
      OrTwice(a, b, c, d, p);
    }
  }

  lemma OrTwice(a: nat, b: nat, c: nat, d: nat, p: nat)
    requires Or(a * p + b / 2, c * p + d / 2) == Or(a, c) * p + Or(b / 2, d / 2)
    ensures Or(a * (2 * p) + b, c * (2 * p) + d) == Or(a, c) * (2 * p) + Or(b, d)
  {
    hide Or;
    HalfSum(a, b, p);
    HalfSum(c, d, p);
    OrHalves(a * (2 * p) + b, c * (2 * p) + d);
    OrHalves(b, d);
    var r := Or(a, c);
    assert r * (2 * p) == 2 * (r * p);
  }

  lemma HalfSum(a: nat, b: nat, p: nat)
    ensures (a * (2 * p) + b) / 2 == a * p + b / 2 && (a * (2 * p) + b) % 2 == b % 2
  {
    assert a * (2 * p) == 2 * (a * p);
  }

  lemma OrHalves(a: nat, b: nat)
    ensures Or(a, b) == 2 * Or(a / 2, b / 2) + if a % 2 == 1 || b % 2 == 1 then 1 else 0
  {
  }

  /** Bits 0, 1, 2, 6, 9 and 10: a valid page, normal memory, for user mode, writable, outer shareable, accessed. */
  lemma UserData(pa: nat)
    requires Frame(pa)
    ensures Address(Entry(pa, PTE_USER_DATA)) == pa && Valid(Entry(pa, PTE_USER_DATA))
    ensures Entry(pa, PTE_USER_DATA) % PAGE_SIZE == 0x647 && Entry(pa, PTE_USER_DATA) / PA_LIMIT == 0
  {
    EntryFields(pa, PTE_USER_DATA);
  }

  lemma AboveFlags(k: nat, flags: nat)
    requires flags < PAGE_SIZE
    ensures (k * 0x1000 + flags) / PAGE_SIZE == k
  {
  }

  lemma Even(x: nat, y: nat)
    ensures (2 * x + y) % 2 == y % 2
  {
  }

  lemma Fourfold(x: nat, y: nat)
    ensures (4 * x + y) % 4 == y % 4
  {
  }

  // ---------- index arithmetic ----------

  /** `VA_PART0` to `VA_PART3`: bits 39-47, 30-38, 21-29 and 12-20. */
  function Parts(va: nat): (s: seq<nat>)
    ensures Path(s)
  {
    [va / 0x80_0000_0000 % 512, va / 0x4000_0000 % 512, va / 0x20_0000 % 512, va / 0x1000 % 512]
  }

  /** The indices of one page number. */
  predicate Path(s: seq<nat>) { |s| == 4 && forall i :: 0 <= i < 4 ==> s[i] < N_PTE }

  /** `i << 39 | i1 << 30 | i2 << 21 | i3 << 12` */
  function VaOf(s: seq<nat>): nat
    requires |s| == 4
  {
    s[0] * 0x80_0000_0000 + s[1] * 0x4000_0000 + s[2] * 0x20_0000 + s[3] * 0x1000
  }

  lemma Top39(hi: nat, lo: nat)
    requires lo < 0x80_0000_0000
    ensures (hi * 0x80_0000_0000 + lo) / 0x80_0000_0000 == hi
  {
  }

  lemma Top30(hi: nat, lo: nat)
    requires lo < 0x4000_0000
    ensures (hi * 0x4000_0000 + lo) / 0x4000_0000 == hi
  {
  }

  lemma Top21(hi: nat, lo: nat)
    requires lo < 0x20_0000
    ensures (hi * 0x20_0000 + lo) / 0x20_0000 == hi
  {
  }

  lemma Low(hi: nat, lo: nat)
    requires lo < N_PTE
    ensures (hi * 512 + lo) % 512 == lo
  {
  }

  /** The address built in `uvmcopy` has exactly the indices it was built from. */
  lemma PartsOfVa(s: seq<nat>)
    requires Path(s)
    ensures Parts(VaOf(s)) == s
  {
    var a, b, c, d := s[0], s[1], s[2], s[3];
    var va := VaOf(s);
    Top39(a, b * 0x4000_0000 + c * 0x20_0000 + d * 0x1000);
    Top30(a * 512 + b, c * 0x20_0000 + d * 0x1000);
    Top21(a * 0x4_0000 + b * 512 + c, d * 0x1000);
    assert va / 0x1000 == a * 0x800_0000 + b * 0x4_0000 + c * 512 + d;
    Low(0, a);
    Low(a, b);
    Low(a * 512 + b, c);
    Low(a * 0x4_0000 + b * 512 + c, d);
    assert Parts(va) == [a, b, c, d];
  }

  /** Two addresses have the same indices exactly if they have the same 48-bit page number. */
  lemma PartsAreThePage(va: nat, vb: nat)
    ensures Parts(va) == Parts(vb) <==> va / PAGE_SIZE % 0x10_0000_0000 == vb / PAGE_SIZE % 0x10_0000_0000
  {
    PageFromParts(va);
    PageFromParts(vb);
    if va / PAGE_SIZE % 0x10_0000_0000 == vb / PAGE_SIZE % 0x10_0000_0000 {
      PartsFromPage(va);
      PartsFromPage(vb);
    }
  }

  /** `s` comes before `t`: they differ, and the first index in which they do is less. */
  predicate Before(s: seq<nat>, t: seq<nat>)
    requires |s| == |t|
  {
    exists i :: 0 <= i < |s| && s[i] < t[i] && s[..i] == t[..i]
  }

  /** The indices are in the order of the addresses, which leaves only one way to choose them. */
  lemma PartsInOrder(va: nat, vb: nat)
    requires va < PA_LIMIT && vb < PA_LIMIT
    ensures Before(Parts(va), Parts(vb)) <==> va / PAGE_SIZE < vb / PAGE_SIZE
  {
    hide VaOf, Parts, Before;
    PageFromParts(va);
    PageFromParts(vb);
    BeforeIsLess(Parts(va), Parts(vb));
    assert va / PAGE_SIZE < 0x10_0000_0000 && vb / PAGE_SIZE < 0x10_0000_0000;
  }

  lemma BeforeIsLess(s: seq<nat>, t: seq<nat>)
    requires Path(s) && Path(t)
    ensures Before(s, t) <==> VaOf(s) < VaOf(t)
  {
    hide VaOf;
    if s != t {
      var i := FirstDifference(s, t);
      if s[i] < t[i] { LessAt(s, t, i); } else { LessAt(t, s, i); }
      forall j | 0 <= j < 4 && s[..j] == t[..j] && s[j] != t[j] ensures j == i {
        SamePrefix(s, t, i);
        SamePrefix(s, t, j);
      }
    }
  }

  lemma SamePrefix(s: seq<nat>, t: seq<nat>, i: nat)
    requires i <= |s| && i <= |t| && s[..i] == t[..i]
    ensures forall k :: 0 <= k < i ==> s[k] == t[k]
  {
    forall k | 0 <= k < i ensures s[k] == t[k] { assert s[..i][k] == t[..i][k]; }
  }

  lemma FirstDifference(s: seq<nat>, t: seq<nat>) returns (i: nat)
    requires |s| == |t| == 4 && s != t
    ensures i < 4 && s[i] != t[i] && s[..i] == t[..i]
  {
    i := if s[0] != t[0] then 0 else if s[1] != t[1] then 1 else if s[2] != t[2] then 2 else 3;
    assert s[i] != t[i];
  }

  lemma LessAt(s: seq<nat>, t: seq<nat>, i: nat)
    requires Path(s) && Path(t) && i < 4 && s[..i] == t[..i] && s[i] < t[i]
    ensures VaOf(s) < VaOf(t)
  {
    SamePrefix(s, t, i);
  }

  lemma PageFromParts(va: nat)
    ensures va / PAGE_SIZE % 0x10_0000_0000 == VaOf(Parts(va)) / PAGE_SIZE
    ensures VaOf(Parts(va)) == va / PAGE_SIZE % 0x10_0000_0000 * PAGE_SIZE
  {
    var v := va / 0x1000;
    assert va / 0x20_0000 == v / 512;
    assert va / 0x4000_0000 == v / 512 / 512;
    assert va / 0x80_0000_0000 == v / 512 / 512 / 512;
    FourDigits(v);
    var s := Parts(va);
    assert VaOf(s) == 0x1000 * (s[0] * 0x800_0000 + s[1] * 0x4_0000 + s[2] * 512 + s[3]);
  }

  lemma FourDigits(v: nat)
    ensures v % 0x10_0000_0000 ==
            v / 512 / 512 / 512 % 512 * 0x800_0000 + v / 512 / 512 % 512 * 0x4_0000 + v / 512 % 512 * 512 + v % 512
  {
    var a := v / 512;
    var b := a / 512;
    var c := b / 512;
    var d := c / 512;
    Digit(v);
    Digit(a);
    Digit(b);
    Digit(c);
    Rest(d, c % 512 * 0x800_0000 + b % 512 * 0x4_0000 + a % 512 * 512 + v % 512);
  }

  lemma Digit(v: nat)
    ensures v == 512 * (v / 512) + v % 512 && v % 512 < 512
  {
  }

  lemma Rest(d: nat, r: nat)
    requires r < 0x10_0000_0000
    ensures (0x10_0000_0000 * d + r) % 0x10_0000_0000 == r
  {
  }

  lemma PartsFromPage(va: nat)
    ensures Parts(va) == Parts(va / PAGE_SIZE % 0x10_0000_0000 * PAGE_SIZE)
  {
    PageFromParts(va);
    PartsOfVa(Parts(va));
  }

  // ---------- walks ----------

  type Tables = map<nat, seq<nat>>

  /** What the hardware finds: the last-level entry for the indices `path` below table `t`, or 0. */
  function Walk(m: Tables, t: nat, path: seq<nat>): nat
    decreases |path|
  {
    if path == [] || t !in m || path[0] >= |m[t]| then 0
    else if |path| == 1 then m[t][path[0]]
    else if Valid(m[t][path[0]]) then Walk(m, Address(m[t][path[0]]), path[1..])
    else 0
  }

  /** The table reached by following `path` below `t`, or 0. */
  function Descend(m: Tables, t: nat, path: seq<nat>): nat
    decreases |path|
  {
    if path == [] then t
    else if t !in m || path[0] >= |m[t]| || !Valid(m[t][path[0]]) then 0
    else Descend(m, Address(m[t][path[0]]), path[1..])
  }

  /** The number of tables that `get_pte` has to add below `t`. */
  function Missing(m: Tables, t: nat, path: seq<nat>): nat
    decreases |path|
  {
    if path == [] then 0
    else if t !in m || path[0] >= |m[t]| || !Valid(m[t][path[0]]) then |path|
    else Missing(m, Address(m[t][path[0]]), path[1..])
  }

  // ---------- the tree ----------

  /** Table `t` has the place `at[t]` in the tree: the indices that lead to it. */
  type Places = map<nat, seq<nat>>

  ghost predicate TableOk(m: Tables, at: Places, t: nat)
    requires t in at
  {
    && Frame(t) && t in m && |m[t]| == N_PTE && |at[t]| <= 3 && (forall j :: 0 <= j < |at[t]| ==> at[t][j] < N_PTE)
    && (|at[t]| <= 2 ==> forall i :: 0 <= i < N_PTE && Valid(m[t][i]) ==> LinkOk(m, at, t, i))
  }

  ghost predicate LinkOk(m: Tables, at: Places, t: nat, i: nat)
    requires t in at && t in m && i < |m[t]|
  {
    IsTable(m[t][i]) && Address(m[t][i]) in at && at[Address(m[t][i])] == at[t] + [i]
  }

  /** The table above `t` that points to it. */
  ghost predicate HasParent(m: Tables, at: Places, t: nat)
    requires t in at && |at[t]| > 0
  {
    var n := |at[t]| - 1;
    exists u :: u in at && u in m && at[u] == at[t][..n] && at[t][n] < |m[u]| && Valid(m[u][at[t][n]])
      && Address(m[u][at[t][n]]) == t
  }

  ghost predicate DirOk(m: Tables, root: nat, at: Places) {
    && (if root == 0 then at == map[] else root in at && at[root] == [])
    && (forall t :: t in at ==> TableOk(m, at, t))
    && (forall t, u :: t in at && u in at && at[t] == at[u] ==> t == u)
    && (forall t :: t in at && |at[t]| > 0 ==> HasParent(m, at, t))
  }

  function ZeroTable(): (s: seq<nat>)
    ensures |s| == N_PTE && forall i :: 0 <= i < N_PTE ==> s[i] == 0
  {
    seq(N_PTE, _ => 0)
  }

  // ---------- adding a table ----------

  function WithTable(m: Tables, t: nat, i: nat, p: nat): Tables
    requires t in m && i < |m[t]|
  {
    m[p := ZeroTable()][t := m[t][i := Entry(p, PTE_TABLE)]]
  }

  lemma TableAdded(m: Tables, root: nat, at: Places, t: nat, i: nat, p: nat)
    requires DirOk(m, root, at) && t in at && |at[t]| <= 2 && i < N_PTE && t in m && |m[t]| == N_PTE && !Valid(m[t][i])
    requires Frame(p) && p !in m
    ensures DirOk(WithTable(m, t, i, p), root, at[p := at[t] + [i]]) && p !in at
  {
    hide Address, Valid, IsTable, HasParent, LinkOk, Frame, TableOk, WithTable;
    NotPlaced(m, root, at, p);
    var w, a := WithTable(m, t, i, p), at[p := at[t] + [i]];
    forall u | u in a ensures TableOk(w, a, u) { AddedTable(m, at, t, i, p, u); }
    forall u, v | u in a && v in a && a[u] == a[v] ensures u == v {
      if u == p && v != p { NoTwin(m, root, at, t, i, v); }
      if v == p && u != p { NoTwin(m, root, at, t, i, u); }
    }
    forall u | u in a && |a[u]| > 0 ensures HasParent(w, a, u) { AddedParent(m, at, t, i, p, u); }
    RootIsFrame(m, root, at, p);
  }

  lemma NotPlaced(m: Tables, root: nat, at: Places, p: nat)
    requires DirOk(m, root, at) && p !in m
    ensures p !in at
  {
    assert forall u :: u in at ==> TableOk(m, at, u);
  }

  lemma RootIsFrame(m: Tables, root: nat, at: Places, p: nat)
    requires DirOk(m, root, at) && p !in m
    ensures root != p || root == 0
  {
    assert forall u :: u in at ==> TableOk(m, at, u);
  }

  /** No table has the place that an invalid entry would lead to. */
  lemma NoTwin(m: Tables, root: nat, at: Places, t: nat, i: nat, v: nat)
    requires DirOk(m, root, at) && t in at && t in m && i < |m[t]| && !Valid(m[t][i]) && v in at
    ensures at[v] != at[t] + [i]
  {
    if |at[v]| > 0 {
      var u := Parent(m, root, at, v);
      assert (at[t] + [i])[..|at[t]|] == at[t];
    }
  }

  lemma Parent(m: Tables, root: nat, at: Places, t: nat) returns (u: nat)
    requires DirOk(m, root, at) && t in at && |at[t]| > 0
    ensures u in at && u in m && at[u] == at[t][..|at[t]| - 1] && at[t][|at[t]| - 1] < |m[u]|
    ensures Valid(m[u][at[t][|at[t]| - 1]]) && Address(m[u][at[t][|at[t]| - 1]]) == t
  {
    hide Address, IsTable, Valid;
    assert HasParent(m, at, t);
    var n := |at[t]| - 1;
    u :| u in at && u in m && at[u] == at[t][..n] && at[t][n] < |m[u]| && Valid(m[u][at[t][n]])
      && Address(m[u][at[t][n]]) == t;
  }

  lemma AddedTable(m: Tables, at: Places, t: nat, i: nat, p: nat, u: nat)
    requires t in at && |at[t]| <= 2 && i < N_PTE && Frame(p) && p !in m && p !in at && t in m && |m[t]| == N_PTE
    requires TableOk(m, at, t) && (u == p || (u in at && TableOk(m, at, u)))
    ensures TableOk(WithTable(m, t, i, p), at[p := at[t] + [i]], u)
  {
    hide Address, IsTable, LinkOk, Frame;
    var w, a := WithTable(m, t, i, p), at[p := at[t] + [i]];
    if u != p && |at[u]| <= 2 {
      forall j | 0 <= j < N_PTE && Valid(w[u][j]) ensures LinkOk(w, a, u, j) {
        if u == t && j == i {
          NewLink(m, at, t, i, p);
        } else {
          LinkStays(m, at, w, a, u, j);
        }
      }
    } else if u == p {
      assert forall j :: 0 <= j < N_PTE ==> !Valid(w[p][j]);
    }
  }

  lemma NewLink(m: Tables, at: Places, t: nat, i: nat, p: nat)
    requires t in at && t in m && i < |m[t]| && Frame(p) && p != t
    ensures LinkOk(WithTable(m, t, i, p), at[p := at[t] + [i]], t, i)
  {
    EntryFields(p, PTE_TABLE);
  }

  lemma LinkStays(m: Tables, at: Places, w: Tables, a: Places, u: nat, j: nat)
    requires u in at && u in m && j < |m[u]| && LinkOk(m, at, u, j) && u in w && j < |w[u]| && w[u][j] == m[u][j]
    requires forall v :: v in at ==> v in a && a[v] == at[v]
    ensures LinkOk(w, a, u, j)
  {
    hide Address, IsTable;
  }

  lemma AddedParent(m: Tables, at: Places, t: nat, i: nat, p: nat, u: nat)
    requires t in at && i < N_PTE && Frame(p) && p !in m && p !in at && t in m && |m[t]| == N_PTE && !Valid(m[t][i])
    requires u == p || (u in at && |at[u]| > 0 && HasParent(m, at, u))
    ensures HasParent(WithTable(m, t, i, p), at[p := at[t] + [i]], u)
  {
    hide Address, IsTable, Valid, Frame;
    EntryFields(p, PTE_TABLE);
    var w, a := WithTable(m, t, i, p), at[p := at[t] + [i]];
    var n := |a[u]| - 1;
    if u == p {
      assert a[u][..n] == at[t] && a[u][n] == i;
      assert t in a && a[t] == a[u][..n] && Valid(w[t][a[u][n]]) && Address(w[t][a[u][n]]) == u;
    } else {
      var v :| v in at && v in m && at[v] == at[u][..n] && at[u][n] < |m[v]| && Valid(m[v][at[u][n]])
        && Address(m[v][at[u][n]]) == u;
      assert v in a && v in w && a[v] == a[u][..n] && Valid(w[v][a[u][n]]) && Address(w[v][a[u][n]]) == u;
    }
  }

  /** A new table changes no translation. */
  lemma {:induction false} AddedWalks(m: Tables, root: nat, at: Places, t: nat, i: nat, p: nat, u: nat, path: seq<nat>)
    requires DirOk(m, root, at) && t in at && t in m && i < |m[t]| && |at[t]| <= 2 && !Valid(m[t][i]) && Frame(p)
        && p !in m
    requires u in at && |at[u]| + |path| == 4
    ensures Walk(WithTable(m, t, i, p), u, path) == Walk(m, u, path)
    decreases |path|
  {
    hide Address, IsTable, LinkOk, DirOk, Frame, Valid, Entry, Walk, WithTable;
    TableShape(m, root, at, u);
    TableShape(m, root, at, t);
    StepAdded(m, t, i, p, u, path);
    if |path| > 1 && path[0] < N_PTE && !(u == t && path[0] == i) && Valid(m[u][path[0]]) {
      LinkPlace(m, at, u, path[0]);
      AddedWalks(m, root, at, t, i, p, Address(m[u][path[0]]), path[1..]);
    }
  }

  lemma TableShape(m: Tables, root: nat, at: Places, u: nat)
    requires DirOk(m, root, at) && u in at
    ensures u in m && |m[u]| == N_PTE
    ensures |at[u]| <= 2 ==> forall j :: 0 <= j < N_PTE && Valid(m[u][j]) ==> LinkOk(m, at, u, j)
  {
    hide LinkOk, Valid, HasParent, Frame;
    assert TableOk(m, at, u);
  }

  /** One step of a walk after the table `p` was added below entry `i` of `t`. */
  lemma StepAdded(m: Tables, t: nat, i: nat, p: nat, u: nat, path: seq<nat>)
    requires t in m && i < |m[t]| && !Valid(m[t][i]) && Frame(p) && p !in m && u in m
    ensures var w := WithTable(m, t, i, p);
            Walk(w, u, path) ==
            if |path| > 1 && path[0] < |m[u]| && !(u == t && path[0] == i) && Valid(m[u][path[0]]) then
              Walk(w, Address(m[u][path[0]]), path[1..])
            else if |path| == 1 && path[0] < |m[u]| && u == t && path[0] == i then Entry(p, PTE_TABLE)
            else Walk(m, u, path)
    ensures |path| > 1 && path[0] < |m[u]| && !(u == t && path[0] == i) && Valid(m[u][path[0]]) ==>
              Walk(m, u, path) == Walk(m, Address(m[u][path[0]]), path[1..])
  {
    hide IsTable, Entry;
    EntryFields(p, PTE_TABLE);
    var w := WithTable(m, t, i, p);
    if |path| > 1 && path[0] < |m[u]| && u == t && path[0] == i { assert Walk(w, p, path[1..]) == 0; }
  }

  lemma LinkPlace(m: Tables, at: Places, t: nat, i: nat)
    requires t in at && t in m && i < |m[t]| && LinkOk(m, at, t, i)
    ensures Address(m[t][i]) in at && at[Address(m[t][i])] == at[t] + [i]
  {
  }

  // ---------- setting a last-level entry ----------

  function WithEntry(m: Tables, t: nat, i: nat, e: nat): Tables
    requires t in m && i < |m[t]|
  {
    var s: seq<nat> := m[t][i := e];
    m[t := s]
  }

  lemma EntrySet(m: Tables, root: nat, at: Places, t: nat, i: nat, e: nat)
    requires DirOk(m, root, at) && t in at && t in m && i < |m[t]| && |at[t]| == 3
    ensures DirOk(WithEntry(m, t, i, e), root, at)
  {
    hide Address, IsTable, Valid, TableOk, HasParent, Frame, LinkOk, WithEntry;
    var w := WithEntry(m, t, i, e);
    forall u | u in at ensures TableOk(w, at, u) { EntryTable(m, at, t, i, e, u); }
    forall u | u in at && |at[u]| > 0 ensures HasParent(w, at, u) { EntryParent(m, at, t, i, e, u); }
  }

  lemma EntryTable(m: Tables, at: Places, t: nat, i: nat, e: nat, u: nat)
    requires t in at && t in m && i < |m[t]| && |at[t]| == 3 && u in at && TableOk(m, at, u)
    ensures TableOk(WithEntry(m, t, i, e), at, u)
  {
    hide Address, IsTable, Valid, LinkOk, Frame;
    var w := WithEntry(m, t, i, e);
    if |at[u]| <= 2 {
      forall j | 0 <= j < N_PTE && Valid(w[u][j]) ensures LinkOk(w, at, u, j) { LinkStays(m, at, w, at, u, j); }
    }
  }

  lemma EntryParent(m: Tables, at: Places, t: nat, i: nat, e: nat, u: nat)
    requires t in at && t in m && i < |m[t]| && |at[t]| == 3 && u in at && |at[u]| > 0 && TableOk(m, at, u)
        && HasParent(m, at, u)
    ensures HasParent(WithEntry(m, t, i, e), at, u)
  {
    hide Address, IsTable, Valid, LinkOk, Frame;
    var n := |at[u]| - 1;
    var v :| v in at && v in m && at[v] == at[u][..n] && at[u][n] < |m[v]| && Valid(m[v][at[u][n]])
      && Address(m[v][at[u][n]]) == u;
    assert v != t;
  }

  lemma DirTable(m: Tables, root: nat, at: Places, t: nat)
    requires DirOk(m, root, at) && t in at
    ensures TableOk(m, at, t) && t != 0
  {
    assert TableOk(m, at, t);
  }

  lemma DirSame(m: Tables, root: nat, at: Places, t: nat, u: nat)
    requires DirOk(m, root, at) && t in at && u in at
    ensures at[t] == at[u] ==> t == u
  {
  }

  lemma LastStep(place: seq<nat>, path: seq<nat>, full: seq<nat>, other: seq<nat>)
    requires |place| == 3 && |path| == 1 && |full| == 4 && other == full[..3]
    ensures place + path == full <==> place == other && path[0] == full[3]
  {
    assert (place + path)[..3] == place;
    assert full == full[..3] + [full[3]];
  }

  lemma StepDown(place: seq<nat>, path: seq<nat>)
    requires |path| > 1
    ensures place + [path[0]] + path[1..] == place + path
    ensures path[..|path| - 1] != [] && path[..|path| - 1][0] == path[0]
    ensures path[..|path| - 1][1..] == path[1..][..|path[1..]| - 1]
  {
  }

  /** Writing the slot of `full` changes the translation of exactly that page number. */
  lemma {:induction false} SetWalks(m: Tables, root: nat, at: Places, t: nat, full: seq<nat>, e: nat, u: nat,
      path: seq<nat>)
    requires DirOk(m, root, at) && Path(full) && t in at && at[t] == full[..3] && t in m && full[3] < |m[t]|
    requires u in at && |at[u]| + |path| == 4 && (at[u] + path == full ==> Descend(m, u, path[..|path| - 1]) == t)
    ensures Walk(WithEntry(m, t, full[3], e), u, path) == if at[u] + path == full then e else Walk(m, u, path)
    decreases |path|
  {
    hide Address, IsTable, LinkOk, DirOk, Frame;
    DirTable(m, root, at, u);
    DirTable(m, root, at, t);
    DirSame(m, root, at, t, u);
    var w := WithEntry(m, t, full[3], e);
    if |path| == 1 {
      LastStep(at[u], path, full, at[t]);
    } else if path[0] < N_PTE && Valid(m[u][path[0]]) {
      assert LinkOk(m, at, u, path[0]);
      LinkPlace(m, at, u, path[0]);
      var c := Address(m[u][path[0]]);
      StepDown(at[u], path);
      SetWalks(m, root, at, t, full, e, c, path[1..]);
    } else {
      assert path[..|path| - 1] != [] && path[..|path| - 1][0] == path[0];
    }
  }

  /** Every place above a table belongs to a table whose entry leads on. */
  lemma {:induction false} Above(m: Tables, root: nat, at: Places, t: nat, k: nat) returns (u: nat)
    requires DirOk(m, root, at) && t in at && k < |at[t]|
    ensures u in at && u in m && at[u] == at[t][..k] && at[t][k] < |m[u]| && Valid(m[u][at[t][k]])
    decreases |at[t]|
  {
    hide Address, Valid, IsTable, TableOk, HasParent, DirOk;
    u := Parent(m, root, at, t);
    if k < |at[t]| - 1 {
      var v := u;
      u := Above(m, root, at, v, k);
      Shorter(at[t], |at[t]| - 1, k);
    }
  }

  lemma Shorter(s: seq<nat>, n: nat, k: nat)
    requires k < n <= |s|
    ensures s[..n][..k] == s[..k] && s[..n][k] == s[k]
  {
  }

  lemma {:induction false} DescendPlace(m: Tables, root: nat, at: Places, t: nat, u: nat, path: seq<nat>)
    requires DirOk(m, root, at) && t in at && u in at && at[t] == at[u] + path
    ensures Descend(m, u, path) == t
    decreases |path|
  {
    hide Address, Valid, IsTable, HasParent, Frame;
    if path != [] {
      var v := Above(m, root, at, t, |at[u]|);
      assert at[t][..|at[u]|] == at[u] && at[t][|at[u]|] == path[0];
      assert u == v && TableOk(m, at, u) && TableOk(m, at, t);
      LinkAt(m, at, u, path[0]);
      assert at[u] + [path[0]] + path[1..] == at[u] + path;
      DescendPlace(m, root, at, t, Address(m[u][path[0]]), path[1..]);
    }
  }

  lemma LinkAt(m: Tables, at: Places, t: nat, i: nat)
    requires t in at && TableOk(m, at, t) && |at[t]| <= 2 && i < N_PTE && Valid(m[t][i])
    ensures Address(m[t][i]) in at && at[Address(m[t][i])] == at[t] + [i] && IsTable(m[t][i])
  {
    assert LinkOk(m, at, t, i);
  }

  /** Nothing but the translation of page number `full` differs. */
  ghost predicate WalksBut(m: Tables, r: nat, w: Tables, q: nat, full: seq<nat>, e: nat) {
    forall path :: |path| == 4 ==> Walk(w, q, path) == if path == full then e else Walk(m, r, path)
  }

  ghost predicate SameWalks(m: Tables, r: nat, w: Tables, q: nat) {
    forall path :: |path| == 4 ==> Walk(w, q, path) == Walk(m, r, path)
  }

  /** The slot that `get_pte` returns for `full` translates `full`, and nothing else. */
  lemma SlotSet(m: Tables, root: nat, at: Places, t: nat, full: seq<nat>, e: nat)
    requires DirOk(m, root, at) && Path(full) && t in at && at[t] == full[..3] && t in m && full[3] < |m[t]|
    ensures DirOk(WithEntry(m, t, full[3], e), root, at)
    ensures WalksBut(m, root, WithEntry(m, t, full[3], e), root, full, e) && Walk(m, root, full) == m[t][full[3]]
  {
    hide Walk, Descend, Address, Valid, IsTable, TableOk, HasParent;
    assert root in at && at[root] == [];
    DescendPlace(m, root, at, t, root, full[..3]);
    EntrySet(m, root, at, t, full[3], e);
    forall path | |path| == 4
      ensures Walk(WithEntry(m, t, full[3], e), root, path) == if path == full then e else Walk(m, root, path)
    {
      assert at[root] + path == path;
      SetWalks(m, root, at, t, full, e, root, path);
    }
    assert at[root] + full == full;
    SetWalks(m, root, at, t, full, m[t][full[3]], root, full);
    assert m[t][full[3] := m[t][full[3]]] == m[t];
    assert WithEntry(m, t, full[3], m[t][full[3]]) == m;
  }

  lemma WalksAdded(m: Tables, root: nat, at: Places, t: nat, i: nat, p: nat)
    requires DirOk(m, root, at) && t in at && t in m && i < |m[t]| && |at[t]| <= 2 && !Valid(m[t][i]) && Frame(p)
        && p !in m
    ensures SameWalks(m, root, WithTable(m, t, i, p), root)
  {
    hide Walk, Address, Valid, IsTable, TableOk, HasParent;
    assert root in at && at[root] == [];
    forall path | |path| == 4 ensures Walk(WithTable(m, t, i, p), root, path) == Walk(m, root, path) {
      AddedWalks(m, root, at, t, i, p, root, path);
    }
  }

  // ---------- frames ----------

  /** Tables of other directories and their walks stay as they are. */
  lemma {:induction false} WalkElsewhere(m: Tables, root: nat, at: Places, w: Tables, u: nat, path: seq<nat>)
    requires DirOk(m, root, at) && u in at && |at[u]| + |path| == 4 && forall t :: t in at && t in m ==>
        t in w && w[t] == m[t]
    ensures Walk(w, u, path) == Walk(m, u, path)
    decreases |path|
  {
    hide Address, Valid, IsTable, HasParent, LinkOk;
    assert TableOk(m, at, u);
    if |path| > 1 && path[0] < N_PTE && Valid(m[u][path[0]]) {
      LinkAt(m, at, u, path[0]);
      WalkElsewhere(m, root, at, w, Address(m[u][path[0]]), path[1..]);
    }
  }

  lemma DirElsewhere(m: Tables, root: nat, at: Places, w: Tables)
    requires DirOk(m, root, at) && forall t :: t in at && t in m ==> t in w && w[t] == m[t]
    ensures DirOk(w, root, at) && (root != 0 ==> SameWalks(m, root, w, root))
  {
    hide Walk, Address, Valid, IsTable;
    forall t | t in at ensures TableOk(w, at, t) {
      assert TableOk(m, at, t);
      if |at[t]| <= 2 {
        forall i | 0 <= i < N_PTE && Valid(w[t][i]) ensures LinkOk(w, at, t, i) { assert LinkOk(m, at, t, i); }
      }
    }
    forall t | t in at && |at[t]| > 0 ensures HasParent(w, at, t) {
      var u := Parent(m, root, at, t);
      assert u in at && u in w && at[u] == at[t][..|at[t]| - 1];
    }
    if root != 0 {
      forall path | |path| == 4 ensures Walk(w, root, path) == Walk(m, root, path) {
        WalkElsewhere(m, root, at, w, root, path);
      }
    }
  }
}
