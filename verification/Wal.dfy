/**
 The write-ahead log of `fs/cache.c` on the disk: what a commit and a recovery write, one device
 write at a time, and what a crash between any two writes leaves behind.
 */
module Wal {
  import opened Bytes

  const LOG_MAX_SIZE: nat := 63
  const OP_MAX_NUM_BLOCKS: nat := 10

  type Disk = seq<Block>

  datatype Write = Write(no: nat, data: Block)

  function Put(d: Disk, w: Write): Disk {
    if w.no < |d| then d[w.no := w.data] else d
  }

  function Apply(d: Disk, ws: seq<Write>): (r: Disk)
    ensures |r| == |d|
    decreases ws
  {
    if ws == [] then d else Apply(Put(d, ws[0]), ws[1..])
  }

  // ---------- the log header ----------

  datatype Header = Header(num: nat, nos: seq<nat>) {
    /** What fits the 64 words of 64 bits of the on-disk structure. */
    ghost predicate Fits() {
      |nos| == LOG_MAX_SIZE && num < Pow256(8) && forall i :: 0 <= i < |nos| ==> nos[i] < Pow256(8)
    }

    function Words(): seq<nat> { [num] + nos }

    /** `num_blocks = 0` and a `memset` that clears 63 bytes, not 63 entries, of `block_no`. */
    function Cleared(): Header
      requires |nos| == LOG_MAX_SIZE
    {
      Header(0, [0, 0, 0, 0, 0, 0, 0, ClearLow(nos[7], 7)] + nos[8..])
    }
  }

  function HeaderBlock(h: Header): Block
    requires |h.nos| == LOG_MAX_SIZE
  {
    EncodeAll(h.Words(), 8)
  }

  function ReadHeader(b: Block): (h: Header)
    ensures |h.nos| == LOG_MAX_SIZE
  {
    var ws := DecodeAll(b, 8, 64);
    Header(ws[0], ws[1..])
  }

  lemma ReadWritten(h: Header)
    requires h.Fits()
    ensures ReadHeader(HeaderBlock(h)) == h
  {
    DecodeAllEncodeAll(h.Words(), 8);
    assert h.Words()[1..] == h.nos;
  }

  lemma ClearedFits(h: Header)
    requires h.Fits()
    ensures h.Cleared().Fits()
  {
  }

  /** Clearing the header in memory clears the count and 63 bytes after it, and no other byte of the
      block; seven entries and part of an eighth. */
  lemma ClearedBytes(h: Header)
    requires h.Fits()
    ensures HeaderBlock(h.Cleared()) == ZeroBytes(8 + LOG_MAX_SIZE) + HeaderBlock(h)[8 + LOG_MAX_SIZE..]
    ensures ReadHeader(HeaderBlock(h.Cleared())).num == 0
  {
    hide Pow256, EncodeAll, Encode, DecodeAll, ClearLow;
    ClearedFits(h);
    ReadWritten(h.Cleared());
    var a, v, rest := h.Words()[..8], h.nos[7], h.nos[8..];
    assert h.Words() == a + ([v] + rest);
    assert h.Cleared().Words() == [0, 0, 0, 0, 0, 0, 0, 0] + ([ClearLow(v, 7)] + rest);
    WordsBytes(a, v, rest);
    WordsBytes([0, 0, 0, 0, 0, 0, 0, 0], ClearLow(v, 7), rest);
    EncodeAllZero([0, 0, 0, 0, 0, 0, 0, 0], 8);
    ClearLowBytes(v, 8, 7);
    CutAt(EncodeAll(a, 8), Encode(v, 8), EncodeAll(rest, 8));
  }

  lemma WordsBytes(a: seq<nat>, v: nat, rest: seq<nat>)
    ensures EncodeAll(a + ([v] + rest), 8) == EncodeAll(a, 8) + (Encode(v, 8) + EncodeAll(rest, 8))
  {
    hide EncodeAll, Encode;
    EncodeAllOn(a, [v] + rest, 8);
    EncodeAllOn([v], rest, 8);
    OneWord(v);
  }

  lemma OneWord(n: nat)
    ensures EncodeAll([n], 8) == Encode(n, 8)
  {
    assert [n][1..] == [];
    assert EncodeAll([], 8) == [];
  }

  lemma CutAt(a: seq<byte>, b: seq<byte>, c: seq<byte>)
    requires |a| == 64 && |b| == 8
    ensures (a + (b + c))[71..] == b[7..] + c
    ensures ZeroBytes(64) + (ZeroBytes(7) + b[7..] + c) == ZeroBytes(71) + (b[7..] + c)
  {
  }

  lemma {:induction false} DecodedFits(b: seq<byte>, w: nat, n: nat)
    requires |b| == n * w
    ensures forall i :: 0 <= i < n ==> DecodeAll(b, w, n)[i] < Pow256(w)
    decreases n
  {
    if n > 0 {
      assert w <= n * w && (n - 1) * w == n * w - w;
      EncodeDecode(b[..w]);
      DecodedFits(b[w..], w, n - 1);
    }
  }

  lemma ReadFits(b: Block)
    ensures ReadHeader(b).Fits()
  {
    DecodedFits(b, 8, 64);
  }

  // ---------- the log area ----------

  /** Blocks `start .. start + 63`: the header and its 63 slots. */
  predicate InLog(start: nat, b: nat) { start <= b <= start + LOG_MAX_SIZE }

  ghost predicate SameHome(start: nat, d: Disk, e: Disk) {
    |d| == |e| && forall b :: 0 <= b < |d| && !InLog(start, b) ==> d[b] == e[b]
  }

  /** A group of home blocks: distinct, outside the log area, on the disk. */
  ghost predicate IsGroup(start: nat, size: nat, g: seq<Write>) {
    && |g| <= LOG_MAX_SIZE
    && (forall i, j :: 0 <= i < j < |g| ==> g[i].no != g[j].no)
    && (forall i :: 0 <= i < |g| ==> g[i].no < size && !InLog(start, g[i].no))
  }

  /** The header lists valid home blocks. */
  ghost predicate GoodHeader(start: nat, size: nat, h: Header) {
    && h.Fits() && h.num <= LOG_MAX_SIZE
    && (forall i, j :: 0 <= i < j < h.num ==> h.nos[i] != h.nos[j])
    && (forall i :: 0 <= i < h.num ==> h.nos[i] < size && !InLog(start, h.nos[i]))
  }

  ghost predicate GoodDisk(start: nat, d: Disk) {
    start + LOG_MAX_SIZE < |d| && GoodHeader(start, |d|, ReadHeader(d[start]))
  }

  // ---------- what a commit and a recovery write ----------

  function LogCopies(start: nat, g: seq<Write>): seq<Write> {
    seq(|g|, i requires 0 <= i < |g| => Write(start + 1 + i, g[i].data))
  }

  /** Lines 350-375: log copies, header, home blocks, cleared header. */
  function CommitWrites(start: nat, h: Header, g: seq<Write>): seq<Write>
    requires |h.nos| == LOG_MAX_SIZE
  {
    LogCopies(start, g) + [Write(start, HeaderBlock(h))] + g + [Write(start, HeaderBlock(h.Cleared()))]
  }

  /** The group that the on-disk header and slots describe. */
  function Logged(start: nat, d: Disk): seq<Write>
    requires start + LOG_MAX_SIZE < |d| && ReadHeader(d[start]).num <= LOG_MAX_SIZE
  {
    var h := ReadHeader(d[start]);
    seq(h.num, i requires 0 <= i < h.num => Write(h.nos[i], d[start + 1 + i]))
  }

  /** Lines 235-249: home blocks, cleared header. */
  function RecoveryWrites(start: nat, d: Disk): seq<Write>
    requires start + LOG_MAX_SIZE < |d| && ReadHeader(d[start]).num <= LOG_MAX_SIZE
  {
    Logged(start, d) + [Write(start, HeaderBlock(ReadHeader(d[start]).Cleared()))]
  }

  function Recovered(start: nat, d: Disk): Disk
    requires start + LOG_MAX_SIZE < |d| && ReadHeader(d[start]).num <= LOG_MAX_SIZE
  {
    Apply(d, RecoveryWrites(start, d))
  }

  /** What a header lists, with the given contents of the disk. */
  function GroupOf(h: Header, c: seq<Block>): seq<Write> {
    seq(h.num, i requires 0 <= i < h.num =>
      if i < |h.nos| && h.nos[i] < |c| then Write(h.nos[i], c[h.nos[i]]) else Write(0, ZeroBlock()))
  }

  // ---------- applying writes ----------

  lemma {:induction false} ApplyAppend(d: Disk, a: seq<Write>, b: seq<Write>)
    ensures Apply(d, a + b) == Apply(Apply(d, a), b)
    decreases a
  {
    if a == [] {
      assert a + b == b;
    } else {
      ApplyAppend(Put(d, a[0]), a[1..], b);
      assert (a + b)[0] == a[0] && (a + b)[1..] == a[1..] + b;
    }
  }

  lemma ApplyStep(d: Disk, ws: seq<Write>, k: nat)
    requires k < |ws|
    ensures Apply(d, ws[..k + 1]) == Put(Apply(d, ws[..k]), ws[k])
  {
    assert ws[..k + 1] == ws[..k] + [ws[k]];
    ApplyAppend(d, ws[..k], [ws[k]]);
  }

  lemma {:induction false} ApplyOutside(d: Disk, ws: seq<Write>, b: nat)
    requires b < |d| && forall i :: 0 <= i < |ws| ==> ws[i].no != b
    ensures Apply(d, ws)[b] == d[b]
    decreases ws
  {
    if ws != [] { ApplyOutside(Put(d, ws[0]), ws[1..], b); }
  }

  lemma {:induction false} ApplyAt(d: Disk, ws: seq<Write>, k: nat)
    requires k < |ws| && ws[k].no < |d| && forall i, j :: 0 <= i < j < |ws| ==> ws[i].no != ws[j].no
    ensures Apply(d, ws)[ws[k].no] == ws[k].data
    decreases ws
  {
    if k == 0 {
      ApplyOutside(Put(d, ws[0]), ws[1..], ws[0].no);
    } else {
      ApplyAt(Put(d, ws[0]), ws[1..], k - 1);
    }
  }

  /** Applying a group depends on the home blocks only, and absorbs any part of itself. */
  lemma ApplyAbsorbs(start: nat, d: Disk, e: Disk, g: seq<Write>, k: nat)
    requires IsGroup(start, |d|, g) && k <= |g| && SameHome(start, e, Apply(d, g[..k]))
    ensures SameHome(start, Apply(e, g), Apply(d, g))
  {
    forall b | 0 <= b < |d| && !InLog(start, b) ensures Apply(e, g)[b] == Apply(d, g)[b] {
      if i :| 0 <= i < |g| && g[i].no == b {
        ApplyAt(e, g, i);
        ApplyAt(d, g, i);
      } else {
        ApplyOutside(e, g, b);
        ApplyOutside(d, g, b);
        ApplyOutside(d, g[..k], b);
      }
    }
  }

  lemma {:induction false} ApplyInLog(start: nat, d: Disk, ws: seq<Write>)
    requires forall i :: 0 <= i < |ws| ==> InLog(start, ws[i].no)
    ensures SameHome(start, Apply(d, ws), d)
  {
    forall b | 0 <= b < |d| && !InLog(start, b) ensures Apply(d, ws)[b] == d[b] {
      ApplyOutside(d, ws, b);
    }
  }

  // ---------- every prefix of a commit recovers to the old or the new contents ----------

  /** With a zero count on disk, recovery changes no home block. */
  lemma RecoverIdle(start: nat, d: Disk)
    requires GoodDisk(start, d) && ReadHeader(d[start]).num == 0
    ensures SameHome(start, Recovered(start, d), d)
  {
    hide HeaderBlock, ReadHeader, Apply;
    assert Logged(start, d) == [];
    ApplyInLog(start, d, RecoveryWrites(start, d));
  }

  /** A disk whose log holds exactly `g`. */
  ghost predicate Holds(start: nat, d: Disk, g: seq<Write>) {
    && start + LOG_MAX_SIZE < |d| && ReadHeader(d[start]).num == |g| <= LOG_MAX_SIZE
    && forall i :: 0 <= i < |g| ==> ReadHeader(d[start]).nos[i] == g[i].no && d[start + 1 + i] == g[i].data
  }

  lemma RecoverHolding(start: nat, d: Disk, e: Disk, g: seq<Write>, k: nat)
    requires IsGroup(start, |d|, g) && k <= |g| && SameHome(start, e, Apply(d, g[..k])) && Holds(start, e, g)
    ensures SameHome(start, Recovered(start, e), Apply(d, g))
  {
    hide ReadHeader, HeaderBlock, Apply;
    assert Logged(start, e) == g;
    var last := [Write(start, HeaderBlock(ReadHeader(e[start]).Cleared()))];
    ApplyAppend(e, g, last);
    ApplyInLog(start, Apply(e, g), last);
    ApplyAbsorbs(start, d, e, g, k);
  }

  ghost predicate Lists(h: Header, g: seq<Write>) {
    h.Fits() && h.num == |g| <= LOG_MAX_SIZE && forall i :: 0 <= i < |g| ==> h.nos[i] == g[i].no
  }

  /** During the log copies. */
  lemma PrefixCopies(start: nat, d: Disk, g: seq<Write>, k: nat)
    requires GoodDisk(start, d) && ReadHeader(d[start]).num == 0 && |g| <= LOG_MAX_SIZE && k <= |g|
    ensures var e := Apply(d, LogCopies(start, g)[..k]);
            && e[start] == d[start] && GoodDisk(start, e) && SameHome(start, e, d)
            && (forall i :: 0 <= i < k ==> e[start + 1 + i] == g[i].data)
  {
    hide ReadHeader, HeaderBlock, Apply;
    var ws := LogCopies(start, g)[..k];
    ApplyOutside(d, ws, start);
    ApplyInLog(start, d, ws);
    forall i | 0 <= i < k ensures Apply(d, ws)[start + 1 + i] == g[i].data {
      ApplyAt(d, ws, i);
    }
  }

  /** After the header write, during the home writes. */
  lemma PrefixHomes(start: nat, d: Disk, h: Header, g: seq<Write>, k: nat)
    requires GoodDisk(start, d) && ReadHeader(d[start]).num == 0 && IsGroup(start, |d|, g) && Lists(h, g) && k <= |g|
    ensures var e := Apply(Put(Apply(d, LogCopies(start, g)), Write(start, HeaderBlock(h))), g[..k]);
            Holds(start, e, g) && e[start] == HeaderBlock(h) && SameHome(start, e, Apply(d, g[..k]))
  {
    hide ReadHeader, HeaderBlock, Apply, GoodHeader, IsGroup;
    var ws := LogCopies(start, g);
    assert ws[..|g|] == ws;
    PrefixCopies(start, d, g, |g|);
    var m := Put(Apply(d, ws), Write(start, HeaderBlock(h)));
    ReadWritten(h);
    assert SameHome(start, m, d);
    HomesKeepLog(start, m, g, k);
    SamePrefix(start, m, d, g[..k]);
  }

  /** Home writes do not touch the log. */
  lemma HomesKeepLog(start: nat, m: Disk, g: seq<Write>, k: nat)
    requires start + LOG_MAX_SIZE < |m| && IsGroup(start, |m|, g) && k <= |g|
    ensures forall b :: start <= b <= start + |g| ==> Apply(m, g[..k])[b] == m[b]
  {
    hide Apply;
    forall b | start <= b <= start + |g| ensures Apply(m, g[..k])[b] == m[b] { ApplyOutside(m, g[..k], b); }
  }

  lemma {:induction false} SamePrefix(start: nat, m: Disk, d: Disk, ws: seq<Write>)
    requires SameHome(start, m, d)
    ensures SameHome(start, Apply(m, ws), Apply(d, ws))
    decreases ws
  {
    if ws != [] { SamePrefix(start, Put(m, ws[0]), Put(d, ws[0]), ws[1..]); }
  }

  /** The cleared header is on disk: recovery has nothing left to do. */
  lemma RecoverCleared(start: nat, e: Disk, h: Header)
    requires start + LOG_MAX_SIZE < |e| && h.Fits()
    ensures var c := Put(e, Write(start, HeaderBlock(h.Cleared())));
            && GoodDisk(start, c) && ReadHeader(c[start]).num == 0
            && SameHome(start, c, e) && SameHome(start, Recovered(start, c), e)
  {
    hide HeaderBlock, ReadHeader, Apply, Recovered;
    var c := Put(e, Write(start, HeaderBlock(h.Cleared())));
    ClearedReads(start, |e|, h);
    RecoverIdle(start, c);
  }

  lemma ClearedReads(start: nat, size: nat, h: Header)
    requires h.Fits()
    ensures ReadHeader(HeaderBlock(h.Cleared())).num == 0 && GoodHeader(start, size,
        ReadHeader(HeaderBlock(h.Cleared())))
  {
    hide HeaderBlock, ReadHeader;
    ClearedFits(h);
    ReadWritten(h.Cleared());
  }

  ghost predicate CommitOk(start: nat, d: Disk, h: Header, g: seq<Write>) {
    GoodDisk(start, d) && ReadHeader(d[start]).num == 0 && IsGroup(start, |d|, g) && Lists(h, g)
  }

  lemma CommitEarly(start: nat, d: Disk, h: Header, g: seq<Write>, k: nat)
    requires CommitOk(start, d, h, g) && k <= |g|
    ensures k <= |CommitWrites(start, h, g)|
    ensures var e := Apply(d, CommitWrites(start, h, g)[..k]);
            GoodDisk(start, e) && SameHome(start, Recovered(start, e), d)
  {
    hide HeaderBlock, ReadHeader, Apply;
    assert CommitWrites(start, h, g)[..k] == LogCopies(start, g)[..k];
    PrefixCopies(start, d, g, k);
    RecoverIdle(start, Apply(d, LogCopies(start, g)[..k]));
  }

  /** The disk after the header write and `j` home writes. */
  lemma CommitDisk(start: nat, d: Disk, h: Header, g: seq<Write>, j: nat)
    requires j <= |g| <= LOG_MAX_SIZE && Lists(h, g)
    ensures |g| + 1 + j < |CommitWrites(start, h, g)|
    ensures Apply(d, CommitWrites(start, h, g)[..|g| + 1 + j])
            == Apply(Put(Apply(d, LogCopies(start, g)), Write(start, HeaderBlock(h))), g[..j])
  {
    hide HeaderBlock, Apply, LogCopies;
    LogCopiesLength(start, g);
    var copies, mark := LogCopies(start, g), Write(start, HeaderBlock(h));
    assert CommitWrites(start, h, g)[..|g| + 1 + j] == copies + ([mark] + g[..j]);
    ApplyAppend(d, copies, [mark] + g[..j]);
    ApplyAppend(Apply(d, copies), [mark], g[..j]);
    ApplyOne(Apply(d, copies), mark);
  }

  lemma CommitMiddle(start: nat, d: Disk, h: Header, g: seq<Write>, j: nat)
    requires CommitOk(start, d, h, g) && j <= |g|
    ensures |g| + 1 + j < |CommitWrites(start, h, g)|
    ensures var e := Apply(d, CommitWrites(start, h, g)[..|g| + 1 + j]);
            GoodDisk(start, e) && SameHome(start, Recovered(start, e), Apply(d, g))
              && SameHome(start, e, Apply(d, g[..j]))
  {
    hide HeaderBlock, ReadHeader, Apply, LogCopies, CommitWrites;
    CommitDisk(start, d, h, g, j);
    PrefixHomes(start, d, h, g, j);
    var e := Apply(Put(Apply(d, LogCopies(start, g)), Write(start, HeaderBlock(h))), g[..j]);
    HoldsGood(start, e, h, g);
    RecoverHolding(start, d, e, g, j);
  }

  lemma CommitLate(start: nat, d: Disk, h: Header, g: seq<Write>)
    requires CommitOk(start, d, h, g)
    ensures var e := Apply(d, CommitWrites(start, h, g));
            && GoodDisk(start, e) && ReadHeader(e[start]).num == 0
            && SameHome(start, e, Apply(d, g)) && SameHome(start, Recovered(start, e), Apply(d, g))
  {
    hide HeaderBlock, ReadHeader, Apply, LogCopies;
    CommitMiddle(start, d, h, g, |g|);
    var ws, last := CommitWrites(start, h, g), Write(start, HeaderBlock(h.Cleared()));
    LogCopiesLength(start, g);
    var e := Apply(d, ws[..2 * |g| + 1]);
    assert g[..|g|] == g;
    assert ws == ws[..2 * |g| + 1] + [last];
    ApplyAppend(d, ws[..2 * |g| + 1], [last]);
    ApplyOne(e, last);
    RecoverCleared(start, e, h);
  }

  /** The commit point: before the header write a crash loses the whole group, from then on it
      keeps the whole group. */
  lemma CommitPrefix(start: nat, d: Disk, h: Header, g: seq<Write>, k: nat)
    requires CommitOk(start, d, h, g) && k <= |CommitWrites(start, h, g)|
    ensures var e := Apply(d, CommitWrites(start, h, g)[..k]);
            && GoodDisk(start, e)
            && SameHome(start, Recovered(start, e), if k <= |g| then d else Apply(d, g))
            && (k == |CommitWrites(start, h, g)| ==> ReadHeader(e[start]).num == 0 && SameHome(start, e, Apply(d, g)))
  {
    hide HeaderBlock, ReadHeader, Apply, LogCopies, Recovered, GoodDisk;
    LogCopiesLength(start, g);
    if k <= |g| {
      CommitEarly(start, d, h, g, k);
    } else if k <= 2 * |g| + 1 {
      CommitMiddle(start, d, h, g, k - |g| - 1);
    } else {
      assert CommitWrites(start, h, g)[..k] == CommitWrites(start, h, g);
      CommitLate(start, d, h, g);
    }
  }

  lemma LogCopiesLength(start: nat, g: seq<Write>)
    ensures |LogCopies(start, g)| == |g|
  {
  }

  lemma ApplyOne(d: Disk, w: Write)
    ensures Apply(d, [w]) == Put(d, w)
  {
  }

  lemma HoldsGood(start: nat, e: Disk, h: Header, g: seq<Write>)
    requires Lists(h, g) && IsGroup(start, |e|, g) && start + LOG_MAX_SIZE < |e| && e[start] == HeaderBlock(h)
    ensures GoodDisk(start, e)
  {
    ReadWritten(h);
  }

  /** A crash during recovery leaves a disk that recovers to the same home blocks. */
  lemma RecoveryPrefix(start: nat, d: Disk, k: nat)
    requires GoodDisk(start, d) && k <= |RecoveryWrites(start, d)|
    ensures var e := Apply(d, RecoveryWrites(start, d)[..k]);
            && GoodDisk(start, e) && SameHome(start, Recovered(start, e), Recovered(start, d))
            && (k == |RecoveryWrites(start, d)| ==>
                ReadHeader(e[start]).num == 0 && SameHome(start, e, Recovered(start, d)))
  {
    hide HeaderBlock, ReadHeader, Apply;
    var g, h, ws := Logged(start, d), ReadHeader(d[start]), RecoveryWrites(start, d);
    var j, last := if k <= |g| then k else |g|, Write(start, HeaderBlock(h.Cleared()));
    var e := Apply(d, g[..j]);
    LoggedStays(start, d, j);
    RecoverHolding(start, d, e, g, j);
    LoggedStays(start, d, 0);
    assert Apply(d, g[..0]) == d by { ApplyNone(d, g[..0]); }
    RecoverHolding(start, d, d, g, 0);
    if k <= |g| {
      assert ws[..k] == g[..j];
    } else {
      assert g[..j] == g && ws[..k] == g + [last];
      ApplyAppend(d, g, [last]);
      ApplyOne(e, last);
      RecoverCleared(start, e, h);
    }
  }

  lemma ApplyNone(d: Disk, ws: seq<Write>)
    requires ws == []
    ensures Apply(d, ws) == d
  {
  }

  lemma LoggedStays(start: nat, d: Disk, j: nat)
    requires GoodDisk(start, d) && j <= |Logged(start, d)|
    ensures var g := Logged(start, d); var e := Apply(d, g[..j]);
            IsGroup(start, |d|, g) && Holds(start, e, g) && GoodDisk(start, e) && e[start] == d[start]
  {
    hide HeaderBlock, ReadHeader, Apply;
    var g := Logged(start, d);
    ApplyOutside(d, g[..j], start);
    forall i | 0 <= i < |g| ensures Apply(d, g[..j])[start + 1 + i] == g[i].data {
      ApplyOutside(d, g[..j], start + 1 + i);
    }
  }
}
