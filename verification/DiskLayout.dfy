/** Where everything is on the disk, byte by byte: `fs/defines.h` and the places that read and write it. */
module DiskLayout {
  import opened Bytes
  import opened Sequences
  import opened Bitmap
  import opened Wal
  import opened InodeModel
  import opened InodeSteps

  // ---------- numbers ----------

  /** The last byte of a number counts most. */
  lemma {:induction false} DecodeAppend(b: seq<byte>, x: byte)
    ensures Decode(b + [x]) == Decode(b) + x as nat * Pow256(|b|)
  {
    if b == [] {
      assert [x][1..] == [];
    } else {
      assert (b + [x])[1..] == b[1..] + [x];
      DecodeAppend(b[1..], x);
    }
  }

  function U16(b: seq<byte>, o: nat): nat
    requires o + 2 <= |b|
  {
    b[o] as nat + 0x100 * b[o + 1] as nat
  }

  function U32(b: seq<byte>, o: nat): nat
    requires o + 4 <= |b|
  {
    b[o] as nat + 0x100 * b[o + 1] as nat + 0x1_0000 * b[o + 2] as nat + 0x100_0000 * b[o + 3] as nat
  }

  lemma DecodeFirst(b: seq<byte>, i: nat, j: nat)
    requires i < j <= |b|
    ensures Decode(b[i..j]) == b[i] as nat + 0x100 * Decode(b[i + 1..j])
  {
    assert b[i..j][1..] == b[i + 1..j];
  }

  lemma Two(b: seq<byte>, o: nat)
    requires o + 2 <= |b|
    ensures Decode(b[o..o + 2]) == U16(b, o)
  {
    DecodeFirst(b, o, o + 2);
    DecodeFirst(b, o + 1, o + 2);
    assert b[o + 2..o + 2] == [];
  }

  lemma Four(b: seq<byte>, o: nat)
    requires o + 4 <= |b|
    ensures Decode(b[o..o + 4]) == U32(b, o)
  {
    DecodeFirst(b, o, o + 4);
    DecodeFirst(b, o + 1, o + 4);
    DecodeFirst(b, o + 2, o + 4);
    DecodeFirst(b, o + 3, o + 4);
    assert b[o + 4..o + 4] == [];
  }

  lemma {:induction false} ArrayAt(b: seq<byte>, w: nat, n: nat, i: nat)
    requires |b| == n * w && i < n
    ensures i * w + w <= |b| && DecodeAll(b, w, n)[i] == Decode(b[i * w..i * w + w])
    decreases n
  {
    assert w <= n * w && (n - 1) * w == n * w - w;
    if i > 0 {
      ArrayAt(b[w..], w, n - 1, i - 1);
      assert (i - 1) * w == i * w - w;
      assert b[w..][(i - 1) * w..(i - 1) * w + w] == b[i * w..i * w + w];
    }
  }

  lemma Slice(b: seq<byte>, i: nat, j: nat, k: nat, l: nat, m: nat, n: nat)
    requires i <= j <= |b| && k <= l <= j - i && m <= n <= l - k
    ensures b[i..j][k..l][m..n] == b[i + k + m..i + k + n]
  {
    SliceOnce(b[i..j], k, l, m, n);
    SliceOnce(b, i, j, k + m, k + n);
  }

  lemma SliceOnce(b: seq<byte>, k: nat, l: nat, m: nat, n: nat)
    requires k <= l <= |b| && m <= n <= l - k
    ensures b[k..l][m..n] == b[k + m..k + n]
  {
    var x, y := b[k..l][m..n], b[k + m..k + n];
    forall t | 0 <= t < n - m ensures x[t] == y[t] {
      assert x[t] == b[k..l][m + t] == b[k + (m + t)];
      assert y[t] == b[k + m + t];
    }
    assert |x| == n - m == |y|;
  }

  // ---------- inodes ----------

  /** Inode `no` is the 64 bytes from `64 * (no % 8)` on of block `inodeStart + no / 8`: type, device numbers and
      links in two bytes each, then the size, twelve addresses and the indirect block in four. */
  lemma InodeLayout(g: Geometry, c: seq<Block>, no: nat)
    requires g.inodeStart + no / 8 < |c|
    ensures var e, b, o := OnDisk(g, c, no), c[g.inodeStart + no / 8], 64 * (no % 8);
            && e.kind == U16(b, o) && e.major == U16(b, o + 2) && e.minor == U16(b, o + 4) && e.links == U16(b, o + 6)
            && e.size == U32(b, o + 8) && e.indirect == U32(b, o + 60) && |e.addrs| == 12
            && forall i :: 0 <= i < 12 ==> e.addrs[i] == U32(b, o + 12 + 4 * i)
  {
    hide DecodeAll, Decode, U16, U32;
    var b, o := c[g.inodeStart + no / 8], 64 * (no % 8);
    var r := b[o..o + 64];
    assert r[8..] == r[8..64];
    forall i | 0 <= i < 4 ensures DecodeAll(r[..8], 2, 4)[i] == U16(b, o + 2 * i) {
      ArrayAt(r[..8], 2, 4, i);
      Slice(b, o, o + 64, 0, 8, i * 2, i * 2 + 2);
      Two(b, o + 2 * i);
    }
    forall i | 0 <= i < 14 ensures DecodeAll(r[8..], 4, 14)[i] == U32(b, o + 8 + 4 * i) {
      ArrayAt(r[8..], 4, 14, i);
      Slice(b, o, o + 64, 8, 64, i * 4, i * 4 + 4);
      Four(b, o + 8 + 4 * i);
    }
  }

  /** Word `j` of an indirect block is in its bytes `4 * j` to `4 * j + 3`. */
  lemma WordLayout(b: Block, j: nat)
    requires j < INODE_NUM_INDIRECT
    ensures Word(b, j) == U32(b, 4 * j)
  {
    Four(b, 4 * j);
  }

  /** The first twelve slots of a file are its addresses, the next 128 are the words of its indirect block. */
  lemma SlotLayout(e: Dinode, c: seq<Block>, k: nat)
    requires |e.addrs| == INODE_NUM_DIRECT && k < INODE_MAX_BLOCKS
    ensures k < 12 ==> Slot(e, c, k) == e.addrs[k]
    ensures k >= 12 && e.indirect == 0 ==> Slot(e, c, k) == 0
    ensures k >= 12 && 0 < e.indirect < |c| ==> Slot(e, c, k) == U32(c[e.indirect], 4 * (k - 12))
  {
    hide Word, U32;
    if k >= 12 && 0 < e.indirect < |c| { WordLayout(c[e.indirect], k - 12); }
  }

  // ---------- bitmap ----------

  lemma {:induction false} BitIs(b: nat, j: nat)
    ensures Pow2(j) > 0 && (Bit(b, j) <==> b / Pow2(j) % 2 == 1)
    decreases j
  {
    if j > 0 {
      BitIs(b / 2, j - 1);
      Halve(b, Pow2(j - 1));
    }
  }

  lemma Halve(b: nat, p: nat)
    requires p > 0
    ensures b / 2 / p == b / (2 * p)
  {
    var q, r := b / 2 / p, b / 2 % p;
    assert b / 2 == q * p + r;
    assert 2 * (q * p) == q * (2 * p);
    assert 2 * r + b % 2 < 2 * p;
    Quotient(b, q, 2 * p, 2 * r + b % 2);
  }

  lemma Quotient(b: nat, q: nat, p: nat, r: nat)
    requires r < p && b == q * p + r
    ensures b / p == q
  {
    var k := b / p;
    assert b == p * k + b % p;
    assert (k + 1) * p == k * p + p && (q + 1) * p == q * p + p;
    if k < q { Times(k + 1, q, p); } else if k > q { Times(q + 1, k, p); }
  }

  lemma Times(a: nat, b: nat, p: nat)
    requires a <= b
    ensures a * p <= b * p
  {
  }

  /** The mark of block `n` is bit `n % 8` of byte `n % 4096 / 8` of block `bm + n / 4096`. */
  lemma MarkLayout(c: seq<Block>, bm: nat, n: nat)
    requires bm + n / 4096 < |c|
    ensures Pow2(n % 8) > 0
    ensures Marked(c, bm, n) <==> c[bm + n / 4096][n % 4096 / 8] as nat / Pow2(n % 8) % 2 == 1
  {
    BitIs(c[bm + n / 4096][n % 4096 / 8] as nat, n % 8);
  }

  // ---------- log ----------

  /** The header block: the count in its first eight bytes, then 63 block numbers of eight bytes. */
  lemma HeaderLayout(b: Block)
    ensures var h := ReadHeader(b);
            && h.num == Decode(b[..8])
            && forall i :: 0 <= i < LOG_MAX_SIZE ==> h.nos[i] == Decode(b[8 + 8 * i..16 + 8 * i])
  {
    hide DecodeAll, Decode;
    forall i | 0 <= i < 64 ensures DecodeAll(b, 8, 64)[i] == Decode(b[8 * i..8 * i + 8]) { ArrayAt(b, 8, 64, i); }
  }

  /** A commit writes the listed blocks to the log in the order of the list, the header, the same blocks
      home, and the cleared header. */
  lemma CommitInOrder(start: nat, h: Header, c: seq<Block>)
    requires |h.nos| == LOG_MAX_SIZE && h.num <= LOG_MAX_SIZE && forall i :: 0 <= i < h.num ==> h.nos[i] < |c|
    ensures var ws, n := CommitWrites(start, h, GroupOf(h, c)), h.num;
            && |ws| == 2 * n + 2
            && (forall i :: 0 <= i < n ==> ws[i] == Write(start + 1 + i, c[h.nos[i]]))
            && ws[n] == Write(start, HeaderBlock(h))
            && (forall i :: 0 <= i < n ==> ws[n + 1 + i] == Write(h.nos[i], c[h.nos[i]]))
            && ws[2 * n + 1] == Write(start, HeaderBlock(h.Cleared()))
  {
    hide HeaderBlock;
  }

  /** Recovery writes what the log holds home, in the order of the list, and then the cleared header. */
  lemma RecoveryInOrder(start: nat, d: Disk)
    requires start + LOG_MAX_SIZE < |d| && ReadHeader(d[start]).num <= LOG_MAX_SIZE
    ensures var ws, h := RecoveryWrites(start, d), ReadHeader(d[start]);
            && |ws| == h.num + 1
            && (forall i :: 0 <= i < h.num ==> ws[i] == Write(h.nos[i], d[start + 1 + i]))
            && ws[h.num] == Write(start, HeaderBlock(h.Cleared()))
  {
    hide HeaderBlock, ReadHeader;
  }
}
