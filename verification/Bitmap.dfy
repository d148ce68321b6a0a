/** The block bitmap: bits of bytes, and what one bit update does to the set of allocated blocks. */
module Bitmap {
  import opened Bytes
  import opened Sequences

  const BIT_PER_BLOCK: nat := 4096

  /** `(b >> j) & 1` */
  predicate Bit(b: int, j: nat)
    requires 0 <= b
    decreases j
  {
    if j == 0 then b % 2 == 1 else Bit(b / 2, j - 1)
  }

  /** `b | (1 << j)` */
  function SetBit(b: int, j: nat): (r: int)
    requires 0 <= b
    ensures 0 <= r
    decreases j
  {
    if j == 0 then (if b % 2 == 1 then b else b + 1) else 2 * SetBit(b / 2, j - 1) + b % 2
  }

  /** `b & ~(1 << j)` */
  function ClearBit(b: int, j: nat): (r: int)
    requires 0 <= b
    ensures 0 <= r <= b
    decreases j
  {
    if j == 0 then (if b % 2 == 1 then b - 1 else b) else 2 * ClearBit(b / 2, j - 1) + b % 2
  }

  lemma {:induction false} SetBitBits(b: int, j: nat, k: nat)
    requires 0 <= b
    ensures Bit(SetBit(b, j), k) <==> k == j || Bit(b, k)
    decreases j
  {
    var r := SetBit(b, j);
    if j == 0 {
      assert r / 2 == b / 2;
    } else {
      SetBitBits(b / 2, j - 1, if k == 0 then 0 else k - 1);
      assert r / 2 == SetBit(b / 2, j - 1) && r % 2 == b % 2;
    }
  }

  lemma {:induction false} ClearBitBits(b: int, j: nat, k: nat)
    requires 0 <= b
    ensures Bit(ClearBit(b, j), k) <==> k != j && Bit(b, k)
    decreases j
  {
    var r := ClearBit(b, j);
    if j == 0 {
      assert r / 2 == b / 2;
    } else {
      ClearBitBits(b / 2, j - 1, if k == 0 then 0 else k - 1);
      assert r / 2 == ClearBit(b / 2, j - 1) && r % 2 == b % 2;
    }
  }

  lemma {:induction false} SetBitFits(b: int, j: nat, n: nat)
    requires 0 <= b < Pow2(n) && j < n
    ensures SetBit(b, j) < Pow2(n)
    decreases j
  {
    if j > 0 { SetBitFits(b / 2, j - 1, n - 1); } else { EvenPow(n); }
  }

  lemma EvenPow(n: nat)
    requires n > 0
    ensures Pow2(n) % 2 == 0
  {
  }

  /** The bitmap block that holds the bit of block `n`. */
  function MapNo(bm: nat, n: nat): nat { bm + n / BIT_PER_BLOCK }

  /** Whether block `n` is marked as allocated, the bitmap starting at block `bm`. */
  predicate Marked(c: seq<Block>, bm: nat, n: nat) {
    && MapNo(bm, n) < |c|
    && Bit(c[MapNo(bm, n)][n % BIT_PER_BLOCK / 8] as int, n % 8)
  }

  /** The allocated blocks below `limit`. */
  ghost function MarkedSet(c: seq<Block>, bm: nat, limit: nat): set<nat> {
    set n | 0 <= n < limit && Marked(c, bm, n)
  }

  function PutBit(data: Block, k: nat, on: bool): Block
    requires k < BIT_PER_BLOCK
  {
    var b := data[k / 8] as int;
    var r := if on then SetBit(b, k % 8) else ClearBit(b, k % 8);
    assert r < 256 by { ByteFits(b, k % 8); }
    data[k / 8 := r as byte]
  }

  /** The disk contents after block `n` was marked and zeroed. */
  function Took(c: seq<Block>, bm: nat, n: nat): (e: seq<Block>)
    ensures |e| == |c|
  {
    var z := MapNo(bm, n);
    if z < |c| && n < |c| then c[z := PutBit(c[z], n % BIT_PER_BLOCK, true)][n := ZeroBlock()] else c
  }

  /** The disk contents after block `n` was unmarked. */
  function Gave(c: seq<Block>, bm: nat, n: nat): (e: seq<Block>)
    ensures |e| == |c|
  {
    var z := MapNo(bm, n);
    if z < |c| then c[z := PutBit(c[z], n % BIT_PER_BLOCK, false)] else c
  }

  lemma ByteFits(b: int, j: nat)
    requires 0 <= b < 256 && j < 8
    ensures SetBit(b, j) < 256
  {
    Pow2Of8();
    SetBitFits(b, j, 8);
  }

  lemma Pow2Of8()
    ensures Pow2(8) == 256
  {
    assert Pow2(4) == 16;
    assert Pow2(6) == 64;
  }

  lemma PutBitBits(data: Block, k: nat, on: bool, j: nat)
    requires k < BIT_PER_BLOCK && j < BIT_PER_BLOCK
    ensures Bit(PutBit(data, k, on)[j / 8] as int, j % 8) <==> if j == k then on else Bit(data[j / 8] as int, j % 8)
  {
    if j / 8 == k / 8 {
      if on {
        SetBitBits(data[k / 8] as int, k % 8, j % 8);
      } else {
        ClearBitBits(data[k / 8] as int, k % 8, j % 8);
      }
    }
  }

  lemma Halves(m: nat)
    ensures m == m / BIT_PER_BLOCK * BIT_PER_BLOCK + m % BIT_PER_BLOCK && m % BIT_PER_BLOCK % 8 == m % 8
  {
  }

  /** Changing one bit of one bitmap block changes the state of exactly one block. */
  lemma MarkChanges(c: seq<Block>, bm: nat, n: nat, on: bool, m: nat)
    requires MapNo(bm, n) < |c| && MapNo(bm, m) < |c|
    ensures var z := MapNo(bm, n);
            Marked(c[z := PutBit(c[z], n % BIT_PER_BLOCK, on)], bm, m) <==> if m == n then on else Marked(c, bm, m)
  {
    hide Bit, PutBit;
    var z := MapNo(bm, n);
    PutBitBits(c[z], n % BIT_PER_BLOCK, on, m % BIT_PER_BLOCK);
    Halves(m);
    Halves(n);
  }

  /** `k` is the first clear bit of `data` below the limit, or there is none. */
  ghost predicate Scanned(data: Block, base: nat, limit: nat, found: bool, k: nat) {
    && (found ==> k < BIT_PER_BLOCK && base + k < limit && !Bit(data[k / 8] as int, k % 8))
    && (found ==> forall j: nat :: j < k ==> Bit(data[j / 8] as int, j % 8))
    && (!found ==> forall j: nat :: j < BIT_PER_BLOCK && base + j < limit ==> Bit(data[j / 8] as int, j % 8))
  }

  /** Lines 390-408: the first clear bit among the blocks `base ..`, byte by byte, bit by bit. */
  method Scan(data: Block, base: nat, limit: nat) returns (found: bool, k: nat)
    ensures Scanned(data, base, limit, found, k)
  {
    var idx := 0;
    while idx < BLOCK_SIZE && base + idx * 8 < limit
      invariant 0 <= idx <= BLOCK_SIZE
      invariant forall j: nat :: j < idx * 8 && base + j < limit ==> Bit(data[j / 8] as int, j % 8)
      decreases BLOCK_SIZE - idx
    {
      var bits := data[idx] as int;
      var offset := 0;
      while offset < 8 && base + idx * 8 + offset < limit
        invariant 0 <= offset <= 8
        invariant forall j: nat :: j < idx * 8 + offset && base + j < limit ==> Bit(data[j / 8] as int, j % 8)
        decreases 8 - offset
      {
        var j := idx * 8 + offset;
        assert j / 8 == idx && j % 8 == offset;
        if !Bit(bits, offset) {
          return true, j;
        }
        offset := offset + 1;
      }
      idx := idx + 1;
    }
    return false, 0;
  }

  /** The place of block `base + j` in the bitmap, for a `base` at the start of a bitmap block. */
  lemma PlaceOf(base: nat, j: nat)
    requires base % BIT_PER_BLOCK == 0 && j < BIT_PER_BLOCK
    ensures (base + j) / BIT_PER_BLOCK == base / BIT_PER_BLOCK && (base + j) % BIT_PER_BLOCK == j
    ensures (base + j) % 8 == j % 8
  {
  }

  /** What the scan of one bitmap block says about the blocks it covers. */
  lemma ScanMeans(c: seq<Block>, bm: nat, base: nat, limit: nat, found: bool, k: nat)
    requires base % BIT_PER_BLOCK == 0 && MapNo(bm, base) < |c|
    requires Scanned(c[MapNo(bm, base)], base, limit, found, k)
    ensures found ==> base + k < limit && MapNo(bm, base + k) == MapNo(bm, base) && !Marked(c, bm, base + k)
    ensures forall m: nat :: base <= m < (if found then base + k else base + BIT_PER_BLOCK) && m < limit ==>
              Marked(c, bm, m)
  {
    if found { PlaceOf(base, k); }
    forall m: nat | base <= m < (if found then base + k else base + BIT_PER_BLOCK) && m < limit
      ensures Marked(c, bm, m)
    {
      PlaceOf(base, m - base);
    }
  }
}
