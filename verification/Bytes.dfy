/** Bytes, disk blocks and the little-endian integers stored in them. */
module Bytes {
  newtype byte = x: int | 0 <= x < 256

  const BLOCK_SIZE := 512

  type Block = b: seq<byte> | |b| == 512 witness seq(512, _ => 0 as byte)

  function ZeroBlock(): Block { seq(512, _ => 0 as byte) }

  function Pow256(k: nat): (p: nat)
    ensures p > 0
  {
    if k == 0 then 1 else 256 * Pow256(k - 1)
  }

  /** The integer stored in a run of bytes, lowest byte first. */
  function Decode(b: seq<byte>): nat {
    if b == [] then 0 else b[0] as nat + 256 * Decode(b[1..])
  }

  /** The lowest `k` bytes of `n`. */
  function Encode(n: nat, k: nat): (b: seq<byte>)
    ensures |b| == k
  {
    if k == 0 then [] else [(n % 256) as byte] + Encode(n / 256, k - 1)
  }

  lemma {:induction false} DecodeEncode(n: nat, k: nat)
    requires n < Pow256(k)
    ensures Decode(Encode(n, k)) == n
  {
    if k > 0 {
      assert n / 256 < Pow256(k - 1);
      DecodeEncode(n / 256, k - 1);
      assert Encode(n, k)[1..] == Encode(n / 256, k - 1);
    }
  }

  lemma {:induction false} EncodeDecode(b: seq<byte>)
    ensures Encode(Decode(b), |b|) == b && Decode(b) < Pow256(|b|)
  {
    if b != [] {
      EncodeDecode(b[1..]);
      var d := Decode(b[1..]);
      assert (b[0] as nat + 256 * d) % 256 == b[0] as nat && (b[0] as nat + 256 * d) / 256 == d;
      assert b == [b[0]] + b[1..];
    }
  }

  /** An array of `w`-byte integers laid out back to back. */
  function EncodeAll(ns: seq<nat>, w: nat): (b: seq<byte>)
    ensures |b| == |ns| * w
  {
    if ns == [] then [] else Encode(ns[0], w) + EncodeAll(ns[1..], w)
  }

  /** The first `n` integers of such an array. */
  function DecodeAll(b: seq<byte>, w: nat, n: nat): (ns: seq<nat>)
    requires |b| == n * w
    ensures |ns| == n
    decreases n
  {
    if n == 0 then [] else
      assert w <= n * w && (n - 1) * w == n * w - w;
      [Decode(b[..w])] + DecodeAll(b[w..], w, n - 1)
  }

  lemma {:induction false} DecodeAllEncodeAll(ns: seq<nat>, w: nat)
    requires forall i :: 0 <= i < |ns| ==> ns[i] < Pow256(w)
    ensures DecodeAll(EncodeAll(ns, w), w, |ns|) == ns
  {
    if ns != [] {
      var b := EncodeAll(ns, w);
      assert b[..w] == Encode(ns[0], w) && b[w..] == EncodeAll(ns[1..], w);
      DecodeEncode(ns[0], w);
      DecodeAllEncodeAll(ns[1..], w);
      assert ns == [ns[0]] + ns[1..];
    }
  }

  // ---------- clearing bytes ----------

  function ZeroBytes(n: nat): (b: seq<byte>)
    ensures |b| == n
  {
    seq(n, _ => 0)
  }

  /** A number with its `k` lowest bytes cleared. */
  function ClearLow(n: nat, k: nat): (m: nat)
    ensures m <= n
  {
    if k == 0 then n else 256 * ClearLow(n / 256, k - 1)
  }

  lemma {:induction false} ClearLowBytes(n: nat, w: nat, k: nat)
    requires k <= w
    ensures Encode(ClearLow(n, k), w) == ZeroBytes(k) + Encode(n, w)[k..]
  {
    hide Encode;
    if k == 0 {
      assert ZeroBytes(0) == [];
    } else {
      ClearLowBytes(n / 256, w - 1, k - 1);
      EncodeNext(n, w);
      EncodeNext(256 * ClearLow(n / 256, k - 1), w);
      assert ZeroBytes(k) == [0] + ZeroBytes(k - 1);
    }
  }

  lemma EncodeNext(n: nat, w: nat)
    requires w > 0
    ensures Encode(n, w) == [(n % 256) as byte] + Encode(n / 256, w - 1)
  {
  }

  lemma {:induction false} EncodeAllOn(a: seq<nat>, b: seq<nat>, w: nat)
    ensures EncodeAll(a + b, w) == EncodeAll(a, w) + EncodeAll(b, w)
  {
    hide Encode, EncodeAll;
    if a == [] {
      assert a + b == b;
      EncodeNone(w);
    } else {
      EncodeAllOn(a[1..], b, w);
      EncodeFirst(a, w);
      EncodeFirst(a + b, w);
      assert (a + b)[1..] == a[1..] + b;
    }
  }

  lemma EncodeFirst(ns: seq<nat>, w: nat)
    requires ns != []
    ensures EncodeAll(ns, w) == Encode(ns[0], w) + EncodeAll(ns[1..], w)
  {
  }

  lemma EncodeNone(w: nat)
    ensures EncodeAll([], w) == []
  {
  }

  lemma {:induction false} EncodeZero(w: nat)
    ensures Encode(0, w) == ZeroBytes(w)
  {
    if w > 0 {
      EncodeZero(w - 1);
      assert ZeroBytes(w) == [0] + ZeroBytes(w - 1);
    }
  }

  lemma {:induction false} EncodeAllZero(ns: seq<nat>, w: nat)
    requires forall i :: 0 <= i < |ns| ==> ns[i] == 0
    ensures EncodeAll(ns, w) == ZeroBytes(|ns| * w)
  {
    if ns != [] {
      EncodeZero(w);
      EncodeAllZero(ns[1..], w);
      assert w + (|ns| - 1) * w == |ns| * w;
      assert ZeroBytes(|ns| * w) == ZeroBytes(w) + ZeroBytes((|ns| - 1) * w);
    }
  }
}
