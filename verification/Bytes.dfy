/** Bytes, bits of a byte, and little-endian 32-bit words inside a block. */
module Bytes {
  import opened Common

  type Byte = b: int | 0 <= b < 256
  const BSIZE := 512

  type Block = seq<Byte>

  function Zeros(n: nat): (r: seq<Byte>)
    ensures |r| == n && forall i :: 0 <= i < n ==> r[i] == 0
  {
    seq(n, i => 0)
  }

  // ----- bits

  /** x & (1 << k): the k-th binary digit. */
  predicate Bit(x: nat, k: nat) {
    if k == 0 then x % 2 == 1 else Bit(x / 2, k - 1)
  }

  /** x | (1 << k) */
  function SetBit(x: nat, k: nat): (r: nat) {
    if k == 0 then x / 2 * 2 + 1 else SetBit(x / 2, k - 1) * 2 + x % 2
  }

  /** x & ~(1 << k) */
  function ClearBit(x: nat, k: nat): (r: nat) {
    if k == 0 then x / 2 * 2 else ClearBit(x / 2, k - 1) * 2 + x % 2
  }

  lemma {:induction false} SetBitAt(x: nat, k: nat, j: nat)
    ensures Bit(SetBit(x, k), j) <==> j == k || Bit(x, j)
  {
    if k > 0 && j > 0 {
      SetBitAt(x / 2, k - 1, j - 1);
    }
  }

  lemma {:induction false} ClearBitAt(x: nat, k: nat, j: nat)
    ensures Bit(ClearBit(x, k), j) <==> j != k && Bit(x, j)
  {
    if k > 0 && j > 0 {
      ClearBitAt(x / 2, k - 1, j - 1);
    }
  }

  function Width(m: nat): (r: nat)
    ensures 0 < r
  {
    if m == 0 then 1 else 2 * Width(m - 1)
  }

  lemma {:induction false} BitsFit(x: nat, k: nat, m: nat)
    requires x < Width(m) && k < m
    ensures SetBit(x, k) < Width(m) && ClearBit(x, k) < Width(m)
  {
    var h, w := x / 2, Width(m - 1);
    assert x == 2 * h + x % 2 && Width(m) == 2 * w;
    assert h < w;
    if k > 0 {
      BitsFit(h, k - 1, m - 1);
    }
  }

  lemma ByteWidth()
    ensures Width(8) == 256
  {
    assert Width(4) == 16;
    assert Width(6) == 4 * Width(4);
  }

  // ----- words

  function Get32(b: Block, o: nat): (v: nat)
    requires o + 4 <= |b|
    ensures v < WORD
  {
    b[o] as int + 256 * (b[o + 1] as int + 256 * (b[o + 2] as int + 256 * (b[o + 3] as int)))
  }

  function Put32(b: Block, o: nat, v: nat): (r: Block)
    requires o + 4 <= |b| && v < WORD
    ensures |r| == |b|
    ensures forall i :: 0 <= i < |b| && !(o <= i < o + 4) ==> r[i] == b[i]
  {
    var q1 := v / 256;
    var q2 := q1 / 256;
    var q3 := q2 / 256;
    b[o := v % 256][o + 1 := q1 % 256][o + 2 := q2 % 256][o + 3 := q3]
  }

  lemma GetPut(b: Block, o: nat, v: nat)
    requires o + 4 <= |b| && v < WORD
    ensures Get32(Put32(b, o, v), o) == v
  {
  }

  lemma GetPutOther(b: Block, o: nat, v: nat, p: nat)
    requires o + 4 <= |b| && p + 4 <= |b| && v < WORD && (p + 4 <= o || o + 4 <= p)
    ensures Get32(Put32(b, o, v), p) == Get32(b, p)
  {
  }
}
