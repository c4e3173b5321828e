/** Disk blocks as bytes, read as 32-bit little-endian numbers or as bits. */
module Bytes {
  import opened Fixed

  type byte = x: int | 0 <= x < 256

  type Block = seq<byte>

  function Zeros(n: nat): Block { seq(n, i => 0) }

  // ----- numbers -----

  function Word(b: Block, k: nat): u32
    requires 4 * k + 3 < |b|
  {
    b[4 * k] as int + 0x100 * (b[4 * k + 1] as int) + 0x1_0000 * (b[4 * k + 2] as int)
        + 0x100_0000 * (b[4 * k + 3] as int)
  }

  function SetWord(b: Block, k: nat, w: u32): (r: Block)
    requires 4 * k + 3 < |b|
    ensures |r| == |b|
  {
    b[4 * k := w % 0x100][4 * k + 1 := w / 0x100 % 0x100][4 * k + 2 := w / 0x1_0000 % 0x100][4 * k + 3 :=
        w / 0x100_0000]
  }

  lemma {:induction false} WordSet(b: Block, k: nat, w: u32, j: nat)
    requires 4 * k + 3 < |b| && 4 * j + 3 < |b|
    ensures Word(SetWord(b, k, w), j) == if j == k then w else Word(b, j)
  {
    if j == k { Digits(w); }
  }

  lemma {:induction false} Digits(w: u32)
    ensures w % 0x100 + 0x100 * (w / 0x100 % 0x100) + 0x1_0000 * (w / 0x1_0000 % 0x100) + 0x100_0000 * (w / 0x100_0000)
            == w
  {
    var a := w / 0x100;
    var b := a / 0x100;
    assert w / 0x1_0000 == b && w / 0x100_0000 == b / 0x100;
  }

  // ----- bits -----

  /** `x >> k & 1` */
  predicate Bit(x: nat, k: nat) { if k == 0 then x % 2 == 1 else Bit(x / 2, k - 1) }

  /** `x | 1 << k` for `on`, and `x & ~(1 << k)` otherwise */
  function WithBit(x: nat, k: nat, on: bool): nat {
    if k == 0 then x / 2 * 2 + (if on then 1 else 0) else WithBit(x / 2, k - 1, on) * 2 + x % 2
  }

  lemma {:induction false} BitWith(x: nat, k: nat, on: bool, j: nat)
    ensures Bit(WithBit(x, k, on), j) == if j == k then on else Bit(x, j)
  {
    var y := WithBit(x, k, on);
    if k == 0 {
      assert y / 2 == x / 2;
    } else {
      assert y / 2 == WithBit(x / 2, k - 1, on) && y % 2 == x % 2;
      if j > 0 { BitWith(x / 2, k - 1, on, j - 1); }
    }
  }

  lemma {:induction false} WithBitBound(x: nat, k: nat, on: bool, n: nat)
    requires x < Pow2(n) && k < n
    ensures WithBit(x, k, on) < Pow2(n)
  {
    if k > 0 { WithBitBound(x / 2, k - 1, on, n - 1); }
  }

  function SetBit(x: byte, k: nat, on: bool): byte
    requires k < 8
  {
    WithBitBound(x, k, on, 8);
    WithBit(x, k, on)
  }

  /** `block[k / 8] |= 1 << k % 8`, or the same with `&= ~` */
  function SetBitAt(b: Block, k: nat, on: bool): (r: Block)
    requires k / 8 < |b|
    ensures |r| == |b|
  {
    b[k / 8 := SetBit(b[k / 8], k % 8, on)]
  }
}
