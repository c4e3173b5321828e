/** 64-bit virtual times that wrap around, compared by the sign of their difference (src/fair.c:92-116). */
module Wrap {
  import opened Fixed

  const HALF: int := 0x8000_0000_0000_0000

  function Add64(a: u64, b: u64): u64 { if a + b < TWO_64 then a + b else a + b - TWO_64 }
  function Sub64(a: u64, b: u64): u64 { if a >= b then a - b else a - b + TWO_64 }

  /** The conversion to `s64`. */
  function S64(x: u64): int { if x < HALF then x else x - TWO_64 }

  /** `entity_before`, on the two keys */
  predicate Sooner(a: u64, b: u64) { S64(Sub64(a, b)) < 0 }

  /** `max_vruntime` and `min_vruntime` */
  function MaxV(m: u64, v: u64): u64 { if S64(Sub64(v, m)) > 0 then v else m }
  function MinV(m: u64, v: u64): u64 { if S64(Sub64(v, m)) < 0 then v else m }

  /** How far `x` is past `b`. */
  function Off(b: u64, x: u64): u64 { Sub64(x, b) }

  predicate In(b: u64, x: u64) { Off(b, x) < HALF }

  /** Within a window shorter than 2^63 the signed comparison is the order of the distances. */
  lemma {:induction false} WindowOrder(b: u64, x: u64, y: u64)
    requires In(b, x) && In(b, y)
    ensures Sooner(x, y) <==> Off(b, x) < Off(b, y)
    ensures Off(b, MaxV(x, y)) == if Off(b, x) < Off(b, y) then Off(b, y) else Off(b, x)
    ensures Off(b, MinV(x, y)) == if Off(b, y) < Off(b, x) then Off(b, y) else Off(b, x)
    ensures Off(b, x) == Off(b, y) ==> x == y
  {
  }

  lemma {:induction false} WindowAdd(b: u64, x: u64, g: u64)
    requires Off(b, x) + g < TWO_64
    ensures Off(b, Add64(x, g)) == Off(b, x) + g
  {
  }

  lemma {:induction false} WindowDiff(b: u64, x: u64, y: u64)
    requires In(b, x) && In(b, y)
    ensures S64(Sub64(x, y)) == Off(b, x) - Off(b, y)
  {
  }
}
