/** The fixed-point arithmetic of src/fair.c:26-80: a division replaced by a cached reciprocal, a normalising
    shift loop and a multiplication. */
module Fixed {
  import opened Arith

  const TWO_32: int := 0x1_0000_0000
  const TWO_64: int := 0x1_0000_0000_0000_0000
  const WMULT_CONST: int := 0xffff_ffff
  const NICE_0_LOAD: u64 := 1024

  type u32 = x: int | 0 <= x < 0x1_0000_0000
  type u64 = x: int | 0 <= x < 0x1_0000_0000_0000_0000

  /** `x--` in 32 bits */
  function Dec32(x: u32): u32 { if x == 0 then TWO_32 - 1 else x - 1 }

  /** `struct load_weight` */
  datatype LoadWeight = LoadWeight(weight: u64, inv: u32)

  function Pow2(n: nat): (p: nat)
    ensures p > 0
  {
    if n == 0 then 1 else 2 * Pow2(n - 1)
  }

  /** `x >> n` */
  function ShiftRight(x: nat, n: nat): (r: nat)
    ensures r <= x
  {
    if n == 0 then x else ShiftRight(x / 2, n - 1)
  }

  /** What a 64-bit register keeps of `x`. */
  function Low64(x: nat): (r: u64)
    ensures r <= x
  {
    x % TWO_64
  }

  // ----- the reciprocal -----

  /** `__update_inv_weight` */
  function UpdateInvWeight(lw: LoadWeight): LoadWeight {
    if lw.inv != 0 then lw
    else if lw.weight >= WMULT_CONST then lw.(inv := 1)
    else if lw.weight == 0 then lw.(inv := WMULT_CONST)
    else lw.(inv := WMULT_CONST / lw.weight)
  }

  /** The cache is empty, as `update_load_add` and `update_load_sub` leave it, or holds what was computed from there. */
  predicate Cached(lw: LoadWeight) { lw.inv == 0 || lw == UpdateInvWeight(lw.(inv := 0)) }

  // ----- the shift loop -----

  /** How often the loop halves `fact`, and what is left of it. */
  function Halvings(fact: nat): nat { if fact < TWO_32 then 0 else 1 + Halvings(fact / 2) }
  function Halved(fact: nat): nat { if fact < TWO_32 then fact else Halved(fact / 2) }

  /** `fact` with all but its 32 leading binary digits zeroed. */
  function Leading(fact: nat): nat { Halved(fact) * Pow2(Halvings(fact)) }

  function Factor(weight: u64, lw: LoadWeight): nat { (weight % TWO_32) * UpdateInvWeight(lw).inv }

  /** `__calc_delta`: the shift is 32 less the number of halvings. */
  function CalcDelta(delta: u64, weight: u64, lw: LoadWeight): u64 {
    var fact := Factor(weight, lw);
    var shift := 32 - Halvings(fact);
    FactorBound(weight, lw);
    HalvingsWithin32(fact);
    ShiftRight(Low64(delta * Halved(fact)), shift)
  }

  /** src/fair.c:63-80, with its loop. */
  method CalcDeltaLoop(delta: u64, weight: u64, lw: LoadWeight) returns (r: u64, lw': LoadWeight)
    ensures r == CalcDelta(delta, weight, lw) && lw' == UpdateInvWeight(lw)
  {
    lw' := UpdateInvWeight(lw);
    var shift := 32;
    var fact := weight % TWO_32 * lw'.inv;
    FactorBound(weight, lw);
    HalvingsWithin32(fact);
    while fact / TWO_32 != 0
      invariant fact >= 0 && Halved(fact) == Halved(Factor(weight, lw))
      invariant 0 <= shift - Halvings(fact) == 32 - Halvings(Factor(weight, lw))
    {
      fact := fact / 2;
      shift := shift - 1;
    }
    r := ShiftRight(Low64(delta * fact), shift);
  }

  lemma {:induction false} FactorBound(weight: u64, lw: LoadWeight)
    ensures Factor(weight, lw) < TWO_64
  {
    MulUp(weight % TWO_32, UpdateInvWeight(lw).inv, TWO_32 - 1, TWO_32 - 1);
  }

  lemma {:induction false} HalvingsBound(fact: nat, n: nat)
    requires fact < TWO_32 * Pow2(n)
    ensures Halvings(fact) <= n && Halved(fact) < TWO_32
  {
    if fact >= TWO_32 {
      HalvingsBound(fact / 2, n - 1);
    }
  }

  lemma {:induction false} Pow2Of32()
    ensures Pow2(32) == TWO_32
  {
    assert Pow2(8) == 256;
    assert Pow2(16) == 65536;
    assert Pow2(24) == 16777216;
  }

  lemma {:induction false} HalvingsWithin32(fact: nat)
    requires fact < TWO_64
    ensures Halvings(fact) <= 32 && Halved(fact) < TWO_32
  {
    Pow2Of32();
    HalvingsBound(fact, 32);
  }

  lemma {:induction false} ShiftRightBound(x: nat, n: nat)
    ensures ShiftRight(x, n) * Pow2(n) <= x < (ShiftRight(x, n) + 1) * Pow2(n)
  {
    if n > 0 {
      ShiftRightBound(x / 2, n - 1);
      Twice(ShiftRight(x, n), Pow2(n - 1));
      Twice(ShiftRight(x, n) + 1, Pow2(n - 1));
    }
  }

  // ----- what the loop keeps of the factor -----

  lemma {:induction false} LeadingBound(fact: nat)
    ensures Leading(fact) <= fact < Leading(fact) + Pow2(Halvings(fact))
    ensures Halvings(fact) > 0 ==> 0x8000_0000 * Pow2(Halvings(fact)) <= Leading(fact)
  {
    if fact >= TWO_32 {
      var f := fact / 2;
      LeadingBound(f);
      Twice(Halved(f), Pow2(Halvings(f)));
      assert Leading(fact) == 2 * Leading(f) && Pow2(Halvings(fact)) == 2 * Pow2(Halvings(f));
      if f < TWO_32 {
        assert Leading(f) == f && Halvings(f) == 0;
      }
    }
  }

  /** The loop keeps the 32 leading digits: all of a short factor, and all but one part in 2^31 of a long one. */
  lemma {:induction false} LeadingKeeps(fact: nat)
    ensures Leading(fact) <= fact
    ensures fact * 0x7fff_ffff <= Leading(fact) * 0x8000_0000
    ensures fact >= TWO_32 ==> Leading(fact) >= TWO_32
    ensures fact < TWO_32 ==> Leading(fact) == fact
  {
    LeadingBound(fact);
  }

  // ----- the result -----

  /** `__calc_delta` is floor(delta * T / 2^32), T being the leading digits of weight * inv_weight. */
  lemma {:induction false} CalcDeltaExact(delta: u64, weight: u64, lw: LoadWeight)
    requires delta < TWO_32
    ensures var t := Leading(Factor(weight, lw));
            var r := CalcDelta(delta, weight, lw);
            r * TWO_32 <= delta * t < (r + 1) * TWO_32
  {
    var fact := Factor(weight, lw);
    FactorBound(weight, lw);
    HalvingsWithin32(fact);
    var f, k := Halved(fact), Halvings(fact);
    NoWrap(delta, f);
    ShiftRightBound(delta * f, 32 - k);
    Pow2Split(k);
    Scale(CalcDelta(delta, weight, lw), Pow2(32 - k), delta * f, Pow2(k));
    Assoc(delta, f, Pow2(k));
  }

  lemma {:induction false} NoWrap(a: nat, b: nat)
    requires a < TWO_32 && b < TWO_32
    ensures Low64(a * b) == a * b
  {
    MulUp(a, b, TWO_32 - 1, TWO_32 - 1);
  }

  lemma {:induction false} Pow2Split(k: nat)
    requires k <= 32
    ensures Pow2(32 - k) * Pow2(k) == TWO_32
    decreases k
  {
    if k == 0 {
      Pow2Of32();
    } else {
      Pow2Split(k - 1);
      Rebalance(Pow2(32 - k), Pow2(k - 1));
    }
  }

  lemma {:induction false} Scale(r: nat, p: nat, x: nat, q: nat)
    requires r * p <= x < (r + 1) * p && q > 0
    ensures r * (p * q) <= x * q < (r + 1) * (p * q)
  {
    assert r * (p * q) == (r * p) * q && (r + 1) * (p * q) == ((r + 1) * p) * q;
    MulUp(r * p, q, x, q);
    assert x + 1 <= (r + 1) * p;
    MulUp(x + 1, q, (r + 1) * p, q);
    assert (x + 1) * q == x * q + q;
  }

  /** For any delta, with the product cut to 64 bits: modulo 2^64 times what the loop has divided the factor by. */
  lemma {:induction false} CalcDeltaWraps(delta: u64, weight: u64, lw: LoadWeight)
    ensures var fact := Factor(weight, lw);
            var (x, r) := (delta * Leading(fact) % (TWO_64 * Pow2(Halvings(fact))), CalcDelta(delta, weight, lw));
            r * TWO_32 <= x < (r + 1) * TWO_32
  {
    var fact := Factor(weight, lw);
    FactorBound(weight, lw);
    HalvingsWithin32(fact);
    var f, k := Halved(fact), Halvings(fact);
    var x := Low64(delta * f);
    ShiftRightBound(x, 32 - k);
    Pow2Split(k);
    Scale(CalcDelta(delta, weight, lw), Pow2(32 - k), x, Pow2(k));
    Assoc(delta, f, Pow2(k));
    ModScale(delta * f, TWO_64, Pow2(k));
  }

  lemma {:induction false} CalcDeltaMonotone(delta: u64, delta': u64, weight: u64, lw: LoadWeight)
    requires delta <= delta' < TWO_32
    ensures CalcDelta(delta, weight, lw) <= CalcDelta(delta', weight, lw)
  {
    var t := Leading(Factor(weight, lw));
    CalcDeltaExact(delta, weight, lw);
    CalcDeltaExact(delta', weight, lw);
    MulUp(delta, t, delta', t);
  }

  /** Even when the product wraps around, the result is no more than the exact quotient by 2^32. */
  lemma {:induction false} CalcDeltaUpper(delta: u64, weight: u64, lw: LoadWeight)
    ensures CalcDelta(delta, weight, lw) * TWO_32 <= delta * (weight * UpdateInvWeight(lw).inv)
  {
    var fact := Factor(weight, lw);
    FactorBound(weight, lw);
    HalvingsWithin32(fact);
    var f, k, r := Halved(fact), Halvings(fact), CalcDelta(delta, weight, lw);
    var x := Low64(delta * f);
    ShiftRightBound(x, 32 - k);
    Pow2Split(k);
    Scale(r, Pow2(32 - k), x, Pow2(k));
    MulUp(x, Pow2(k), delta * f, Pow2(k));
    Assoc(delta, f, Pow2(k));
    LeadingKeeps(fact);
    MulUp(weight % TWO_32, UpdateInvWeight(lw).inv, weight, UpdateInvWeight(lw).inv);
    MulUp(delta, Leading(fact), delta, weight * UpdateInvWeight(lw).inv);
  }

  /** The computed reciprocal is short of (2^32 - 1) / weight by less than one. */
  lemma {:induction false} Reciprocal(lw: LoadWeight)
    requires 0 < lw.weight < TWO_32 && Cached(lw)
    ensures TWO_32 - lw.weight <= UpdateInvWeight(lw).inv * lw.weight < TWO_32
  {
    var q, w := WMULT_CONST / lw.weight, lw.weight;
    DivMod(WMULT_CONST, w);
    assert UpdateInvWeight(lw).inv == q;
  }

  /** A reciprocal that is not rounded up, inv * lw.weight <= 2^32, never gives more than delta * weight / lw.weight. */
  lemma {:induction false} RoundedDown(delta: u64, weight: u64, lw: LoadWeight)
    requires 0 < lw.weight && UpdateInvWeight(lw).inv * lw.weight <= TWO_32
    ensures CalcDelta(delta, weight, lw) <= delta * weight / lw.weight
  {
    var r, inv, w := CalcDelta(delta, weight, lw), UpdateInvWeight(lw).inv, lw.weight;
    CalcDeltaUpper(delta, weight, lw);
    MulUp(r * TWO_32, w, delta * (weight * inv), w);
    Rearrange(delta, weight, inv, w);
    MulUp(delta * weight, inv * w, delta * weight, TWO_32);
    assert r * TWO_32 * w == (r * w) * TWO_32;
    assert r * w <= delta * weight;
    DivAtLeast(r, w, delta * weight);
  }

  lemma {:induction false} TooLongFits(w: nat, inv: nat, e: nat, m: nat)
    requires 0 < w < TWO_32 && 0 < inv < TWO_32 && e == inv * w - TWO_32 > 0 && m == (inv - 1) / e + 1
    ensures m * w * inv <= TWO_64 && inv <= m * e
  {
    DivMod(inv - 1, e);
    var k := m - 1;
    assert m * e == k * e + e;
    assert m * w * inv == m * (inv * w) by { Assoc(m, w, inv); }
    if k == 0 {
      MulUp(inv, w, TWO_32 - 1, TWO_32 - 1);
    } else {
      ProductFits(k, e, inv, w);
    }
  }

  lemma {:induction false} ProductFits(k: nat, e: nat, inv: nat, w: nat)
    requires k > 0 && e > 0 && k * e < inv < TWO_32 && w < TWO_32 && inv * w == TWO_32 + e
    ensures (k + 1) * (inv * w) <= TWO_64
  {
    assert (k + 1) * (TWO_32 + e) == k * TWO_32 + TWO_32 + k * e + e;
    MulUp(1, e, k, e);
    if e >= 2 {
      MulUp(k, 2, k, e);
    } else if inv > 0x8000_0000 {
      if w >= 2 { MulUp(inv, 2, inv, w); }
    }
  }

  /** For the weight 1 the loop does nothing. */
  lemma {:induction false} WeightOne(delta: u64, lw: LoadWeight)
    requires delta * UpdateInvWeight(lw).inv < TWO_64
    ensures delta * UpdateInvWeight(lw).inv < (CalcDelta(delta, 1, lw) + 1) * TWO_32
  {
    var inv := UpdateInvWeight(lw).inv;
    assert Factor(1, lw) == inv;
    assert Low64(delta * inv) == delta * inv;
    Pow2Of32();
    ShiftRightBound(delta * inv, 32);
  }

  /** At m * w - 1 the quotient by `w` is still m - 1. */
  lemma {:induction false} JustBelow(m: nat, w: nat, inv: nat, e: nat, d: int, r: nat)
    requires m > 0 && w > 0 && inv * w == TWO_32 + e && inv <= m * e && d == m * w - 1
    requires d * inv < (r + 1) * TWO_32
    ensures 0 <= d && d / w < r
  {
    assert m * w == (m - 1) * w + w;
    DivModIs(d, m - 1, w - 1, w);
    assert d * inv == m * w * inv - inv;
    assert m * w * inv == m * (inv * w) by { Assoc(m, w, inv); }
    assert m * (TWO_32 + e) == m * TWO_32 + m * e;
    Cancel(m, r + 1, TWO_32);
  }

  /** After about inv / e units, e being what inv * lw.weight has over 2^32, weight 1 gives one too many. */
  lemma {:induction false} RoundedUp(lw: LoadWeight) returns (delta: u64)
    requires 0 < lw.weight < TWO_32 && UpdateInvWeight(lw).inv * lw.weight > TWO_32
    ensures CalcDelta(delta, 1, lw) > delta / lw.weight
  {
    var inv, w := UpdateInvWeight(lw).inv, lw.weight;
    assert inv > 0;
    var e := inv * w - TWO_32;
    var m := (inv - 1) / e + 1;
    TooLongFits(w, inv, e, m);
    var d := m * w - 1;
    OneLess(m, w, inv);
    delta := d;
    WeightOne(delta, lw);
    JustBelow(m, w, inv, e, d, CalcDelta(delta, 1, lw));
  }

  lemma {:induction false} OneLess(m: nat, w: nat, inv: nat)
    requires m > 0 && w > 0 && 0 < inv && m * w * inv <= TWO_64
    ensures 0 <= m * w - 1 < TWO_64 && (m * w - 1) * inv < TWO_64
  {
    MulStep(0, m, w);
    assert (m * w - 1) * inv == m * w * inv - inv;
    MulUp(m * w, 1, m * w, inv);
  }

  /** The result never exceeds delta * weight / lw.weight, for any delta and weight, if and only if the reciprocal is
      not rounded up. */
  lemma {:induction false} NeverMoreIff(lw: LoadWeight)
    requires 0 < lw.weight < TWO_32
    ensures (forall delta: u64, weight: u64 :: CalcDelta(delta, weight, lw) <= delta * weight / lw.weight)
            <==> UpdateInvWeight(lw).inv * lw.weight <= TWO_32
  {
    if UpdateInvWeight(lw).inv * lw.weight <= TWO_32 {
      forall delta: u64, weight: u64 ensures CalcDelta(delta, weight, lw) <= delta * weight / lw.weight {
        RoundedDown(delta, weight, lw);
      }
    } else {
      var delta := RoundedUp(lw);
      assert delta * 1 == delta;
    }
  }

  /** With a computed reciprocal the result never exceeds delta * weight / lw.weight... */
  lemma {:induction false} CalcDeltaNeverMore(delta: u64, weight: u64, lw: LoadWeight)
    requires 0 < lw.weight < TWO_32 && Cached(lw)
    ensures CalcDelta(delta, weight, lw) <= delta * weight / lw.weight
  {
    Reciprocal(lw);
    RoundedDown(delta, weight, lw);
  }

  /** ...and is short of it by one, by one part in 2^31, and by lw.weight parts in 2^32 at most: result + 1 > (delta *
      weight / lw.weight) * (1 - lw.weight / 2^32) * (1 - 1 / 2^31). */
  lemma {:induction false} CalcDeltaShortfall(delta: u64, weight: u64, lw: LoadWeight)
    requires delta < TWO_32 && weight < TWO_32 && 0 < lw.weight < TWO_32 && Cached(lw)
    ensures (CalcDelta(delta, weight, lw)
            + 1) * lw.weight * (TWO_32 * 0x8000_0000) > delta * weight * ((TWO_32 - lw.weight) * 0x7fff_ffff)
  {
    var r, inv, w := CalcDelta(delta, weight, lw), UpdateInvWeight(lw).inv, lw.weight;
    var t := Leading(Factor(weight, lw));
    CalcDeltaExact(delta, weight, lw);
    LeadingKeeps(Factor(weight, lw));
    Reciprocal(lw);
    assert Factor(weight, lw) == weight * inv;
    Shortfall(r, delta, weight, w, inv, t);
  }

  lemma {:induction false} Shortfall(r: nat, delta: nat, weight: nat, w: nat, inv: nat, t: nat)
    requires w > 0 && TWO_32 - w <= inv * w && w < TWO_32
    requires delta * t < (r + 1) * TWO_32 && weight * inv * 0x7fff_ffff <= t * 0x8000_0000
    ensures delta * weight * ((TWO_32 - w) * 0x7fff_ffff) < (r + 1) * w * (TWO_32 * 0x8000_0000)
  {
    var a, b := 0x7fff_ffff, 0x8000_0000;
    // delta * weight * (inv * w) * a <= delta * t * w * b < (r + 1) * TWO_32 * w * b
    MulUp(delta * weight, (TWO_32 - w) * a, delta * weight, inv * w * a);
    assert delta * weight * (inv * w * a) == delta * (weight * inv * a) * w by {
      Assoc(delta * weight, inv * w, a);
      Rearrange(delta, weight, inv, w);
      Assoc(delta, weight * inv, w);
      assert delta * (weight * inv * a) == delta * (weight * inv) * a by { Assoc(delta, weight * inv, a); }
      assert delta * (weight * inv) * a * w == delta * (weight * inv) * w * a;
    }
    MulUp(delta, weight * inv * a, delta, t * b);
    MulUp(delta * (weight * inv * a), w, delta * (t * b), w);
    Assoc(delta, t, b);
    assert delta * (t * b) * w == delta * t * (b * w) by { Assoc(delta * t, b, w); }
    assert delta * t + 1 <= (r + 1) * TWO_32;
    MulUp(delta * t + 1, b * w, (r + 1) * TWO_32, b * w);
    assert (delta * t + 1) * (b * w) == delta * t * (b * w) + b * w;
    assert (r + 1) * TWO_32 * (b * w) == (r + 1) * w * (TWO_32 * b) by {
      Assoc(r + 1, TWO_32, b * w);
      Assoc(r + 1, w, TWO_32 * b);
      assert TWO_32 * (b * w) == w * (TWO_32 * b);
    }
  }

  /** Nice level -18 of the tables (src/sched.c:164-185) has a reciprocal that is rounded up. A task of that weight that
      runs for 212418 units is charged one more than the quotient. */
  lemma {:induction false} TableChargesMore()
    ensures CalcDelta(212418, NICE_0_LOAD, LoadWeight(56483, 76040)) == 212418 * NICE_0_LOAD / 56483 + 1
  {
    var lw := LoadWeight(56483, 76040);
    CalcDeltaExact(212418, NICE_0_LOAD, lw);
    LeadingKeeps(Factor(NICE_0_LOAD, lw));
    assert Factor(NICE_0_LOAD, lw) == 77864960;
  }

  /** A factor of at least 2^32, as every nice level from 0 up has, never makes time run slower. */
  lemma {:induction false} CalcDeltaAdvances(delta: u64, weight: u64, lw: LoadWeight)
    requires delta < TWO_32 && Factor(weight, lw) >= TWO_32
    ensures CalcDelta(delta, weight, lw) >= delta
  {
    CalcDeltaExact(delta, weight, lw);
    LeadingKeeps(Factor(weight, lw));
    MulUp(delta, TWO_32, delta, Leading(Factor(weight, lw)));
  }

  // ----- the slices of a period -----

  function Sum(ws: seq<u64>): nat { if ws == [] then 0 else ws[0] + Sum(ws[1..]) }

  function TotalSlices(period: u64, ws: seq<u64>, lw: LoadWeight): nat {
    if ws == [] then 0 else CalcDelta(period, ws[0], lw) + TotalSlices(period, ws[1..], lw)
  }

  lemma {:induction false} TotalUpper(period: u64, ws: seq<u64>, lw: LoadWeight)
    ensures TotalSlices(period, ws, lw) * TWO_32 <= period * (Sum(ws) * UpdateInvWeight(lw).inv)
  {
    if ws != [] {
      var inv := UpdateInvWeight(lw).inv;
      CalcDeltaUpper(period, ws[0], lw);
      TotalUpper(period, ws[1..], lw);
      Distribute(period, ws[0], Sum(ws[1..]), inv);
    }
  }

  lemma {:induction false} Distribute(p: int, a: int, b: int, i: int)
    ensures p * ((a + b) * i) == p * (a * i) + p * (b * i)
  {
    assert (a + b) * i == a * i + b * i;
  }

  /** However many entities share the load `lw`, their slices fit into the period. */
  lemma {:induction false} SlicesFit(period: u64, ws: seq<u64>, lw: LoadWeight)
    requires Sum(ws) == lw.weight < TWO_32 && Cached(lw)
    ensures TotalSlices(period, ws, lw) <= period
  {
    TotalUpper(period, ws, lw);
    var inv, w := UpdateInvWeight(lw).inv, lw.weight;
    if w > 0 {
      Reciprocal(lw);
      MulUp(period, w * inv, period, TWO_32);
    }
  }
}
