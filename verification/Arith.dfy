/** Products, quotients and remainders. */
module Arith {
  function Larger(a: nat, b: nat): nat { if a < b then b else a }

  lemma {:induction false} Twice(q: nat, p: nat)
    ensures q * (2 * p) == 2 * (q * p)
  {
  }

  lemma {:induction false} MulUp(a: nat, b: nat, a': nat, b': nat)
    requires a <= a' && b <= b'
    ensures a * b <= a' * b'
  {
    assert a * b <= a' * b;
    assert a' * b <= a' * b';
  }

  lemma {:induction false} Assoc(a: int, b: int, c: int)
    ensures a * b * c == a * (b * c)
  {
  }

  lemma {:induction false} Rebalance(a: nat, b: nat)
    ensures a * (2 * b) == (2 * a) * b
  {
  }

  lemma {:induction false} DivMod(x: nat, d: nat)
    requires d > 0
    ensures x / d * d <= x < x / d * d + d
  {
  }

  lemma {:induction false} Rearrange(a: int, b: int, c: int, d: int)
    ensures a * (b * c) * d == (a * b) * (c * d)
  {
    Assoc(a, b, c);
    Assoc(a * b, c, d);
  }

  lemma {:induction false} DivAtLeast(r: nat, w: nat, x: nat)
    requires w > 0 && r * w <= x
    ensures r <= x / w
  {
    DivMod(x, w);
    assert (x / w + 1) * w == x / w * w + w;
    Cancel(r, x / w + 1, w);
  }

  lemma {:induction false} Cancel(a: nat, b: nat, w: nat)
    requires a * w < b * w
    ensures a < b
  {
    if a >= b { MulUp(b, w, a, w); }
  }

  lemma {:induction false} DivModIs(i: nat, q: nat, r: nat, c: nat)
    requires i == q * c + r && r < c
    ensures i / c == q && i % c == r
  {
    var q', r' := i / c, i % c;
    assert i == q' * c + r';
    if q' < q {
      MulStep(q', q, c);
    } else if q < q' {
      MulStep(q, q', c);
    }
  }

  lemma {:induction false} MulStep(a: nat, b: nat, c: nat)
    requires a < b
    ensures a * c + c <= b * c
  {
    assert b * c == a * c + (b - a) * c;
    MulAtLeast(b - a, c);
  }

  lemma {:induction false} MulAtLeast(a: nat, c: nat)
    requires a > 0
    ensures a * c >= c
  {
    assert a * c == (a - 1) * c + c;
  }

  lemma {:induction false} DivInRange(n: nat, g: nat, c: nat)
    requires c > 0 && n < g * c
    ensures n / c < g && n % c < c && n / c * c + n % c == n
  {
    var q := n / c;
    DivMod(n, c);
    Cancel(q, g, c);
  }

  method Divide(x: nat, c: nat) returns (q: nat, r: nat)
    requires c > 0
    ensures q == x / c && r == x % c && x == q * c + r && r < c
  {
    q, r := x / c, x % c;
  }

  /** Whole multiples do not change the remainder. */
  lemma {:induction false} ModShift(x: nat, k: nat, c: nat)
    requires c > 0
    ensures (k * c + x) % c == x % c
  {
    var q, r := x / c, x % c;
    assert (k + q) * c == k * c + q * c;
    DivModIs(k * c + x, k + q, r, c);
  }

  lemma {:induction false} ModScale(x: nat, m: nat, p: nat)
    requires m > 0 && p > 0
    ensures m * p > 0 && x * p % (m * p) == x % m * p
  {
    var q, r := x / m, x % m;
    MulAtLeast(m, p);
    assert x == q * m + r;
    assert x * p == q * (m * p) + r * p;
    MulStep(r, m, p);
    DivModIs(x * p, q, r * p, m * p);
  }
}
