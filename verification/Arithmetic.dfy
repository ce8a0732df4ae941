/** Facts about division with remainder by a variable divisor, and the powers of ten. */
module Arithmetic {

  /** Quotient and remainder are determined by the division equation. */
  lemma DivModUnique(a: int, d: nat, q: int, r: nat)
    requires a == q * d + r && r < d
    ensures a / d == q && a % d == r
  {
    var q', r' := a / d, a % d;
    assert a == q' * d + r';
    if q' < q {
      assert (q - q') * d >= d by { MulMono(1, q - q', d); }
    } else if q < q' {
      assert (q' - q) * d >= d by { MulMono(1, q' - q, d); }
    }
  }

  lemma MulMono(a: int, b: int, d: nat)
    requires a <= b
    ensures a * d <= b * d
  {}

  lemma ModShift(i: nat, d: nat)
    requires d > 0
    ensures (i + d) % d == i % d
  {
    assert (i / d + 1) * d == (i / d) * d + d;
    DivModUnique(i + d, d, i / d + 1, i % d);
  }

  lemma ModSmall(i: nat, h: nat)
    requires h > 0
    ensures i % h <= i
  {
    if i < h { DivModUnique(i, h, 0, i); }
  }

  /** 10^k */
  function Ten(k: nat): (r: nat)
    ensures r > 0
  {
    if k == 0 then 1 else 10 * Ten(k - 1)
  }

  lemma {:induction false} TenMono(a: nat, b: nat)
    requires a < b
    ensures 10 * Ten(a) <= Ten(b)
  {
    if a + 1 < b { TenMono(a, b - 1); }
  }

  lemma TenAdd(a: nat, b: nat)
    ensures Ten(a + b) == Ten(a) * Ten(b)
    decreases b
  {
    if b > 0 {
      TenAdd(a, b - 1);
      assert Ten(a + b) == 10 * Ten(a + (b - 1));
    }
  }
}
