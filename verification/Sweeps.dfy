/** What an array holds half way through the in-place loops: during the bit-reversal swaps,
    and during one butterfly stage swept column by column. */
module Sweeps {
  import opened Complex
  import opened Arithmetic
  import opened Bits
  import opened Butterflies

  // ----- swaps

  /** x after the swap loop has passed the indices below i. */
  ghost function Swapped(x: seq<Cx>, m: nat, i: nat): (r: seq<Cx>)
    requires |x| == Pow2(m)
    ensures |r| == |x|
  {
    seq(|x|, k requires 0 <= k < |x| =>
      RevBound(m, k); if k < i || Rev(m, k) < i then x[Rev(m, k)] else x[k])
  }

  /** The sequence with elements i and j exchanged. */
  ghost function Exchange<T>(a: seq<T>, i: nat, j: nat): (r: seq<T>)
    requires i < |a| && j < |a|
    ensures |r| == |a|
  {
    a[i := a[j]][j := a[i]]
  }

  /** One turn of the swap loop: indices i and rev(i) trade places the first time they are met. */
  lemma SwapStep(x: seq<Cx>, m: nat, i: nat)
    requires |x| == Pow2(m) && i < |x|
    ensures Rev(m, i) < |x|
    ensures Swapped(x, m, i + 1)
         == if i < Rev(m, i) then Exchange(Swapped(x, m, i), i, Rev(m, i)) else Swapped(x, m, i)
  {
    RevBound(m, i);
    RevInvolution(m, i);
    var j, a, b := Rev(m, i), Swapped(x, m, i), Swapped(x, m, i + 1);
    var c := if i < j then Exchange(a, i, j) else a;
    forall k | 0 <= k < |x|
      ensures b[k] == c[k]
    {
      RevBound(m, k);
      RevInvolution(m, k);
    }
  }

  lemma SwapEnds(x: seq<Cx>, m: nat)
    requires |x| == Pow2(m)
    ensures Swapped(x, m, 0) == x && Swapped(x, m, |x|) == BitReversed(x, m)
  {}

  /** Bit reversal is its own inverse. */
  lemma BitReversedTwice(x: seq<Cx>, m: nat)
    requires |x| == Pow2(m)
    ensures BitReversed(BitReversed(x, m), m) == x
  {
    var y := BitReversed(BitReversed(x, m), m);
    forall i | 0 <= i < |x|
      ensures y[i] == x[i]
    {
      RevBound(m, i);
      RevInvolution(m, i);
    }
  }

  // ----- butterflies

  /** a during a stage of half-size h: the columns below q are done, and so is column q at the
      indices below pos. */
  ghost function Swept(a: seq<Cx>, h: nat, w: Cx, q: nat, pos: nat): (r: seq<Cx>)
    requires h > 0
    ensures |r| == |a|
  {
    seq(|a|, i requires 0 <= i < |a| =>
      if i % h < q || (i % h == q && i < pos) then StageAt(a, h, w, i) else a[i])
  }

  lemma ModHalf(i: nat, h: nat)
    requires h > 0
    ensures var r := i % (2 * h); i % h == if r < h then r else r - h
  {
    var b, r := i / (2 * h), i % (2 * h);
    assert b * (2 * h) == (2 * b) * h && (2 * b + 1) * h == (2 * b) * h + h;
    if r < h {
      DivModUnique(i, h, 2 * b, r);
    } else {
      DivModUnique(i, h, 2 * b + 1, r - h);
    }
  }

  /** Within one step from i, column i % h is met at i and i + h only. */
  lemma SameColumn(i: nat, k: nat, h: nat)
    requires h > 0 && i <= k < i + 2 * h && i % h == k % h
    ensures k == i || k == i + h
  {
    var a, b := i / h, k / h;
    assert i == a * h + i % h && k == b * h + i % h;
    assert (b - a) * h == k - i;
    if b <= a {
      assert (a - b) * h >= 0;
    } else if b >= a + 2 {
      MulMono(2, b - a, h);
    } else {
      assert b - a == 1;
    }
  }

  /** One turn of the innermost loop: a single butterfly. */
  lemma SweepStep(a: seq<Cx>, h: nat, w: Cx, q: nat, i: nat)
    requires q < h && i + h < |a| && i % (2 * h) == q
    ensures Swept(a, h, w, q, i)[i] == a[i] && Swept(a, h, w, q, i)[i + h] == a[i + h]
    ensures var u := Mul(Pow(w, q), a[i + h]);
            Swept(a, h, w, q, i + 2 * h) == Swept(a, h, w, q, i)[i + h := Sub(a[i], u)][i := Add(a[i], u)]
  {
    hide Mul, Add, Sub;
    ModHalf(i, h);
    ModShift(i, h);
    HighSlot(i, h, q);
    StagePair(a, h, w, i, q);
    var u := Mul(Pow(w, q), a[i + h]);
    var b, c := Swept(a, h, w, q, i + 2 * h), Swept(a, h, w, q, i)[i + h := Sub(a[i], u)][i := Add(a[i], u)];
    forall k | 0 <= k < |a|
      ensures b[k] == c[k]
    {
      if i <= k < i + 2 * h && k % h == q { SameColumn(i, k, h); }
    }
  }

  lemma HighSlot(i: nat, h: nat, q: nat)
    requires q < h && i % (2 * h) == q
    ensures (i + h) % (2 * h) == q + h
  {
    DivModUnique(i + h, 2 * h, i / (2 * h), q + h);
  }

  lemma SweepStart(a: seq<Cx>, h: nat, w: Cx)
    requires h > 0
    ensures Swept(a, h, w, 0, 0) == a
  {}

  /** The twiddle recurrence multiplies by w. */
  lemma NextTwiddle(w: Cx, m: nat, cr: real, ci: real, scr: real, sci: real)
    requires w == Cx(1.0 + scr, sci) && Cx(cr, ci) == Pow(w, m)
    ensures Cx(cr + cr * scr - ci * sci, ci + ci * scr + cr * sci) == Pow(w, m + 1)
  {
    assert Pow(w, m + 1) == Mul(w, Cx(cr, ci));
  }

  /** A finished column is the start of the next one. */
  lemma SweepColumn(a: seq<Cx>, h: nat, w: Cx, q: nat, pos: nat)
    requires q < h && |a| <= pos
    ensures Swept(a, h, w, q, pos) == Swept(a, h, w, q + 1, q + 1)
  {
    hide StageAt;
    var b, c := Swept(a, h, w, q, pos), Swept(a, h, w, q + 1, q + 1);
    forall k | 0 <= k < |a|
      ensures b[k] == c[k]
    {
      ModSmall(k, h);
    }
  }

  lemma SweepEnd(a: seq<Cx>, h: nat, w: Cx, pos: nat)
    requires h > 0
    ensures Swept(a, h, w, h, pos) == Stage(a, h, w)
  {
    hide StageAt;
  }

  /** Every butterfly started inside an array of 2^m elements has its partner inside too. */
  lemma PartnerInRange(m: nat, k: nat, i: nat)
    requires k < m && i < Pow2(m) && i % (2 * Pow2(k)) < Pow2(k)
    ensures i + Pow2(k) < Pow2(m)
  {
    Pow2Product(k + 1, m - k - 1);
    BlockInside(i, 2 * Pow2(k), Pow2(m - k - 1), Pow2(m));
  }

  lemma BlockInside(i: nat, s: nat, n: nat, size: nat)
    requires s > 0 && size == n * s && i < size
    ensures i % s <= i && i - i % s + s <= size
  {
    var q := i / s;
    assert i == q * s + i % s;
    if q >= n {
      MulMono(n, q, s);
    } else {
      MulMono(q + 1, n, s);
      assert (q + 1) * s == q * s + s;
    }
  }
}
