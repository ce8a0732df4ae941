/** The in-place complex FFT on separate arrays of real and imaginary parts. */
module Fft {
  import opened Complex
  import opened Arithmetic
  import opened Bits
  import opened Roots
  import opened Dft
  import opened Butterflies
  import opened Sweeps

  /** j counts in bit-reversed order: from rev(i) to rev(i + 1), while i + 1 < n. */
  method Increment(j0: nat, n2: nat, ghost bits: nat, ghost i: nat) returns (j: nat)
    requires bits > 0 && n2 == Pow2(bits - 1) && j0 == Rev(bits, i)
    ensures i + 1 < Pow2(bits) ==> j == Rev(bits, i + 1)
  {
    j := j0;
    var m := n2;
    ghost var l: nat, c: nat := bits, i;
    while j > m - 1 && m >= 2
      invariant 0 < l <= bits && m == Pow2(l - 1)
      invariant j == Rev(l, c)
      invariant i + 1 < Pow2(bits) ==> c + 1 < Pow2(l) && Rev(l, c + 1) == Rev(bits, i + 1)
      decreases m
    {
      RevCarry(l, c);
      j, m := j - m, m / 2;
      l, c := l - 1, c / 2;
    }
    RevCarry(l, c);
    j := j + m;
  }

  /** The decimation loop: bit reversal by exchanges. */
  method ReverseOrder(re: array<real>, im: array<real>, n: nat, ghost bits: nat)
    requires re != im && n <= re.Length && n <= im.Length && n == Pow2(bits) && bits > 0
    modifies re, im
    ensures Packed(re[..n], im[..n]) == BitReversed(old(Packed(re[..n], im[..n])), bits)
    ensures re[n..] == old(re[n..]) && im[n..] == old(im[n..])
  {
    hide Packed, Swapped, BitReversed, Exchange;
    ghost var x := Packed(re[..n], im[..n]);
    var n2 := n / 2;
    var j, i := 0, 0;
    RevZero(bits);
    SwapEnds(x, bits);
    while i < n
      invariant 0 <= i <= n && 0 <= j
      invariant i < n ==> j == Rev(bits, i)
      invariant Packed(re[..n], im[..n]) == Swapped(x, bits, i)
      invariant re[n..] == old(re[n..]) && im[n..] == old(im[n..])
    {
      SwapStep(x, bits, i);
      if i < j {
        Exchange2(re, im, n, i, j);
      }
      j := Increment(j, n2, bits, i);
      i := i + 1;
    }
    SwapEnds(x, bits);
  }

  /** Exchange elements i and j. */
  method Exchange2(re: array<real>, im: array<real>, ghost n: nat, i: nat, j: nat)
    requires re != im && n <= re.Length && n <= im.Length && i < n && j < n
    modifies re, im
    ensures Packed(re[..n], im[..n]) == Exchange(old(Packed(re[..n], im[..n])), i, j)
    ensures re[n..] == old(re[n..]) && im[n..] == old(im[n..])
  {
    var treal, timag := re[j], im[j];
    re[j], im[j] := re[i], im[i];
    re[i], im[i] := treal, timag;
  }

  /** The butterfly on elements i and j with coefficient coef. */
  method Butterfly(re: array<real>, im: array<real>, ghost n: nat, i: nat, j: nat, coefR: real, coefI: real)
    requires re != im && n <= re.Length && n <= im.Length && i < j < n
    modifies re, im
    ensures var a := old(Packed(re[..n], im[..n])); var u := Mul(Cx(coefR, coefI), a[j]);
            Packed(re[..n], im[..n]) == a[j := Sub(a[i], u)][i := Add(a[i], u)]
    ensures re[n..] == old(re[n..]) && im[n..] == old(im[n..])
  {
    ghost var a := Packed(re[..n], im[..n]);
    ghost var u := Mul(Cx(coefR, coefI), a[j]);
    var tmpr := coefR * re[j] - coefI * im[j];
    var tmpi := coefR * im[j] + coefI * re[j];
    assert u == Cx(tmpr, tmpi);
    re[j] := re[i] - tmpr;
    im[j] := im[i] - tmpi;
    re[i] := re[i] + tmpr;
    im[i] := im[i] + tmpi;
    assert Packed(re[..n], im[..n]) == a[j := Sub(a[i], u)][i := Add(a[i], u)];
  }

  /** One stage: all butterflies of half-size mmax, column by column. */
  method ButterflyStage(re: array<real>, im: array<real>, n: nat, mmax: nat, scr: real, sci: real,
                        ghost bits: nat, ghost k: nat, ghost w: Cx)
    requires re != im && n <= re.Length && n <= im.Length && n == Pow2(bits) && k < bits && mmax == Pow2(k)
    requires w == Cx(1.0 + scr, sci)
    modifies re, im
    ensures Packed(re[..n], im[..n]) == Stage(old(Packed(re[..n], im[..n])), mmax, w)
    ensures re[n..] == old(re[n..]) && im[n..] == old(im[n..])
  {
    hide Mul, Add, Sub;
    ghost var a := Packed(re[..n], im[..n]);
    var step := 2 * mmax;
    var m, coefR, coefI := 0, 1.0, 0.0;
    SweepStart(a, mmax, w);
    while m < mmax
      invariant 0 <= m <= mmax
      invariant Cx(coefR, coefI) == Pow(w, m)
      invariant Packed(re[..n], im[..n]) == Swept(a, mmax, w, m, m)
      invariant re[n..] == old(re[n..]) && im[n..] == old(im[n..])
    {
      ButterflyColumn(re, im, n, mmax, m, coefR, coefI, bits, k, w, a);
      NextTwiddle(w, m, coefR, coefI, scr, sci);
      var tmpr := coefR;
      m := m + 1;
      coefR := coefR + coefR * scr - coefI * sci;
      coefI := coefI + coefI * scr + tmpr * sci;
    }
    SweepEnd(a, mmax, w, m);
  }

  /** All butterflies of one column, which share the coefficient w^m. */
  method ButterflyColumn(re: array<real>, im: array<real>, n: nat, mmax: nat, m: nat, coefR: real, coefI: real,
                         ghost bits: nat, ghost k: nat, ghost w: Cx, ghost a: seq<Cx>)
    requires re != im && n <= re.Length && n <= im.Length && n == Pow2(bits) && k < bits && mmax == Pow2(k)
    requires m < mmax && |a| == n && Cx(coefR, coefI) == Pow(w, m)
    requires Packed(re[..n], im[..n]) == Swept(a, mmax, w, m, m)
    modifies re, im
    ensures Packed(re[..n], im[..n]) == Swept(a, mmax, w, m + 1, m + 1)
    ensures re[n..] == old(re[n..]) && im[n..] == old(im[n..])
  {
    hide Mul, Add, Sub, StageAt, Packed, Swept;
    var i := m;
    DivModUnique(m, 2 * mmax, 0, m);
    while i < n
      invariant 0 <= i && i % (2 * mmax) == m
      invariant Packed(re[..n], im[..n]) == Swept(a, mmax, w, m, i)
      invariant re[n..] == old(re[n..]) && im[n..] == old(im[n..])
      decreases n - i
    {
      PartnerInRange(bits, k, i);
      SweepStep(a, mmax, w, m, i);
      Butterfly(re, im, n, i, i + mmax, coefR, coefI);
      ModShift(i, 2 * mmax);
      i := i + 2 * mmax;
    }
    SweepColumn(a, mmax, w, m, i);
  }

  /** The fast Fourier transform. The table is long enough for nfft; it is an input here. */
  method Compute(re: array<real>, im: array<real>, nfft: int, direction: int, t: Sines) returns (status: int)
    requires re != im && nfft <= re.Length && nfft <= im.Length
    requires |t.half| == |t.full| && Lawful(t, |t.half|) && nfft <= Pow2(|t.half|)
    modifies re, im
    ensures status == 0 <==> (direction == 1 || direction == -1) && exists m: nat :: m > 0 && nfft == Pow2(m)
    ensures status != 0 ==> status == -1 && re[..] == old(re[..]) && im[..] == old(im[..])
    ensures status == 0 ==> nfft > 0 && re[nfft..] == old(re[nfft..]) && im[nfft..] == old(im[nfft..])
    ensures status == 0 ==> forall m: nat | m > 0 && nfft == Pow2(m) && m <= |t.half| ::
      Packed(re[..nfft], im[..nfft]) == Transform(old(Packed(re[..nfft], im[..nfft])), Root(t, -direction, m))
  {
    if direction != 1 && direction != -1 {
      return -1;
    }
    var m := 2;
    ghost var bits := 1;
    while m < nfft
      invariant bits > 0 && m == Pow2(bits) && (bits == 1 || Pow2(bits - 1) < nfft)
    {
      m, bits := 2 * m, bits + 1;
    }
    PowersBetween(nfft, bits);
    if m != nfft {
      return -1;
    }
    ghost var x := Packed(re[..nfft], im[..nfft]);
    ExponentBound(bits, |t.half|);
    ReverseOrder(re, im, nfft, bits);
    var mmax, k := 1, 0;
    while mmax < nfft
      invariant 0 <= k <= bits && mmax == Pow2(k)
      invariant Packed(re[..nfft], im[..nfft]) == AfterStages(x, t, -direction, bits, k)
      invariant re[nfft..] == old(re[nfft..]) && im[nfft..] == old(im[nfft..])
      decreases bits - k
    {
      ExponentLess(k, bits);
      var sinphi := -1.0 * (direction as real) * t.half[k];
      var sci := -1.0 * (direction as real) * t.full[k];
      var scr := -2.0 * sinphi * sinphi;
      StepIsRoot(t, direction, k);
      ButterflyStage(re, im, nfft, mmax, scr, sci, bits, k, Root(t, -direction, k + 1));
      k := k + 1;
      mmax := 2 * mmax;
    }
    ExponentUnique(k, bits);
    StagesCompute(x, t, -direction, bits);
    forall e: nat | nfft == Pow2(e)
      ensures e == bits
    {
      ExponentUnique(e, bits);
    }
    return 0;
  }

  /** scr and sci encode w - 1 for the root w of the stage. */
  lemma StepIsRoot(t: Sines, direction: int, k: nat)
    requires k < |t.half| && k < |t.full| && (direction == 1 || direction == -1)
    ensures var sinphi := -1.0 * (direction as real) * t.half[k];
            Root(t, -direction, k + 1) == Cx(1.0 + -2.0 * sinphi * sinphi, -1.0 * (direction as real) * t.full[k])
  {}

  /** The doubling loop stops at the only power of two that n can be. */
  lemma PowersBetween(n: int, bits: nat)
    requires bits > 0 && n <= Pow2(bits) && (bits == 1 || Pow2(bits - 1) < n)
    ensures forall m: nat :: m > 0 && n == Pow2(m) ==> m == bits
  {
    forall m: nat | m > 0 && n == Pow2(m)
      ensures m == bits
    {
      ExponentBound(m, bits);
      if m < bits { Pow2Mono(m, bits - 1); }
    }
  }
}
