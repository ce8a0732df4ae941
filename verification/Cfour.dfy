/** The in-place complex FFT on one array with real and imaginary parts alternating, written
    with the one-based odd indices of the original: element i sits at i3 - 1 and i3, i3 == 2i + 1. */
module Cfour {
  import opened Complex
  import opened Arithmetic
  import opened Bits
  import opened Roots
  import opened Dft
  import opened Butterflies
  import opened Sweeps

  /** The complex sequence stored in the first 2n numbers of d. */
  ghost function Pairs(d: seq<real>, n: nat): (r: seq<Cx>)
    requires 2 * n <= |d|
    ensures |r| == n
  {
    seq(n, i requires 0 <= i < n => Cx(d[2 * i], d[2 * i + 1]))
  }

  /** i3rev counts in bit-reversed order: from 2 rev(i) + 1 to 2 rev(i + 1) + 1, while i + 1 < n. */
  method Increment(start: nat, ip3: nat, ghost bits: nat, ghost i: nat) returns (i3rev: nat)
    requires ip3 == 2 * Pow2(bits) && start == 2 * Rev(bits, i) + 1 && i < Pow2(bits)
    ensures i + 1 < Pow2(bits) ==> i3rev == 2 * Rev(bits, i + 1) + 1
  {
    i3rev := start;
    var ip1 := ip3 / 2;
    ghost var l: nat, c: nat := bits, i;
    while true
      invariant l <= bits && i3rev == 2 * Rev(l, c) + 1
      invariant if l == 0 then ip1 == 1 && i + 1 >= Pow2(bits) else ip1 == 2 * Pow2(l - 1)
      invariant i + 1 < Pow2(bits) ==> c + 1 < Pow2(l) && Rev(l, c + 1) == Rev(bits, i + 1)
      decreases ip1
    {
      if l > 0 { RevCarry(l, c); }
      if i3rev <= ip1 { break; }
      i3rev, ip1 := i3rev - ip1, ip1 / 2;
      l, c := l - 1, c / 2;
      if !(ip1 >= 2) { break; }
    }
    if l > 0 { RevCarry(l, c); }
    i3rev := i3rev + ip1;
  }

  /** Exchange the elements at i3 and i3rev. */
  method ExchangePairs(data: array<real>, n: nat, i3: nat, i3rev: nat, ghost i: nat, ghost j: nat)
    requires 2 * n <= data.Length && i < n && j < n && i3 == 2 * i + 1 && i3rev == 2 * j + 1
    modifies data
    ensures Pairs(data[..], n) == Exchange(old(Pairs(data[..], n)), i, j)
    ensures data[2 * n..] == old(data[2 * n..])
  {
    var tempr, tempi := data[i3 - 1], data[i3];
    data[i3 - 1] := data[i3rev - 1];
    data[i3] := data[i3rev];
    data[i3rev - 1] := tempr;
    data[i3rev] := tempi;
  }

  /** The decimation loop. */
  method ReverseOrder(data: array<real>, n: nat, ghost bits: nat)
    requires 2 * n <= data.Length && n == Pow2(bits)
    modifies data
    ensures Pairs(data[..], n) == BitReversed(old(Pairs(data[..], n)), bits)
    ensures data[2 * n..] == old(data[2 * n..])
  {
    hide Pairs, Swapped, BitReversed, Exchange;
    ghost var x := Pairs(data[..], n);
    var ip3 := 2 * n;
    var i3rev, i3 := 1, 1;
    ghost var i := 0;
    RevZero(bits);
    SwapEnds(x, bits);
    while i3 <= ip3
      invariant 0 <= i <= n && i3 == 2 * i + 1 && 0 <= i3rev
      invariant i < n ==> i3rev == 2 * Rev(bits, i) + 1
      invariant Pairs(data[..], n) == Swapped(x, bits, i)
      invariant data[2 * n..] == old(data[2 * n..])
    {
      SwapStep(x, bits, i);
      if i3 < i3rev {
        ExchangePairs(data, n, i3, i3rev, i, Rev(bits, i));
      }
      i3rev := Increment(i3rev, ip3, bits, i);
      i3, i := i3 + 2, i + 1;
    }
    SwapEnds(x, bits);
  }

  /** The butterfly on the elements at i2a and i2b with coefficient (wr, wi). */
  method Butterfly(data: array<real>, n: nat, i2a: nat, i2b: nat, wr: real, wi: real, ghost i: nat, ghost j: nat)
    requires 2 * n <= data.Length && i < j < n && i2a == 2 * i + 1 && i2b == 2 * j + 1
    modifies data
    ensures var a := old(Pairs(data[..], n)); var u := Mul(Cx(wr, wi), a[j]);
            Pairs(data[..], n) == a[j := Sub(a[i], u)][i := Add(a[i], u)]
    ensures data[2 * n..] == old(data[2 * n..])
  {
    ghost var a := Pairs(data[..], n);
    ghost var u := Mul(Cx(wr, wi), a[j]);
    var tempr := wr * data[i2b - 1] - wi * data[i2b];
    var tempi := wr * data[i2b] + wi * data[i2b - 1];
    assert u == Cx(tempr, tempi);
    data[i2b - 1] := data[i2a - 1] - tempr;
    data[i2b] := data[i2a] - tempi;
    data[i2a - 1] := data[i2a - 1] + tempr;
    data[i2a] := data[i2a] + tempi;
    assert Pairs(data[..], n) == a[j := Sub(a[i], u)][i := Add(a[i], u)];
  }

  /** All butterflies of one column, which share the coefficient w^q. */
  method ButterflyColumn(data: array<real>, n: nat, ip1: nat, i1: nat, wr: real, wi: real,
                         ghost bits: nat, ghost k: nat, ghost w: Cx, ghost a: seq<Cx>, ghost q: nat)
    requires 2 * n <= data.Length && n == Pow2(bits) && k < bits && ip1 == 2 * Pow2(k)
    requires i1 == 2 * q + 1 && q < Pow2(k) && |a| == n && Cx(wr, wi) == Pow(w, q)
    requires Pairs(data[..], n) == Swept(a, Pow2(k), w, q, q)
    modifies data
    ensures Pairs(data[..], n) == Swept(a, Pow2(k), w, q + 1, q + 1)
    ensures data[2 * n..] == old(data[2 * n..])
  {
    hide Mul, Add, Sub, StageAt, Pairs, Swept;
    ghost var h, i := Pow2(k), q;
    var ip2, ip3, i3 := 2 * ip1, 2 * n, i1;
    DivModUnique(q, 2 * h, 0, q);
    while i3 < ip3
      invariant 0 <= i && i3 == 2 * i + 1 && i % (2 * h) == q
      invariant Pairs(data[..], n) == Swept(a, h, w, q, i)
      invariant data[2 * n..] == old(data[2 * n..])
      decreases ip3 - i3
    {
      PartnerInRange(bits, k, i);
      SweepStep(a, h, w, q, i);
      Butterfly(data, n, i3, i3 + ip1, wr, wi, i, i + h);
      ModShift(i, 2 * h);
      i3, i := i3 + ip2, i + 2 * h;
    }
    SweepColumn(a, h, w, q, i);
  }

  /** One stage of butterflies. */
  method ButterflyStage(data: array<real>, n: nat, ip1: nat, wstpr: real, wstpi: real,
                        ghost bits: nat, ghost k: nat, ghost w: Cx)
    requires 2 * n <= data.Length && n == Pow2(bits) && k < bits && ip1 == 2 * Pow2(k)
    requires w == Cx(1.0 + wstpr, wstpi)
    modifies data
    ensures Pairs(data[..], n) == Stage(old(Pairs(data[..], n)), Pow2(k), w)
    ensures data[2 * n..] == old(data[2 * n..])
  {
    hide Mul, Add, Sub, StageAt, Pairs, Swept, Stage;
    ghost var a, h, q := Pairs(data[..], n), Pow2(k), 0;
    var wr, wi, i1 := 1.0, 0.0, 1;
    SweepStart(a, h, w);
    while i1 <= ip1
      invariant 0 <= q <= h && i1 == 2 * q + 1
      invariant Cx(wr, wi) == Pow(w, q)
      invariant Pairs(data[..], n) == Swept(a, h, w, q, q)
      invariant data[2 * n..] == old(data[2 * n..])
    {
      ButterflyColumn(data, n, ip1, i1, wr, wi, bits, k, w, a, q);
      NextTwiddle(w, q, wr, wi, wstpr, wstpi);
      var tempr := wr;
      wr := wr * wstpr - wi * wstpi + wr;
      wi := wi * wstpr + tempr * wstpi + wi;
      i1, q := i1 + 2, q + 1;
    }
    SweepEnd(a, h, w, q);
  }

  /** The fast Fourier transform of the first n complex numbers, n a power of two. The sines the
      original computes are read from t. */
  method Compute(data: array<real>, n: nat, isign: int, t: Sines, ghost bits: nat)
    requires 2 * n <= data.Length && n == Pow2(bits) && (isign == 1 || isign == -1)
    requires Lawful(t, bits)
    modifies data
    ensures Pairs(data[..], n) == Transform(old(Pairs(data[..], n)), Root(t, isign, bits))
    ensures data[2 * n..] == old(data[2 * n..])
  {
    hide Pairs, Transform, EntryLaw, HalvingLaw, Mul, Add, Sub, Stage, BitReversed;
    ghost var x := Pairs(data[..], n);
    ReverseOrder(data, n, bits);
    var ip1, ip3, k := 2, 2 * n, 0;
    while ip1 < ip3
      invariant 0 <= k <= bits && ip1 == 2 * Pow2(k)
      invariant Pairs(data[..], n) == AfterStages(x, t, isign, bits, k)
      invariant data[2 * n..] == old(data[2 * n..])
      decreases bits - k
    {
      ExponentLess(k, bits);
      var sinth := Signed(isign, t.half[k]);
      var wstpr := -2.0 * sinth * sinth;
      var wstpi := Signed(isign, t.full[k]);
      StepIsRoot(t, isign, k);
      ButterflyStage(data, n, ip1, wstpr, wstpi, bits, k, Root(t, isign, k + 1));
      k := k + 1;
      ip1 := 2 * ip1;
    }
    ExponentUnique(k, bits);
    StagesCompute(x, t, isign, bits);
  }

  lemma StepIsRoot(t: Sines, isign: int, k: nat)
    requires k < |t.half| && k < |t.full|
    ensures var sinth := Signed(isign, t.half[k]);
            Root(t, isign, k + 1) == Cx(1.0 + -2.0 * sinth * sinth, Signed(isign, t.full[k]))
  {}
}
