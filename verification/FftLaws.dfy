/** The laws of the transforms as statements about the arrays: one call after another. */
module FftLaws {
  import opened Complex
  import opened Bits
  import opened Roots
  import opened Dft
  import opened Inversion
  import Fft
  import Cfour
  import Cfftr
  import RealSpectrum

  /** fft forward and then inverse, or the other way round, multiplies every element by n. */
  method FftRoundTrip(re: array<real>, im: array<real>, n: nat, direction: int, t: Sines, ghost bits: nat)
    requires re != im && n <= re.Length && n <= im.Length && n == Pow2(bits) && 0 < bits <= |t.half| == |t.full|
    requires Lawful(t, |t.half|) && (direction == 1 || direction == -1)
    modifies re, im
    ensures Packed(re[..n], im[..n]) == Scaled(n as real, old(Packed(re[..n], im[..n])))
  {
    hide EntryLaw, HalvingLaw, Packed, Transform, Root;
    ghost var x := Packed(re[..n], im[..n]);
    if bits < |t.half| { Pow2Strict(bits, |t.half|); }
    TransformInverse(x, t, -direction, bits);
    var status := Fft.Compute(re, im, n, direction, t);
    status := Fft.Compute(re, im, n, -direction, t);
  }

  /** cfour with one sign and then with the other multiplies every element by n. */
  method CfourRoundTrip(data: array<real>, n: nat, isign: int, t: Sines, ghost bits: nat)
    requires 2 * n <= data.Length && n == Pow2(bits) && (isign == 1 || isign == -1) && Lawful(t, bits)
    modifies data
    ensures Cfour.Pairs(data[..], n) == Scaled(n as real, old(Cfour.Pairs(data[..], n)))
    ensures data[2 * n..] == old(data[2 * n..])
  {
    hide EntryLaw, HalvingLaw, Cfour.Pairs, Transform, Root;
    TransformInverse(Cfour.Pairs(data[..], n), t, isign, bits);
    Cfour.Compute(data, n, isign, t, bits);
    Cfour.Compute(data, n, -isign, t, bits);
  }

  /** cfour with sign s and fft with direction -s leave the same numbers in their layouts. */
  method LayoutsAgree(re: array<real>, im: array<real>, data: array<real>, n: nat, isign: int, t: Sines, ghost bits: nat)
    requires re != im && data != re && data != im
    requires n <= re.Length && n <= im.Length && n == Pow2(bits) && 2 * n <= data.Length && 0 < bits <= |t.half| == |t.full|
    requires Lawful(t, |t.half|) && (isign == 1 || isign == -1)
    requires Packed(re[..n], im[..n]) == Cfour.Pairs(data[..], n)
    modifies re, im, data
    ensures forall i :: 0 <= i < n ==> re[i] == data[2 * i] && im[i] == data[2 * i + 1]
  {
    hide EntryLaw, HalvingLaw, Transform, Root;
    if bits < |t.half| { Pow2Strict(bits, |t.half|); }
    var status := Fft.Compute(re, im, n, -isign, t);
    ghost var r := Packed(re[..n], im[..n]);
    Cfour.Compute(data, n, isign, t, bits);
    assert Cfour.Pairs(data[..], n) == r == Packed(re[..n], im[..n]);
    forall i | 0 <= i < n
      ensures re[i] == data[2 * i] && im[i] == data[2 * i + 1]
    {
      assert r[i] == Cx(re[i], im[i]) == Cx(data[2 * i], data[2 * i + 1]);
    }
  }

  /** cfftr and then cfftri multiplies every one of the n samples by n/2, for n >= 4; for n == 2 it
      exchanges the two samples. */
  method RealRoundTrip(x: array<real>, n: nat, cosEx: real, sinEx: real, t: Sines, ghost bits: nat)
    requires n == Pow2(bits) && 0 < bits && n + 2 <= x.Length && Lawful(t, bits)
    requires Cx(cosEx, -sinEx) == Root(t, -1, bits)
    modifies x
    ensures n >= 4 ==> forall i :: 0 <= i < n ==> x[i] == (n / 2) as real * old(x[i])
    ensures n == 2 ==> x[0] == old(x[1]) && x[1] == old(x[0])
  {
    hide EntryLaw, HalvingLaw, Transform, Root, Scaled, Cfour.Pairs, RealSpectrum.Spectrum, Cfftr.Result, Cfftr.InverseResult;
    ghost var d := x[..n];
    Cfftr.HalfLength(bits);
    Cfftr.RoundTrip(d, t, bits);
    Cfftr.Forward(x, n, cosEx, sinEx, t, bits);
    Cfftr.Backward(x, n, cosEx, sinEx, t, bits);
    if n >= 4 {
      SamplesScaled(x[..], d, n, (n / 2) as real);
    } else {
      OnlyPair(x[..]);
    }
  }

  lemma OnlyPair(e: seq<real>)
    requires |e| >= 2
    ensures Cfour.Pairs(e, 1)[0] == Cx(e[0], e[1])
  {}

  lemma SamplesScaled(e: seq<real>, d: seq<real>, n: nat, r: real)
    requires |d| == n <= |e| && n % 2 == 0 && Cfour.Pairs(e, n / 2) == Scaled(r, Cfour.Pairs(d, n / 2))
    ensures forall i :: 0 <= i < n ==> e[i] == r * d[i]
  {
    forall i | 0 <= i < n
      ensures e[i] == r * d[i]
    {
      var p := Cfour.Pairs(e, n / 2)[i / 2];
      assert p == Scale(r, Cfour.Pairs(d, n / 2)[i / 2]);
      assert i == 2 * (i / 2) || i == 2 * (i / 2) + 1;
    }
  }
}
