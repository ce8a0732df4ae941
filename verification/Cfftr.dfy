/** The FFT of real samples by half-length packing, and its inverse. */
module Cfftr {
  import opened Complex
  import opened Bits
  import opened Roots
  import opened Dft
  import opened Inversion
  import opened Cfour
  import opened RealSpectrum

  // ----- the untangling loop

  /** z while the loop untangles frequencies from both ends, with c the next one; frequency 0 is
      left alone and the middle one was conjugated before the loop. */
  ghost function TwistedTo(z: seq<Cx>, v: Cx, c: nat): (r: seq<Cx>)
    ensures |r| == |z|
  {
    seq(|z|, k requires 0 <= k < |z| =>
      if 0 < k && (k < c || k > |z| - c || k == |z| / 2) then Combine(z[k], z[|z| - k], Pow(v, k)) else z[k])
  }

  lemma TwistStart(z: seq<Cx>, t: Sines, m: nat)
    requires Lawful(t, m) && 1 < m && |z| == Pow2(m - 1)
    ensures TwistedTo(z, Root(t, 1, m), 1) == z[|z| / 2 := Conj(z[|z| / 2])]
  {
    hide EntryLaw, HalvingLaw, Combine, Root;
    var v := Root(t, 1, m);
    QuarterTurn(t, m, m);
    CombineMiddle(z[|z| / 2]);
  }

  lemma {:induction false} QuarterTurn(t: Sines, m: nat, k: nat)
    requires Lawful(t, m) && 1 < k <= m
    ensures Pow(Root(t, 1, k), Pow2(k - 2)) == ImagUnit
  {
    hide EntryLaw, HalvingLaw, Mul, Root;
    var v := Root(t, 1, k);
    if k == 2 {
      FirstRoots(t, 1, m);
      PowFirst(v);
    } else {
      calc {
        Pow(v, Pow2(k - 2));
        { assert Pow2(k - 2) == 2 * Pow2(k - 3); }
        Pow(v, 2 * Pow2(k - 3));
        { PowSquare(v, Pow2(k - 3)); }
        Pow(Mul(v, v), Pow2(k - 3));
        { RootSquare(t, 1, m, k - 1); }
        Pow(Root(t, 1, k - 1), Pow2(k - 3));
        { QuarterTurn(t, m, k - 1); }
        ImagUnit;
      }
    }
  }

  lemma TwistStep(z: seq<Cx>, t: Sines, m: nat, c: nat)
    requires Lawful(t, m) && 1 < m && |z| == Pow2(m - 1) && 0 < c < |z| / 2
    ensures var v, a := Root(t, 1, m), TwistedTo(z, Root(t, 1, m), c); var p, q, f := z[c], z[|z| - c], Pow(v, c);
            && a[c] == p && a[|z| - c] == q
            && TwistedTo(z, v, c + 1) == a[c := Combine(p, q, f)][|z| - c := Combine(q, p, Mirror(f))]
  {
    hide EntryLaw, HalvingLaw, Combine, Root, Mirror, Mul, Pow;
    Powers(t, m, c);
  }

  /** The body of the loop: frequencies i - 1 and j - 1. */
  method TwistPair(x: array<real>, nn: nat, i: nat, j: nat, wr: real, wi: real, ghost c: nat)
    requires 2 * nn <= x.Length && 0 < c < nn - c && i == c + 1 && j == nn - c + 1
    modifies x
    ensures var a, f := old(Pairs(x[..], nn)), Cx(wr, -wi);
            Pairs(x[..], nn) == a[c := Combine(a[c], a[nn - c], f)][nn - c := Combine(a[nn - c], a[c], Mirror(f))]
    ensures x[2 * nn..] == old(x[2 * nn..])
  {
    var k1j, k1i, k2j, k2i := 2 * j - 1, 2 * i - 1, 2 * j, 2 * i;
    ghost var a := Pairs(x[..], nn);
    ghost var p, q := a[c], a[nn - c];
    var a1 := 0.5 * (x[k1i - 1] + x[k1j - 1]);
    var a2 := 0.5 * (x[k2i - 1] - x[k2j - 1]);
    var b1 := 0.5 * (-x[k1i - 1] + x[k1j - 1]);
    var b2 := 0.5 * (-x[k2i - 1] - x[k2j - 1]);
    assert Cx(a1, a2) == EvenPart(p, q) && Cx(-b2, b1) == OddPart(p, q);
    TwistArithmetic(p, q, wr, wi, a1, a2, b1, b2);
    var s := b1;
    b1 := b1 * wr + b2 * wi;
    b2 := b2 * wr - s * wi;
    x[k1i - 1] := a1 - b2;
    x[k2i - 1] := -a2 - b1;
    x[k1j - 1] := a1 + b2;
    x[k2j - 1] := a2 - b1;
    ghost var f := Cx(wr, -wi);
    assert Combine(p, q, f) == Cx(x[2 * c], x[2 * c + 1]);
    assert Combine(q, p, Mirror(f)) == Cx(x[2 * (nn - c)], x[2 * (nn - c) + 1]);
    PairsUpdate(old(x[..]), x[..], nn, c, Combine(p, q, f), Combine(q, p, Mirror(f)));
  }

  lemma PairsUpdate(d: seq<real>, e: seq<real>, nn: nat, c: nat, p: Cx, q: Cx)
    requires 2 * nn <= |d| == |e| && 0 < c < nn - c
    requires e == d[2 * c := p.re][2 * c + 1 := p.im][2 * (nn - c) := q.re][2 * (nn - c) + 1 := q.im]
    ensures Pairs(e, nn) == Pairs(d, nn)[c := p][nn - c := q]
    ensures e[2 * nn..] == d[2 * nn..]
  {}

  lemma TwistArithmetic(p: Cx, q: Cx, wr: real, wi: real, a1: real, a2: real, b1: real, b2: real)
    requires Cx(a1, a2) == EvenPart(p, q) && Cx(-b2, b1) == OddPart(p, q)
    ensures Combine(p, q, Cx(wr, -wi)) == Cx(a1 - (b2 * wr - b1 * wi), -a2 - (b1 * wr + b2 * wi))
    ensures Combine(q, p, Mirror(Cx(wr, -wi))) == Cx(a1 + (b2 * wr - b1 * wi), a2 - (b1 * wr + b2 * wi))
  {
    var f, o := Cx(wr, -wi), OddPart(p, q);
    CombineMirror(p, q, f);
    assert Mul(f, o) == Cx(-(b2 * wr - b1 * wi), b1 * wr + b2 * wi);
  }

  /** The loop over the frequencies 1..n/4 - 1 and their mirror images; wwr and wwi are the cosine
      and minus the sine of 2*pi/n. */
  method Twist(x: array<real>, n: nat, wwr: real, wwi: real, t: Sines, ghost bits: nat, ghost z: seq<Cx>)
    requires n == Pow2(bits) && 0 < bits && n <= x.Length && Lawful(t, bits)
    requires Cx(wwr, wwi) == Root(t, -1, bits)
    requires |z| == n / 2 && Pairs(x[..], n / 2) == TwistedTo(z, Root(t, 1, bits), 1)
    modifies x
    ensures Pairs(x[..], n / 2) == TwistedTo(z, Root(t, 1, bits), n / 4)
    ensures x[n..] == old(x[n..])
  {
    hide EntryLaw, HalvingLaw, Combine, Root, Mirror, Mul, Pairs, TwistedTo;
    var nn := n / 2;
    var nm := nn / 2;
    var j, i, wr, wi := nn, 2, 1.0, 0.0;
    ghost var v, w := Root(t, 1, bits), Root(t, -1, bits);
    RootUnit(t, 1, bits, bits);
    while i <= nm
      invariant 2 <= i && (i == 2 || i <= nm + 1) && j == nn - i + 2
      invariant Cx(wr, wi) == Pow(w, i - 2)
      invariant Pairs(x[..], nn) == TwistedTo(z, v, i - 1)
      invariant x[n..] == old(x[n..])
    {
      assert Pow(w, i - 1) == Mul(Cx(wwr, wwi), Cx(wr, wi));
      Turn(wwr, wwi, wr, wi);
      var wrr := wr * wwr - wi * wwi;
      wi := wr * wwi + wi * wwr;
      wr := wrr;
      ConjPow(v, i - 1);
      assert Pow(v, i - 1) == Cx(wr, -wi);
      TwistStep(z, t, bits, i - 1);
      TwistPair(x, nn, i, j, wr, wi, i - 1);
      j, i := j - 1, i + 1;
    }
    if bits == 1 { TwistNothing(z, v); }
  }

  lemma TwistNothing(z: seq<Cx>, v: Cx)
    requires |z| <= 1
    ensures forall c :: TwistedTo(z, v, c) == z
  {}

  lemma Turn(wwr: real, wwi: real, wr: real, wi: real)
    ensures Mul(Cx(wwr, wwi), Cx(wr, wi)) == Cx(wr * wwr - wi * wwi, wr * wwi + wi * wwr)
  {}

  // ----- the transforms

  /** What Forward leaves in the first n + 2 numbers. For n == 2 the statement that conjugates the
      middle frequency hits the last one instead and flips the sign of its real part. */
  ghost function Result(x: seq<real>, t: Sines, bits: nat): (r: seq<Cx>)
    requires 0 < bits <= |t.half| && bits <= |t.full| && |x| == Pow2(bits)
    ensures |r| == |x| / 2 + 1
  {
    if bits == 1 then [Cx(x[0] + x[1], 0.0), Cx(x[1] - x[0], 0.0)] else Spectrum(x, Root(t, -1, bits))
  }

  /** The statements before the loop: frequencies 0 and n/2 from the packed first value, and the
      conjugate of the middle frequency. */
  method SplitEnds(x: array<real>, n: nat, nn: nat)
    requires n == 2 * nn && n + 2 <= x.Length && (nn == 1 || (nn > 1 && nn % 2 == 0))
    modifies x
    ensures var z := old(Pairs(x[..], nn));
            && Pairs(x[..], nn) == Headed(z, Cx(z[0].re + z[0].im, 0.0))
            && x[n..] == [if nn == 1 then z[0].im - z[0].re else z[0].re - z[0].im, 0.0] + old(x[n + 2..])
  {
    hide Pairs, Headed;
    ghost var d := x[..];
    var s := x[0];
    x[0] := x[0] + x[1];
    x[n] := s - x[1];
    x[1] := 0.0;
    x[n + 1] := 0.0;
    x[nn + 1] := -x[nn + 1];
    SplitContents(d, nn, x[..]);
  }

  lemma SplitContents(d: seq<real>, nn: nat, e: seq<real>)
    requires 2 * nn + 2 <= |d| && (nn == 1 || (nn > 1 && nn % 2 == 0))
    requires var c := d[0 := d[0] + d[1]][2 * nn := d[0] - d[1]][1 := 0.0][2 * nn + 1 := 0.0]; e == c[nn + 1 := -c[nn + 1]]
    ensures var z := Pairs(d, nn);
      && Pairs(e, nn) == Headed(z, Cx(z[0].re + z[0].im, 0.0))
      && e[2 * nn..] == [if nn == 1 then z[0].im - z[0].re else z[0].re - z[0].im, 0.0] + d[2 * nn + 2..]
  {
    var z, y := Pairs(d, nn), Pairs(e, nn);
    var h := Headed(z, Cx(z[0].re + z[0].im, 0.0));
    forall k | 0 <= k < nn
      ensures y[k] == h[k]
    {
      assert k == 0 || k == nn / 2 || y[k] == z[k];
    }
  }

  /** z with a new first value and the middle value conjugated. */
  ghost function Headed(z: seq<Cx>, head: Cx): (r: seq<Cx>)
    requires |z| > 0
    ensures |r| == |z|
  {
    if |z| == 1 then [head] else z[0 := head][|z| / 2 := Conj(z[|z| / 2])]
  }

  lemma HeadedIsTwistStart(z: seq<Cx>, head: Cx, t: Sines, m: nat)
    requires Lawful(t, m) && 0 < m && |z| == Pow2(m - 1)
    ensures Headed(z, head) == TwistedTo(z[0 := head], Root(t, 1, m), 1)
  {
    hide EntryLaw, HalvingLaw, Root, Combine;
    if m == 1 {
      TwistNothing([head], Root(t, 1, m));
    } else {
      Half(m);
      TwistStart(z[0 := head], t, m);
    }
  }

  /** The transform of n real samples; on return x holds the n/2 + 1 frequencies from 0 up. */
  method Forward(x: array<real>, n: nat, cosEx: real, sinEx: real, t: Sines, ghost bits: nat)
    requires n == Pow2(bits) && 0 < bits && n + 2 <= x.Length && Lawful(t, bits)
    requires Cx(cosEx, -sinEx) == Root(t, -1, bits)
    modifies x
    ensures Pairs(x[..], n / 2 + 1) == Result(old(x[..n]), t, bits)
    ensures Pairs(x[..], n / 2 + 1) == Spectrum(old(x[..n]), Root(t, -1, bits)) <==> n >= 4 || old(x[0]) == old(x[1])
    ensures x[n + 2..] == old(x[n + 2..])
  {
    hide EntryLaw, HalvingLaw, Root, Combine, Transform, Pairs, TwistedTo, Headed, Result;
    var nn := n / 2;
    ghost var xs := x[..n];
    HalfLength(bits);
    PairsPrefix(x[..], n);
    Cfour.Compute(x, nn, 1, t, bits - 1);
    assert x[n + 2..] == x[n..][2..];
    ghost var z := Pairs(x[..], nn);
    SplitEnds(x, n, nn);
    ghost var head := Cx(z[0].re + z[0].im, 0.0);
    HeadedIsTwistStart(z, head, t, bits);
    Twist(x, n, cosEx, -sinEx, t, bits, z[0 := head]);
    assert x[n + 2..] == x[n..][2..];
    ForwardResult(xs, t, bits, z, x[..]);
    ForwardCorrect(xs, t, bits);
  }

  lemma HalfLength(bits: nat)
    requires 0 < bits
    ensures Pow2(bits) == 2 * Pow2(bits - 1) && (Pow2(bits - 1) == 1 || (Pow2(bits - 1) > 1 && Pow2(bits - 1) % 2 == 0))
    ensures bits == 1 <==> Pow2(bits - 1) == 1
  {}

  lemma PairsPrefix(d: seq<real>, n: nat)
    requires n <= |d| && n % 2 == 0
    ensures Pairs(d, n / 2) == Pairs(d[..n], n / 2)
  {}

  /** The contents at the end of Forward, from the contents around the loop. */
  lemma ForwardResult(xs: seq<real>, t: Sines, m: nat, z: seq<Cx>, d: seq<real>)
    requires Lawful(t, m) && 0 < m && |xs| == Pow2(m) && |xs| + 2 <= |d|
    requires z == Transform(Pairs(xs, |xs| / 2), Root(t, 1, m - 1))
    requires Pairs(d, |xs| / 2) == TwistedTo(z[0 := Cx(z[0].re + z[0].im, 0.0)], Root(t, 1, m), |xs| / 4)
    requires d[|xs|] == (if m == 1 then z[0].im - z[0].re else z[0].re - z[0].im) && d[|xs| + 1] == 0.0
    ensures Pairs(d, |xs| / 2 + 1) == Result(xs, t, m)
  {
    hide EntryLaw, HalvingLaw, Root, Combine, Transform;
    var nn := |xs| / 2;
    HalfLength(m);
    var y, r := z[0 := Cx(z[0].re + z[0].im, 0.0)], Pairs(d, nn + 1);
    assert r[..nn] == Pairs(d, nn);
    if m == 1 {
      SingleTransform(xs, t, z);
      TwistNothing(y, Root(t, 1, m));
      assert r[0] == r[..nn][0] == Cx(xs[0] + xs[1], 0.0);
      assert r[1] == Cx(d[2], d[3]);
    } else {
      Half(m);
      UntangledFromTwisted(z, y, t, m, r);
      UntangledIsSpectrum(xs, t, m);
    }
  }

  lemma Half(bits: nat)
    requires bits > 1
    ensures Pow2(bits) / 2 == Pow2(bits - 1) && Pow2(bits) / 2 % 2 == 0 && Pow2(bits) / 4 == Pow2(bits - 2)
    ensures Pow2(bits) / 2 / 2 == Pow2(bits) / 4 && Pow2(bits) / 4 > 0
  {}

  lemma SingleTransform(xs: seq<real>, t: Sines, z: seq<Cx>)
    requires |xs| == 2 && z == Transform(Pairs(xs, 1), Root(t, 1, 0))
    ensures z == [Cx(xs[0], xs[1])]
  {
    hide Mul;
    var p := Pairs(xs, 1);
    assert Terms(p, One, 0, 1) == Add(Terms(p, One, 0, 0), Mul(p[0], Pow(One, 0)));
    MulUnits(p[0]);
    AddUnits(p[0]);
  }

  /** The two end values and the untangled inner frequencies make up the spectrum. */
  lemma UntangledFromTwisted(z: seq<Cx>, y: seq<Cx>, t: Sines, m: nat, r: seq<Cx>)
    requires Lawful(t, m) && 1 < m && |z| == Pow2(m - 1) && y == z[0 := Cx(z[0].re + z[0].im, 0.0)]
    requires |r| == |z| + 1 && r[..|z|] == TwistedTo(y, Root(t, 1, m), |z| / 2)
    requires r[|z|] == Cx(z[0].re - z[0].im, 0.0)
    ensures r == Untangled(z, Root(t, 1, m))
  {
    hide EntryLaw, HalvingLaw, Root, Combine, Pow;
    var v := Root(t, 1, m);
    Ends(z[0], v, |z|, t, m);
    var u, w := Untangled(z, v), TwistedTo(y, v, |z| / 2);
    forall k | 0 <= k < |r|
      ensures r[k] == u[k]
    {
      if k < |z| { assert r[k] == w[k]; }
    }
  }

  /** What Backward leaves in the first n numbers. */
  ghost function InverseResult(s: seq<Cx>, t: Sines, bits: nat): (r: seq<Cx>)
    requires 0 < bits <= |t.half| && bits <= |t.full| && |s| == Pow2(bits) / 2 + 1
  {
    Transform(Tangled(s, Root(t, 1, bits)), Root(t, -1, bits - 1))
  }

  /** The statements before the loop of the inverse. */
  method MergeEnds(x: array<real>, n: nat, nn: nat)
    requires n == 2 * nn && n + 2 <= x.Length && (nn == 1 || (nn > 1 && nn % 2 == 0))
    modifies x
    ensures var s := old(Pairs(x[..], nn + 1));
            Pairs(x[..], nn) == Headed(s[..nn], Cx(0.5 * (s[0].re + s[nn].re), 0.5 * (s[0].re - s[nn].re)))
    ensures x[n..] == old(x[n..])[0 := if nn == 1 then -old(x[n]) else old(x[n])]
  {
    ghost var sp := Pairs(x[..], nn + 1);
    ghost var head := Cx(0.5 * (sp[0].re + sp[nn].re), 0.5 * (sp[0].re - sp[nn].re));
    var s := x[0];
    x[0] := 0.5 * (x[0] + x[n]);
    x[1] := 0.5 * (s - x[n]);
    x[nn + 1] := -x[nn + 1];
    ghost var y := Pairs(x[..], nn);
    assert y[0] == head;
    if nn > 1 { assert y[nn / 2] == Conj(sp[nn / 2]); }
    assert forall k :: 0 < k < nn && k != nn / 2 ==> y[k] == sp[k];
    assert y == Headed(sp[..nn], head);
  }

  /** The inverse: from n/2 + 1 frequencies back to n real samples, scaled by n/2. */
  method Backward(x: array<real>, n: nat, cosEx: real, sinEx: real, t: Sines, ghost bits: nat)
    requires n == Pow2(bits) && 0 < bits && n + 2 <= x.Length && Lawful(t, bits)
    requires Cx(cosEx, -sinEx) == Root(t, -1, bits)
    modifies x
    ensures Pairs(x[..], n / 2) == InverseResult(old(Pairs(x[..], n / 2 + 1)), t, bits)
    ensures x[n..] == old(x[n..])[0 := if n == 2 then -old(x[n]) else old(x[n])]
  {
    hide EntryLaw, HalvingLaw, Root, Combine, Transform, Pairs, TwistedTo, Headed, Tangled;
    var nn := n / 2;
    ghost var sp := Pairs(x[..], nn + 1);
    HalfLength(bits);
    MergeEnds(x, n, nn);
    ghost var head := Cx(0.5 * (sp[0].re + sp[nn].re), 0.5 * (sp[0].re - sp[nn].re));
    HeadedIsTwistStart(sp[..nn], head, t, bits);
    Twist(x, n, cosEx, -sinEx, t, bits, sp[..nn][0 := head]);
    TangledFromTwisted(sp, sp[..nn][0 := head], t, bits);
    Cfour.Compute(x, nn, -1, t, bits - 1);
  }

  lemma TangledFromTwisted(s: seq<Cx>, y: seq<Cx>, t: Sines, m: nat)
    requires Lawful(t, m) && 0 < m && |s| == Pow2(m - 1) + 1
    requires y == s[..|s| - 1][0 := Cx(0.5 * (s[0].re + s[|s| - 1].re), 0.5 * (s[0].re - s[|s| - 1].re))]
    ensures TwistedTo(y, Root(t, 1, m), Pow2(m) / 4) == Tangled(s, Root(t, 1, m))
  {
    hide EntryLaw, HalvingLaw, Root, Combine, Pow;
    if m == 1 {
      TwistNothing(y, Root(t, 1, m));
    } else {
      Half(m);
    }
  }

  // ----- the round trip

  /** The two real samples x[0], x[1] survive a round trip of length 2 only if they are equal. */
  predicate RoundTripCondition(x: seq<real>)
    requires |x| > 1
  {
    |x| >= 4 || x[0] == x[1]
  }

  /** Backward after Forward multiplies every sample by n/2, exactly when n >= 4 or the only two
      samples are equal; for n == 2 it exchanges them. */
  lemma RoundTrip(x: seq<real>, t: Sines, bits: nat)
    requires Lawful(t, bits) && 0 < bits && |x| == Pow2(bits)
    ensures InverseResult(Result(x, t, bits), t, bits) == Scaled((|x| / 2) as real, Pairs(x, |x| / 2))
       <==> RoundTripCondition(x)
    ensures |x| == 2 ==> InverseResult(Result(x, t, bits), t, bits) == [Cx(x[1], x[0])]
  {
    hide EntryLaw, HalvingLaw, Root, Transform, Combine, InverseResult, Result;
    HalfLength(bits);
    if bits > 1 {
      LongRoundTrip(x, t, bits);
    } else {
      TwoSamples(x, t);
      assert Scaled(1.0, Pairs(x, 1)) == [Cx(x[0], x[1])];
    }
  }

  lemma LongRoundTrip(x: seq<real>, t: Sines, bits: nat)
    requires Lawful(t, bits) && 1 < bits && |x| == Pow2(bits)
    ensures InverseResult(Result(x, t, bits), t, bits) == Scaled((|x| / 2) as real, Pairs(x, |x| / 2))
  {
    hide EntryLaw, HalvingLaw, Root, Transform, Combine, Spectrum, Tangled, Untangled, Scaled, Pairs;
    var z := Pairs(x, |x| / 2);
    HalfLength(bits);
    UntangledIsSpectrum(x, t, bits);
    TangleUntangled(Transform(z, Root(t, 1, bits - 1)), t, bits);
    TransformInverse(z, t, 1, bits - 1);
  }

  lemma TwoSamples(x: seq<real>, t: Sines)
    requires Lawful(t, 1) && |x| == 2
    ensures InverseResult(Result(x, t, 1), t, 1) == [Cx(x[1], x[0])]
  {
    var z := Tangled(Result(x, t, 1), Root(t, 1, 1));
    assert z == [Cx(x[1], x[0])];
    assert z == Pairs([x[1], x[0]], 1);
    SingleTransform([x[1], x[0]], t, Transform(z, Root(t, 1, 0)));
  }

  /** The step of Forward from the values it computes to the spectrum: for n == 2 they differ in a sign. */
  lemma ForwardCorrect(x: seq<real>, t: Sines, bits: nat)
    requires Lawful(t, bits) && 0 < bits && |x| == Pow2(bits)
    ensures Result(x, t, bits) == Spectrum(x, Root(t, -1, bits)) <==> RoundTripCondition(x)
  {
    if bits == 1 {
      TwoPointSpectrum(x, t);
    }
  }

  lemma TwoPointSpectrum(x: seq<real>, t: Sines)
    requires Lawful(t, 1) && |x| == 2
    ensures Spectrum(x, Root(t, -1, 1)) == [Cx(x[0] + x[1], 0.0), Cx(x[0] - x[1], 0.0)]
  {
    FirstRoots(t, -1, 1);
    var w, l := MinusOne, Lift(x);
    assert Pow(w, 0) == One && Pow(w, 1) == MinusOne;
    assert Terms(l, w, 0, 1) == Add(Zero, Mul(l[0], One)) && Terms(l, w, 0, 2) == Add(Terms(l, w, 0, 1), Mul(l[1], One));
    assert Terms(l, w, 1, 1) == Add(Zero, Mul(l[0], One)) && Terms(l, w, 1, 2) == Add(Terms(l, w, 1, 1), Mul(l[1], w));
  }
}
