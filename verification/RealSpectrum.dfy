/** The transform of 2n' real samples through a complex transform of half the length: how the
    packed spectrum is untangled, and why untangling undoes itself. */
module RealSpectrum {
  import opened Complex
  import opened Bits
  import opened Roots
  import opened Dft
  import opened Butterflies
  import opened Inversion
  import opened Cfour

  // ----- the two-element combination

  /** (p + conj q) / 2 */
  function EvenPart(p: Cx, q: Cx): Cx { Cx(0.5 * (p.re + q.re), 0.5 * (p.im - q.im)) }

  /** (p - conj q) / 2i */
  function OddPart(p: Cx, q: Cx): Cx { Cx(0.5 * (p.im + q.im), 0.5 * (q.re - p.re)) }

  /** The untangled value at frequency k from the packed values p at k and q at -k. */
  function Combine(p: Cx, q: Cx, v: Cx): Cx { Conj(Add(EvenPart(p, q), Mul(v, OddPart(p, q)))) }

  /** The factor of the opposite frequency: -conj(v). */
  function Mirror(v: Cx): Cx { Cx(-v.re, v.im) }

  lemma CombineMirror(p: Cx, q: Cx, v: Cx)
    ensures Combine(q, p, Mirror(v)) == Sub(EvenPart(p, q), Mul(v, OddPart(p, q)))
  {}

  /** Combining twice with a factor of modulus one gives the packed value back. */
  lemma CombineTwice(p: Cx, q: Cx, v: Cx)
    requires Mul(v, Conj(v)) == One
    ensures Combine(Combine(p, q, v), Combine(q, p, Mirror(v)), v) == p
  {
    var e, o := EvenPart(p, q), OddPart(p, q);
    CombineMirror(p, q, v);
    PartsOfSumAndDifference(e, Mul(v, o));
    CancelUnit(v, o);
    assert Cx(e.re - o.im, e.im + o.re) == p;
  }

  lemma PartsOfSumAndDifference(e: Cx, u: Cx)
    ensures EvenPart(Conj(Add(e, u)), Sub(e, u)) == Conj(e)
    ensures OddPart(Conj(Add(e, u)), Sub(e, u)) == Cx(-u.im, -u.re)
  {}

  lemma CancelUnit(v: Cx, o: Cx)
    requires Mul(v, Conj(v)) == One
    ensures Mul(v, Cx(-Mul(v, o).im, -Mul(v, o).re)) == Cx(-o.im, -o.re)
  {
    hide Mul;
    var c := Mul(v, Conj(v));
    MulAssoc(v, Conj(v), Conj(o));
    ConjMul(v, o);
    MulUnits(Conj(o));
    TimesMinusI(Mul(v, o));
    TimesMinusI(o);
    MulAssoc(v, Conj(Mul(v, o)), Cx(0.0, -1.0));
  }

  lemma TimesMinusI(u: Cx)
    ensures Mul(Conj(u), Cx(0.0, -1.0)) == Cx(-u.im, -u.re)
  {}

  lemma CombineMiddle(p: Cx)
    ensures Combine(p, p, ImagUnit) == Conj(p)
  {}

  // ----- whole spectra

  /** Entry k of a spectrum of period |z|. */
  function Around<T>(z: seq<T>, k: nat): T
    requires |z| > 0 && k <= |z|
  {
    if k == |z| then z[0] else z[k]
  }

  /** The spectrum at frequencies 0..|z| of the real samples packed into the transform z. */
  ghost function Untangled(z: seq<Cx>, v: Cx): (r: seq<Cx>)
    requires |z| > 0
    ensures |r| == |z| + 1
  {
    seq(|z| + 1, k requires 0 <= k <= |z| => Combine(Around(z, k), Around(z, |z| - k), Pow(v, k)))
  }

  /** The packed transform recovered from a real spectrum at frequencies 0..|s| - 1. */
  ghost function Tangled(s: seq<Cx>, v: Cx): (r: seq<Cx>)
    requires |s| > 1
    ensures |r| == |s| - 1
  {
    var n := |s| - 1;
    seq(n, k requires 0 <= k < n =>
      if k == 0 then Cx(0.5 * (s[0].re + s[n].re), 0.5 * (s[0].re - s[n].re))
      else Combine(s[k], s[n - k], Pow(v, k)))
  }

  lemma Powers(t: Sines, m: nat, k: nat)
    requires Lawful(t, m) && 0 < m && k <= Pow2(m - 1)
    ensures var v := Root(t, 1, m);
            && Mul(Pow(v, k), Conj(Pow(v, k))) == One
            && Pow(v, Pow2(m - 1) - k) == Mirror(Pow(v, k))
  {
    hide EntryLaw, HalvingLaw, Mul;
    var v, u, n := Root(t, 1, m), Root(t, -1, m), Pow2(m - 1);
    RootUnit(t, 1, m, m);
    ConjPow(v, k);
    PowOfProduct(v, u, k);
    PowOne(k);
    HalfTurn(t, 1, m, m);
    PowAdd(v, n - k, k);
    var p, q := Pow(v, k), Pow(v, n - k);
    assert Mul(q, p) == MinusOne;
    calc {
      q;
      { MulUnits(q); }
      Mul(q, Mul(p, Conj(p)));
      { MulAssoc(q, p, Conj(p)); }
      Mul(MinusOne, Conj(p));
      { MulUnits(Conj(p)); }
      Mirror(p);
    }
  }

  /** Untangling and tangling again is the identity, because the factors have modulus one. */
  lemma TangleUntangled(z: seq<Cx>, t: Sines, m: nat)
    requires Lawful(t, m) && 0 < m && |z| == Pow2(m - 1)
    ensures Tangled(Untangled(z, Root(t, 1, m)), Root(t, 1, m)) == z
  {
    hide EntryLaw, HalvingLaw, Combine, Root, Mul, Mirror, Conj, Pow;
    var v, n := Root(t, 1, m), |z|;
    var r := Tangled(Untangled(z, v), v);
    Ends(z[0], v, n, t, m);
    forall k | 0 < k < n
      ensures r[k] == z[k]
    {
      Powers(t, m, k);
      CombineTwice(z[k], z[n - k], Pow(v, k));
    }
    assert r[0] == z[0];
  }

  lemma Ends(p: Cx, v: Cx, n: nat, t: Sines, m: nat)
    requires Lawful(t, m) && 0 < m && v == Root(t, 1, m) && n == Pow2(m - 1)
    ensures Combine(p, p, Pow(v, 0)) == Cx(p.re + p.im, 0.0)
    ensures Combine(p, p, Pow(v, n)) == Cx(p.re - p.im, 0.0)
  {
    hide EntryLaw, HalvingLaw;
    HalfTurn(t, 1, m, m);
  }

  /** The other order: a spectrum survives exactly when its end values are real. */
  lemma UntangleTangled(s: seq<Cx>, t: Sines, m: nat)
    requires Lawful(t, m) && 0 < m && |s| == Pow2(m - 1) + 1
    ensures Untangled(Tangled(s, Root(t, 1, m)), Root(t, 1, m)) == s
       <==> s[0].im == 0.0 && s[|s| - 1].im == 0.0
  {
    hide EntryLaw, HalvingLaw, Root, Tangled, Untangled;
    var v, n := Root(t, 1, m), |s| - 1;
    var r := Untangled(Tangled(s, v), v);
    EndsSurvive(s, t, m);
    forall k | 0 < k < n
      ensures r[k] == s[k]
    {
      MiddleSurvives(s, t, m, k);
    }
    if s[0].im == 0.0 && s[n].im == 0.0 {
      assert forall k :: 0 <= k <= n ==> r[k] == s[k];
    }
  }

  /** The end values lose their imaginary parts. */
  lemma EndsSurvive(s: seq<Cx>, t: Sines, m: nat)
    requires Lawful(t, m) && 0 < m && |s| == Pow2(m - 1) + 1
    ensures var r, n := Untangled(Tangled(s, Root(t, 1, m)), Root(t, 1, m)), |s| - 1;
      r[0] == Cx(s[0].re, 0.0) && r[n] == Cx(s[n].re, 0.0)
  {
    hide EntryLaw, HalvingLaw, Combine, Root, Pow;
    var v, n := Root(t, 1, m), |s| - 1;
    Ends(Tangled(s, v)[0], v, n, t, m);
  }

  /** The values between them stay. */
  lemma MiddleSurvives(s: seq<Cx>, t: Sines, m: nat, k: nat)
    requires Lawful(t, m) && 0 < m && |s| == Pow2(m - 1) + 1 && 0 < k < |s| - 1
    ensures Untangled(Tangled(s, Root(t, 1, m)), Root(t, 1, m))[k] == s[k]
  {
    hide EntryLaw, HalvingLaw, Combine, Root, Mul, Mirror, Conj, Pow;
    Powers(t, m, k);
    CombineTwice(s[k], s[|s| - 1 - k], Pow(Root(t, 1, m), k));
  }

  // ----- the spectrum of real samples

  /** Real samples as complex numbers. */
  ghost function Lift(x: seq<real>): (r: seq<Cx>)
    ensures |r| == |x|
  {
    seq(|x|, i requires 0 <= i < |x| => Cx(x[i], 0.0))
  }

  /** The DFT of the real sequence x at the frequencies 0..|x|/2. */
  ghost function Spectrum(x: seq<real>, w: Cx): (r: seq<Cx>)
    ensures |r| == |x| / 2 + 1
  {
    seq(|x| / 2 + 1, k requires 0 <= k <= |x| / 2 => Terms(Lift(x), w, k, |x|))
  }

  lemma {:induction false} ConjPoly(x: seq<real>, z: Cx)
    ensures Conj(Poly(Lift(x), z)) == Poly(Lift(x), Conj(z))
  {
    hide Mul, Add, Conj;
    if |x| == 0 {
      ConjZero();
    } else {
      assert Lift(x)[1..] == Lift(x[1..]);
      ConjPoly(x[1..], z);
      ConjStep(x[0], z, Poly(Lift(x[1..]), z));
    }
  }

  lemma ConjZero()
    ensures Conj(Zero) == Zero
  {}

  lemma ConjStep(a: real, z: Cx, p: Cx)
    ensures Conj(Add(Cx(a, 0.0), Mul(z, p))) == Add(Cx(a, 0.0), Mul(Conj(z), Conj(p)))
  {}

  lemma {:induction false} PolyPacked(a: seq<real>, b: seq<real>, z: Cx)
    requires |a| == |b|
    ensures Poly(Packed(a, b), z) == Add(Poly(Lift(a), z), Mul(ImagUnit, Poly(Lift(b), z)))
  {
    hide Mul, Add;
    if |a| == 0 {
      MulUnits(ImagUnit);
      AddUnits(Zero);
    } else {
      assert Packed(a, b)[1..] == Packed(a[1..], b[1..]);
      assert Lift(a)[1..] == Lift(a[1..]) && Lift(b)[1..] == Lift(b[1..]);
      PolyPacked(a[1..], b[1..], z);
      JoinStep(a[0], b[0], z, Poly(Lift(a[1..]), z), Poly(Lift(b[1..]), z));
    }
  }

  lemma JoinStep(a: real, b: real, z: Cx, p: Cx, q: Cx)
    ensures Add(Cx(a, b), Mul(z, Add(p, Mul(ImagUnit, q))))
         == Add(Add(Cx(a, 0.0), Mul(z, p)), Mul(ImagUnit, Add(Cx(b, 0.0), Mul(z, q))))
  {}

  ghost function Alternate(x: seq<real>, c: nat): (r: seq<real>)
    requires c < 2 && |x| % 2 == 0
    ensures |r| == |x| / 2
  {
    seq(|x| / 2, i requires 0 <= i < |x| / 2 => x[2 * i + c])
  }

  /** The two parts of the packed transform at k and -k are the transforms of the even and the
      odd samples. */
  lemma PartsOfPacked(a: Cx, b: Cx)
    ensures var p, q := Add(a, Mul(ImagUnit, b)), Add(Conj(a), Mul(ImagUnit, Conj(b)));
            EvenPart(p, q) == a && OddPart(p, q) == b
  {}

  /** The packed transform at frequency k, around its period. */
  lemma PackedAround(x: seq<real>, t: Sines, m: nat, k: nat)
    requires Lawful(t, m) && 0 < m && |x| == Pow2(m) && k <= |x| / 2
    ensures var u := Root(t, 1, m - 1);
            Around(Transform(Pairs(x, |x| / 2), u), k) == Poly(Pairs(x, |x| / 2), Pow(u, k))
  {
    hide EntryLaw, HalvingLaw;
    var u, z := Root(t, 1, m - 1), Pairs(x, |x| / 2);
    if k == |z| {
      FullTurn(t, 1, m, m - 1);
      TransformAt(z, u, 0);
    } else {
      TransformAt(z, u, k);
    }
  }

  lemma PackedAlternate(x: seq<real>)
    requires |x| % 2 == 0
    ensures Packed(Alternate(x, 0), Alternate(x, 1)) == Pairs(x, |x| / 2)
  {}

  /** The packed transform at k and -k in terms of the transforms of the even and odd samples. */
  lemma PackedParts(x: seq<real>, t: Sines, m: nat, k: nat)
    requires Lawful(t, m) && 0 < m && |x| == Pow2(m) && k <= |x| / 2
    ensures var u, n := Root(t, 1, m - 1), |x| / 2;
            var z := Transform(Pairs(x, n), u);
            && EvenPart(Around(z, k), Around(z, n - k)) == Poly(Lift(Alternate(x, 0)), Pow(u, k))
            && OddPart(Around(z, k), Around(z, n - k)) == Poly(Lift(Alternate(x, 1)), Pow(u, k))
  {
    hide EntryLaw, HalvingLaw, Mul, Add, Conj, Pow, Root, EvenPart, OddPart, Transform, Around, Poly, Pairs, Alternate, Lift, Packed;
    var n := |x| / 2;
    var u, ev, od := Root(t, 1, m - 1), Alternate(x, 0), Alternate(x, 1);
    var y := Pow(u, k);
    PackedAlternate(x);
    PackedAround(x, t, m, k);
    PackedAround(x, t, m, n - k);
    OppositePower(t, 1, m - 1, k);
    RootUnit(t, 1, m, m - 1);
    ConjPow(u, k);
    PolyPacked(ev, od, y);
    PolyPacked(ev, od, Conj(y));
    ConjPoly(ev, y);
    ConjPoly(od, y);
    PartsOfPacked(Poly(Lift(ev), y), Poly(Lift(od), y));
  }

  /** The DFT of the samples in terms of the transforms of the even and odd samples. */
  lemma SampleParts(x: seq<real>, t: Sines, m: nat, k: nat)
    requires Lawful(t, m) && 0 < m && |x| == Pow2(m)
    ensures Terms(Lift(x), Root(t, -1, m), k, |x|)
         == Conj(Add(Poly(Lift(Alternate(x, 0)), Pow(Root(t, 1, m - 1), k)),
                     Mul(Pow(Root(t, 1, m), k), Poly(Lift(Alternate(x, 1)), Pow(Root(t, 1, m - 1), k)))))
  {
    hide EntryLaw, HalvingLaw, Mul, Add, Conj, Root, Poly, Terms;
    var u, v, w := Root(t, 1, m - 1), Root(t, 1, m), Root(t, -1, m);
    var ev, od, y, z := Alternate(x, 0), Alternate(x, 1), Pow(u, k), Pow(w, k);
    TermsIsPoly(Lift(x), w, k, |x|);
    assert Lift(x)[..|x|] == Lift(x);
    PolySplit(Lift(x), z);
    assert Decimate(Lift(x), 0) == Lift(ev) && Decimate(Lift(x), 1) == Lift(od);
    RootUnit(t, 1, m, m);
    RootUnit(t, 1, m, m - 1);
    ConjPow(v, k);
    ConjPow(u, k);
    RootSquare(t, -1, m, m - 1);
    PowOfProduct(w, w, k);
    ConjPoly(ev, y);
    ConjPoly(od, y);
    ConjSum(Poly(Lift(ev), y), Pow(v, k), Poly(Lift(od), y));
  }

  /** One untangled value is the DFT of the real samples. */
  lemma UntangledAt(x: seq<real>, t: Sines, m: nat, k: nat)
    requires Lawful(t, m) && 0 < m && |x| == Pow2(m) && k <= |x| / 2
    ensures Untangled(Transform(Pairs(x, |x| / 2), Root(t, 1, m - 1)), Root(t, 1, m))[k]
         == Terms(Lift(x), Root(t, -1, m), k, |x|)
  {
    hide EntryLaw, HalvingLaw, Mul, Add, Conj, Root, EvenPart, OddPart, Around, Poly, Terms, Pairs, Alternate, Lift;
    PackedParts(x, t, m, k);
    SampleParts(x, t, m, k);
  }

  lemma ConjSum(a: Cx, v: Cx, b: Cx)
    ensures Conj(Add(a, Mul(v, b))) == Add(Conj(a), Mul(Conj(v), Conj(b)))
  {}

  /** Untangling the packed half-length transform yields the DFT of the real samples. */
  lemma UntangledIsSpectrum(x: seq<real>, t: Sines, m: nat)
    requires Lawful(t, m) && 0 < m && |x| == Pow2(m)
    ensures Untangled(Transform(Pairs(x, |x| / 2), Root(t, 1, m - 1)), Root(t, 1, m))
         == Spectrum(x, Root(t, -1, m))
  {
    hide EntryLaw, HalvingLaw, Combine, Root;
    var a := Untangled(Transform(Pairs(x, |x| / 2), Root(t, 1, m - 1)), Root(t, 1, m));
    var b := Spectrum(x, Root(t, -1, m));
    forall k | 0 <= k < |a|
      ensures a[k] == b[k]
    {
      UntangledAt(x, t, m, k);
    }
  }
}
