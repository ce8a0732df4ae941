/** Orthogonality of the roots of unity, and the inversion of the discrete Fourier transform. */
module Inversion {
  import opened Complex
  import opened Bits
  import opened Roots
  import opened Dft

  ghost function Scaled(r: real, x: seq<Cx>): (y: seq<Cx>)
    ensures |y| == |x|
  {
    seq(|x|, i requires 0 <= i < |x| => Scale(r, x[i]))
  }

  // ----- geometric sums

  /** 1 + z + ... + z^(n-1) */
  ghost function Geo(z: Cx, n: nat): Cx
  {
    if n == 0 then Zero else Add(Geo(z, n - 1), Pow(z, n - 1))
  }

  lemma {:induction false} GeoAdd(z: Cx, a: nat, b: nat)
    ensures Geo(z, a + b) == Add(Geo(z, a), Mul(Pow(z, a), Geo(z, b)))
  {
    hide Mul, Add;
    if b == 0 {
      MulUnits(Pow(z, a));
      AddUnits(Geo(z, a));
    } else {
      GeoAdd(z, a, b - 1);
      PowAdd(z, a, b - 1);
      AddAssoc(Geo(z, a), Mul(Pow(z, a), Geo(z, b - 1)), Mul(Pow(z, a), Pow(z, b - 1)));
      MulAdd(Pow(z, a), Geo(z, b - 1), Pow(z, b - 1));
    }
  }

  lemma {:induction false} GeoOne(n: nat)
    ensures Geo(One, n) == Cx(n as real, 0.0)
  {
    hide Mul;
    if n > 0 {
      GeoOne(n - 1);
      PowOne(n - 1);
    }
  }

  lemma {:induction false} PowMinusOne(d: nat)
    requires d % 2 == 1
    ensures Pow(MinusOne, d) == MinusOne
  {
    hide Mul;
    var h := d / 2;
    PowSquare(MinusOne, h);
    MulUnits(MinusOne);
    PowOne(h);
    PowAdd(MinusOne, 2 * h, 1);
    assert Pow(MinusOne, 1) == Mul(MinusOne, Pow(MinusOne, 0));
  }

  lemma Cancel(g: Cx)
    ensures Add(g, Mul(MinusOne, g)) == Zero
  {}

  /** The powers of any root of unity other than one sum to zero. */
  lemma {:induction false} Orthogonality(t: Sines, sgn: int, m: nat, k: nat, d: nat)
    requires Lawful(t, m) && k <= m && (sgn == 1 || sgn == -1)
    requires 0 < d < Pow2(k)
    ensures Geo(Pow(Root(t, sgn, k), d), Pow2(k)) == Zero
    decreases k
  {
    hide Mul, Add, EntryLaw, HalvingLaw;
    var w, h := Root(t, sgn, k), Pow2(k - 1);
    var z := Pow(w, d);
    GeoAdd(z, h, h);
    if d % 2 == 1 {
      PowOfPow(w, d, h);
      PowOfPow(w, h, d);
      assert d * h == h * d;
      HalfTurn(t, sgn, m, k);
      PowMinusOne(d);
      Cancel(Geo(z, h));
    } else {
      RootSquare(t, sgn, m, k - 1);
      PowSquare(w, d / 2);
      Orthogonality(t, sgn, m, k - 1, d / 2);
      MulUnits(Pow(z, h));
      AddUnits(Zero);
    }
  }

  // ----- transforming a spectrum back

  /** The sum over k < n of x(w^k) w^(ke), where x(z) is the polynomial of x. */
  ghost function Weighted(x: seq<Cx>, w: Cx, e: nat, n: nat): Cx
  {
    if n == 0 then Zero
    else Add(Weighted(x, w, e, n - 1), Mul(Poly(x, Pow(w, n - 1)), Pow(w, (n - 1) * e)))
  }

  lemma {:induction false} WeightedEmpty(w: Cx, e: nat, n: nat)
    ensures Weighted([], w, e, n) == Zero
  {
    hide Mul, Add;
    if n > 0 {
      WeightedEmpty(w, e, n - 1);
      MulUnits(Pow(w, (n - 1) * e));
      AddUnits(Zero);
    }
  }

  /** Peeling off the first coefficient leaves a geometric sum. */
  lemma {:induction false} WeightedStep(x: seq<Cx>, w: Cx, e: nat, n: nat)
    requires |x| > 0
    ensures Weighted(x, w, e, n) == Add(Mul(x[0], Geo(Pow(w, e), n)), Weighted(x[1..], w, e + 1, n))
  {
    hide Mul, Add;
    if n == 0 {
      MulUnits(x[0]);
      AddUnits(Zero);
    } else {
      var k := n - 1;
      WeightedStep(x, w, e, k);
      PowOfPow(w, e, k);
      assert e * k == k * e && k * (e + 1) == k + k * e;
      PowAdd(w, k, k * e);
      PeelTerm(x[0], Geo(Pow(w, e), k), Weighted(x[1..], w, e + 1, k),
               Pow(w, k), Poly(x[1..], Pow(w, k)), Pow(w, k * e));
    }
  }

  lemma PeelTerm(c: Cx, g: Cx, v: Cx, z: Cx, p: Cx, q: Cx)
    ensures Add(Add(Mul(c, g), v), Mul(Add(c, Mul(z, p)), q))
         == Add(Mul(c, Add(g, q)), Add(v, Mul(p, Mul(z, q))))
  {
    hide Mul, Add;
    MulAdd(c, g, q);
    MulComm(Add(c, Mul(z, p)), q);
    MulAdd(q, c, Mul(z, p));
    MulComm(q, c);
    MulComm(q, Mul(z, p));
    MulComm(z, p);
    MulAssoc(p, z, q);
    AddSwap(Mul(c, g), v, Mul(c, q), Mul(p, Mul(z, q)));
  }

  lemma AddSwap(a: Cx, b: Cx, c: Cx, d: Cx)
    ensures Add(Add(a, b), Add(c, d)) == Add(Add(a, c), Add(b, d))
  {}

  /** Only the coefficient at distance e from n survives. */
  lemma {:induction false} WeightedValue(x: seq<Cx>, t: Sines, sgn: int, m: nat, e: nat)
    requires Lawful(t, m) && (sgn == 1 || sgn == -1)
    requires 0 < e && e + |x| <= 2 * Pow2(m)
    ensures Weighted(x, Root(t, sgn, m), e, Pow2(m))
         == if e <= Pow2(m) < e + |x| then Scale(Pow2(m) as real, x[Pow2(m) - e]) else Zero
    decreases |x|
  {
    hide Mul, Add, EntryLaw, HalvingLaw;
    var w, n := Root(t, sgn, m), Pow2(m);
    if |x| == 0 {
      assert x == [];
      WeightedEmpty(w, e, n);
    } else {
      WeightedStep(x, w, e, n);
      WeightedValue(x[1..], t, sgn, m, e + 1);
      GeoOfPower(t, sgn, m, e);
      MulUnits(x[0]);
      AddUnits(Zero);
      if e == n {
        MulReal(x[0], n as real);
        AddUnits(Scale(n as real, x[0]));
      } else if e < n < e + |x| {
        AddUnits(Scale(n as real, x[n - e]));
      }
    }
  }

  lemma MulReal(a: Cx, r: real)
    ensures Mul(a, Cx(r, 0.0)) == Scale(r, a)
  {}

  lemma GeoOfPower(t: Sines, sgn: int, m: nat, e: nat)
    requires Lawful(t, m) && (sgn == 1 || sgn == -1) && 0 < e < 2 * Pow2(m)
    ensures Geo(Pow(Root(t, sgn, m), e), Pow2(m)) == if e == Pow2(m) then Cx(Pow2(m) as real, 0.0) else Zero
  {
    hide Mul, Add, EntryLaw, HalvingLaw, Geo;
    var w, n := Root(t, sgn, m), Pow2(m);
    FullTurn(t, sgn, m, m);
    if e < n {
      Orthogonality(t, sgn, m, m, e);
    } else {
      PowAdd(w, n, e - n);
      MulUnits(Pow(w, e - n));
      if e == n {
        GeoOne(n);
      } else {
        Orthogonality(t, sgn, m, m, e - n);
      }
    }
  }

  /** The conjugate root's j-th power is the (n-j)-th power of the root. */
  lemma OppositePower(t: Sines, sgn: int, m: nat, j: nat)
    requires Lawful(t, m) && (sgn == 1 || sgn == -1) && j <= Pow2(m)
    ensures Pow(Root(t, -sgn, m), j) == Pow(Root(t, sgn, m), Pow2(m) - j)
  {
    hide Mul, EntryLaw, HalvingLaw;
    var w, v, e := Root(t, sgn, m), Root(t, -sgn, m), Pow2(m) - j;
    FullTurn(t, sgn, m, m);
    PowAdd(w, j, e);
    RootUnit(t, sgn, m, m);
    PowOfProduct(v, w, j);
    MulComm(v, w);
    PowOne(j);
    calc {
      Pow(v, j);
      { MulUnits(Pow(v, j)); }
      Mul(Pow(v, j), Mul(Pow(w, j), Pow(w, e)));
      { MulAssoc(Pow(v, j), Pow(w, j), Pow(w, e)); }
      Mul(One, Pow(w, e));
      { MulUnits(Pow(w, e)); }
      Pow(w, e);
    }
  }

  lemma {:induction false} BackTerms(x: seq<Cx>, t: Sines, sgn: int, m: nat, j: nat, p: nat)
    requires Lawful(t, m) && (sgn == 1 || sgn == -1)
    requires |x| == Pow2(m) && j < |x| && p <= |x|
    ensures Terms(Transform(x, Root(t, sgn, m)), Root(t, -sgn, m), j, p)
         == Weighted(x, Root(t, sgn, m), |x| - j, p)
  {
    hide Mul, Add, EntryLaw, HalvingLaw, Root;
    var w, v, e := Root(t, sgn, m), Root(t, -sgn, m), |x| - j;
    if p > 0 {
      BackTerms(x, t, sgn, m, j, p - 1);
      TransformAt(x, w, p - 1);
      OppositePower(t, sgn, m, j);
      PowOfPow(v, j, p - 1);
      PowOfPow(w, e, p - 1);
      assert e * (p - 1) == (p - 1) * e;
    }
  }

  /** Transforming forward and then with the opposite root multiplies every element by n. */
  lemma TransformInverse(x: seq<Cx>, t: Sines, sgn: int, m: nat)
    requires Lawful(t, m) && (sgn == 1 || sgn == -1) && |x| == Pow2(m)
    ensures Transform(Transform(x, Root(t, sgn, m)), Root(t, -sgn, m)) == Scaled(|x| as real, x)
  {
    hide Mul, Add, EntryLaw, HalvingLaw, Root, Scale;
    var back, scaled := Transform(Transform(x, Root(t, sgn, m)), Root(t, -sgn, m)), Scaled(|x| as real, x);
    forall j | 0 <= j < |x|
      ensures back[j] == scaled[j]
    {
      BackTerms(x, t, sgn, m, j, |x|);
      WeightedValue(x, t, sgn, m, |x| - j);
    }
  }
}
