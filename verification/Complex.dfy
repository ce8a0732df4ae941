/** Complex numbers over exact reals, with the ring laws, powers and conjugation. */
module Complex {

  datatype Cx = Cx(re: real, im: real)

  const Zero := Cx(0.0, 0.0)
  const One := Cx(1.0, 0.0)
  const MinusOne := Cx(-1.0, 0.0)
  const ImagUnit := Cx(0.0, 1.0)

  function Add(a: Cx, b: Cx): Cx { Cx(a.re + b.re, a.im + b.im) }

  function Sub(a: Cx, b: Cx): Cx { Cx(a.re - b.re, a.im - b.im) }

  function Mul(a: Cx, b: Cx): Cx { Cx(a.re * b.re - a.im * b.im, a.re * b.im + a.im * b.re) }

  function Scale(r: real, a: Cx): Cx { Cx(r * a.re, r * a.im) }

  function Conj(a: Cx): Cx { Cx(a.re, -a.im) }

  function Pow(z: Cx, n: nat): Cx
  {
    if n == 0 then One else Mul(z, Pow(z, n - 1))
  }

  /** The complex sequence stored in two real sequences. */
  ghost function Packed(re: seq<real>, im: seq<real>): (r: seq<Cx>)
    requires |re| == |im|
    ensures |r| == |re|
  {
    seq(|re|, i requires 0 <= i < |re| => Cx(re[i], im[i]))
  }

  // ----- ring laws

  lemma MulComm(a: Cx, b: Cx)
    ensures Mul(a, b) == Mul(b, a)
  {}

  lemma MulAssoc(a: Cx, b: Cx, c: Cx)
    ensures Mul(Mul(a, b), c) == Mul(a, Mul(b, c))
  {}

  lemma MulAdd(a: Cx, b: Cx, c: Cx)
    ensures Mul(a, Add(b, c)) == Add(Mul(a, b), Mul(a, c))
  {}

  lemma MulUnits(a: Cx)
    ensures Mul(One, a) == a && Mul(a, One) == a
    ensures Mul(Zero, a) == Zero && Mul(a, Zero) == Zero
    ensures Mul(MinusOne, a) == Sub(Zero, a)
  {}

  lemma AddAssoc(a: Cx, b: Cx, c: Cx)
    ensures Add(Add(a, b), c) == Add(a, Add(b, c))
  {}

  lemma AddUnits(a: Cx)
    ensures Add(Zero, a) == a && Add(a, Zero) == a
  {}

  /** (ab)(cd) == (ac)(bd) */
  lemma MulSwap(a: Cx, b: Cx, c: Cx, d: Cx)
    ensures Mul(Mul(a, b), Mul(c, d)) == Mul(Mul(a, c), Mul(b, d))
  {
    hide Mul;
    calc {
      Mul(Mul(a, b), Mul(c, d));
      { MulAssoc(a, b, Mul(c, d)); }
      Mul(a, Mul(b, Mul(c, d)));
      { MulAssoc(b, c, d); MulComm(b, c); MulAssoc(c, b, d); }
      Mul(a, Mul(c, Mul(b, d)));
      { MulAssoc(a, c, Mul(b, d)); }
      Mul(Mul(a, c), Mul(b, d));
    }
  }

  lemma ConjMul(a: Cx, b: Cx)
    ensures Conj(Mul(a, b)) == Mul(Conj(a), Conj(b))
  {}

  // ----- powers

  lemma PowFirst(z: Cx)
    ensures Pow(z, 1) == z
  {
    hide Mul;
    assert Pow(z, 1) == Mul(z, Pow(z, 0));
    MulUnits(z);
  }

  lemma {:induction false} PowAdd(z: Cx, a: nat, b: nat)
    ensures Pow(z, a + b) == Mul(Pow(z, a), Pow(z, b))
  {
    hide Mul;
    if a == 0 {
      MulUnits(Pow(z, b));
    } else {
      PowAdd(z, a - 1, b);
      MulAssoc(z, Pow(z, a - 1), Pow(z, b));
    }
  }

  lemma {:induction false} PowOfProduct(a: Cx, b: Cx, n: nat)
    ensures Pow(Mul(a, b), n) == Mul(Pow(a, n), Pow(b, n))
  {
    hide Mul;
    if n > 0 {
      PowOfProduct(a, b, n - 1);
      MulSwap(a, b, Pow(a, n - 1), Pow(b, n - 1));
    } else {
      MulUnits(One);
    }
  }

  lemma {:induction false} PowOne(n: nat)
    ensures Pow(One, n) == One
  {
    hide Mul;
    if n > 0 {
      PowOne(n - 1);
      MulUnits(One);
    }
  }

  /** (z^2)^n == z^(2n) */
  lemma PowSquare(z: Cx, n: nat)
    ensures Pow(Mul(z, z), n) == Pow(z, 2 * n)
  {
    hide Mul;
    PowOfProduct(z, z, n);
    PowAdd(z, n, n);
  }

  lemma {:induction false} ConjPow(z: Cx, n: nat)
    ensures Conj(Pow(z, n)) == Pow(Conj(z), n)
  {
    hide Mul;
    if n > 0 {
      ConjPow(z, n - 1);
      ConjMul(z, Pow(z, n - 1));
    }
  }
}
