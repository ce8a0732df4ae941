/** The discrete Fourier transform as a sum, and its value by polynomial evaluation. */
module Dft {
  import opened Complex

  /** The first n terms of the DFT sum at frequency k: x[0] + x[1] w^k + x[2] w^2k + ... */
  ghost function Terms(x: seq<Cx>, w: Cx, k: nat, n: nat): Cx
    requires n <= |x|
  {
    if n == 0 then Zero else Add(Terms(x, w, k, n - 1), Mul(x[n - 1], Pow(w, k * (n - 1))))
  }

  /** The discrete Fourier transform of x with respect to the root w. */
  ghost function Transform(x: seq<Cx>, w: Cx): (y: seq<Cx>)
    ensures |y| == |x|
  {
    seq(|x|, k requires 0 <= k < |x| => Terms(x, w, k, |x|))
  }

  /** x[0] + x[1] z + x[2] z^2 + ..., by Horner's rule. */
  ghost function Poly(x: seq<Cx>, z: Cx): Cx
  {
    if |x| == 0 then Zero else Add(x[0], Mul(z, Poly(x[1..], z)))
  }

  lemma {:induction false} PowOfPow(w: Cx, k: nat, n: nat)
    ensures Pow(w, k * n) == Pow(Pow(w, k), n)
  {
    hide Mul;
    if n > 0 {
      PowOfPow(w, k, n - 1);
      calc {
        Pow(w, k * n);
        { assert k * n == k + k * (n - 1); }
        Pow(w, k + k * (n - 1));
        { PowAdd(w, k, k * (n - 1)); }
        Mul(Pow(w, k), Pow(w, k * (n - 1)));
        Pow(Pow(w, k), n);
      }
    } else {
      assert k * n == 0;
    }
  }

  lemma {:induction false} PolySnoc(x: seq<Cx>, c: Cx, z: Cx)
    ensures Poly(x + [c], z) == Add(Poly(x, z), Mul(c, Pow(z, |x|)))
  {
    hide Mul, Add;
    if |x| == 0 {
      assert x + [c] == [c] && [c][1..] == [];
      MulUnits(z);
      MulUnits(c);
      AddUnits(c);
    } else {
      assert (x + [c])[1..] == x[1..] + [c];
      PolySnoc(x[1..], c, z);
      PolyStep(x[0], z, Poly(x[1..], z), c, Pow(z, |x| - 1));
    }
  }

  lemma PolyStep(a: Cx, z: Cx, p: Cx, c: Cx, q: Cx)
    ensures Add(a, Mul(z, Add(p, Mul(c, q)))) == Add(Add(a, Mul(z, p)), Mul(c, Mul(z, q)))
  {
    hide Mul, Add;
    MulAdd(z, p, Mul(c, q));
    MulAssoc(z, c, q);
    MulComm(z, c);
    MulAssoc(c, z, q);
    AddAssoc(a, Mul(z, p), Mul(c, Mul(z, q)));
  }

  /** The DFT sum at frequency k is the polynomial of x at w^k. */
  lemma {:induction false} TermsIsPoly(x: seq<Cx>, w: Cx, k: nat, n: nat)
    requires n <= |x|
    ensures Terms(x, w, k, n) == Poly(x[..n], Pow(w, k))
  {
    hide Mul, Add;
    if n > 0 {
      TermsIsPoly(x, w, k, n - 1);
      assert x[..n] == x[..n - 1] + [x[n - 1]];
      PolySnoc(x[..n - 1], x[n - 1], Pow(w, k));
      PowOfPow(w, k, n - 1);
    }
  }

  lemma TransformAt(x: seq<Cx>, w: Cx, k: nat)
    requires k < |x|
    ensures Transform(x, w)[k] == Poly(x, Pow(w, k))
  {
    hide Mul, Add;
    TermsIsPoly(x, w, k, |x|);
    assert x[..|x|] == x;
  }
}
