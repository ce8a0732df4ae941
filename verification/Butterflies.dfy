/** The radix-2 decimation-in-time algorithm on values: bit reversal followed by butterfly
    stages, and the proof that it computes the discrete Fourier transform. */
module Butterflies {
  import opened Complex
  import opened Arithmetic
  import opened Bits
  import opened Roots
  import opened Dft

  // ----- the algorithm

  /** x permuted by bit reversal. */
  ghost function BitReversed(x: seq<Cx>, m: nat): (r: seq<Cx>)
    requires |x| == Pow2(m)
  {
    seq(|x|, i requires 0 <= i < |x| => RevBound(m, i); x[Rev(m, i)])
  }

  /** Element idx after the butterflies of half-size h with twiddle step w. */
  ghost function StageAt(a: seq<Cx>, h: nat, w: Cx, idx: nat): Cx
    requires h > 0 && idx < |a|
  {
    var r := idx % (2 * h);
    if r < h then
      if idx + h < |a| then Add(a[idx], Mul(Pow(w, r), a[idx + h])) else a[idx]
    else
      if h <= idx then Sub(a[idx - h], Mul(Pow(w, r - h), a[idx])) else a[idx]
  }

  ghost function Stage(a: seq<Cx>, h: nat, w: Cx): (r: seq<Cx>)
    requires h > 0
  {
    seq(|a|, idx requires 0 <= idx < |a| => StageAt(a, h, w, idx))
  }

  /** The array after bit reversal and the first k stages. */
  ghost function AfterStages(x: seq<Cx>, t: Sines, sgn: int, m: nat, k: nat): (r: seq<Cx>)
    requires |x| == Pow2(m) && k <= m <= |t.half| && m <= |t.full|
    ensures |r| == |x|
  {
    if k == 0 then BitReversed(x, m)
    else Stage(AfterStages(x, t, sgn, m, k - 1), Pow2(k - 1), Root(t, sgn, k))
  }

  // ----- decimation

  ghost function Decimate(x: seq<Cx>, c: nat): (r: seq<Cx>)
    requires c < 2
    ensures |r| == |x| / 2
  {
    seq(|x| / 2, i requires 0 <= i < |x| / 2 => x[2 * i + c])
  }

  /** A polynomial is its even part in z^2 plus z times its odd part in z^2. */
  lemma {:induction false} PolySplit(x: seq<Cx>, z: Cx)
    requires |x| % 2 == 0
    ensures Poly(x, z) == Add(Poly(Decimate(x, 0), Mul(z, z)), Mul(z, Poly(Decimate(x, 1), Mul(z, z))))
  {
    hide Mul, Add;
    if |x| == 0 {
      MulUnits(z);
      AddUnits(Zero);
    } else {
      var y := x[2..];
      PolySplit(y, z);
      assert x[1..][1..] == y;
      assert Decimate(x, 0)[1..] == Decimate(y, 0) && Decimate(x, 1)[1..] == Decimate(y, 1);
      SplitStep(x[0], x[1], z, Poly(Decimate(y, 0), Mul(z, z)), Poly(Decimate(y, 1), Mul(z, z)));
    }
  }

  lemma SplitStep(a: Cx, b: Cx, z: Cx, e: Cx, o: Cx)
    ensures Add(a, Mul(z, Add(b, Mul(z, Add(e, Mul(z, o))))))
         == Add(Add(a, Mul(Mul(z, z), e)), Mul(z, Add(b, Mul(Mul(z, z), o))))
  {
    hide Mul, Add;
    MulAdd(z, e, Mul(z, o));
    MulAssoc(z, z, o);
    MulAdd(z, b, Add(Mul(z, e), Mul(Mul(z, z), o)));
    MulAdd(z, Mul(z, e), Mul(Mul(z, z), o));
    MulAssoc(z, z, e);
    MulAdd(z, b, Mul(Mul(z, z), o));
    AddRotate(a, Mul(z, b), Mul(Mul(z, z), e), Mul(z, Mul(Mul(z, z), o)));
  }

  lemma AddRotate(a: Cx, b: Cx, c: Cx, d: Cx)
    ensures Add(a, Add(b, Add(c, d))) == Add(Add(a, c), Add(b, d))
  {}

  /** The subsequence of x transformed by block b of size 2^k: x itself at the top, then the
      even elements for the left child and the odd ones for the right child. */
  ghost function Branch(x: seq<Cx>, m: nat, k: nat, b: nat): (r: seq<Cx>)
    requires |x| == Pow2(m) && k <= m
    ensures |r| == Pow2(k)
    decreases m - k
  {
    if k == m then x else Decimate(Branch(x, m, k + 1, b / 2), b % 2)
  }

  /** A branch takes every 2^(m-k)-th element of x, starting at the bit reversal of its block. */
  lemma {:induction false} BranchAt(x: seq<Cx>, m: nat, k: nat, b: nat, i: nat)
    requires |x| == Pow2(m) && k <= m && b < Pow2(m - k) && i < Pow2(k)
    ensures var at := i * Pow2(m - k) + Rev(m - k, b);
            at < |x| && Branch(x, m, k, b)[i] == x[at]
    decreases m - k
  {
    if k == m {
      assert i * Pow2(0) == i;
    } else {
      BranchAt(x, m, k + 1, b / 2, 2 * i + b % 2);
      StrideStep(i, Pow2(m - k - 1), b % 2);
    }
  }

  lemma StrideStep(i: nat, p: nat, c: nat)
    requires c < 2
    ensures (2 * i + c) * p == i * (2 * p) + (if c == 1 then p else 0)
  {}

  // ----- correctness of the stages

  /** What element s of block b holds after k stages. */
  ghost function BlockValue(x: seq<Cx>, t: Sines, sgn: int, m: nat, k: nat, b: nat, s: nat): Cx
    requires |x| == Pow2(m) && k <= m <= |t.half| && m <= |t.full|
  {
    Poly(Branch(x, m, k, b), Pow(Root(t, sgn, k), s))
  }

  /** The upper and the lower output of a butterfly. */
  lemma ButterflyValues(x: seq<Cx>, t: Sines, sgn: int, m: nat, k: nat, b: nat, s: nat)
    requires |x| == Pow2(m) && k < m && Lawful(t, m) && (sgn == 1 || sgn == -1)
    ensures var e, o := BlockValue(x, t, sgn, m, k, 2 * b, s), BlockValue(x, t, sgn, m, k, 2 * b + 1, s);
            var u := Mul(Pow(Root(t, sgn, k + 1), s), o);
            && BlockValue(x, t, sgn, m, k + 1, b, s) == Add(e, u)
            && BlockValue(x, t, sgn, m, k + 1, b, s + Pow2(k)) == Sub(e, u)
  {
    hide Mul, Add, Sub;
    var w, parent := Root(t, sgn, k + 1), Branch(x, m, k + 1, b);
    var z := Pow(w, s);
    var even, odd := Branch(x, m, k, 2 * b), Branch(x, m, k, 2 * b + 1);
    assert even == Decimate(parent, 0) && odd == Decimate(parent, 1);
    RootSquare(t, sgn, m, k);
    PowOfProduct(w, w, s);
    PolySplit(parent, z);
    HalfTurn(t, sgn, m, k + 1);
    PowAdd(w, s, Pow2(k));
    var z2 := Pow(w, s + Pow2(k));
    PolySplit(parent, z2);
    Opposite(z, Poly(odd, Mul(z, z)), Poly(even, Mul(z, z)));
  }

  lemma Opposite(z: Cx, o: Cx, e: Cx)
    ensures var n := Mul(z, MinusOne);
            Mul(n, n) == Mul(z, z) && Add(e, Mul(n, o)) == Sub(e, Mul(z, o))
  {}

  /** Index of element s of block b, for blocks of size h. */
  function Slot(b: nat, h: nat, s: nat): nat { b * h + s }

  lemma SlotShift(b: nat, h: nat, s: nat, d: nat)
    ensures Slot(b, h, s) + d == Slot(b, h, s + d)
    ensures Slot(b, 1, 0) == b
  {}

  /** The stage invariant: block b of size 2^k holds the transform of its branch. */
  lemma {:induction false} StageInvariant(x: seq<Cx>, t: Sines, sgn: int, m: nat, k: nat, b: nat, s: nat)
    requires |x| == Pow2(m) && k <= m && Lawful(t, m) && (sgn == 1 || sgn == -1)
    requires b < Pow2(m - k) && s < Pow2(k)
    ensures var i := Slot(b, Pow2(k), s);
            i < |x| && AfterStages(x, t, sgn, m, k)[i] == BlockValue(x, t, sgn, m, k, b, s)
    decreases k, 1
  {
    hide Mul, Add, Sub, Slot, EntryLaw, HalvingLaw, Branch, Poly, Stage, BitReversed;
    if k == 0 {
      SlotShift(b, 1, 0, 0);
      LeafValue(x, m, b);
      assert Pow(Root(t, sgn, 0), 0) == One;
    } else if s < Pow2(k - 1) {
      StageStep(x, t, sgn, m, k - 1, b, s);
    } else {
      StageStep(x, t, sgn, m, k - 1, b, s - Pow2(k - 1));
      SlotShift(b, Pow2(k), s - Pow2(k - 1), Pow2(k - 1));
    }
  }

  lemma LeafValue(x: seq<Cx>, m: nat, idx: nat)
    requires |x| == Pow2(m) && idx < |x|
    ensures BitReversed(x, m)[idx] == Poly(Branch(x, m, 0, idx), One)
  {
    hide Mul, Add, Sub;
    BranchAt(x, m, 0, idx, 0);
    assert 0 * Pow2(m) == 0;
    RevBound(m, idx);
    PolySingle(Branch(x, m, 0, idx), One);
  }

  lemma PolySingle(x: seq<Cx>, z: Cx)
    requires |x| == 1
    ensures Poly(x, z) == x[0]
  {
    hide Mul, Add;
    assert x[1..] == [];
    MulUnits(z);
    AddUnits(x[0]);
  }

  lemma {:induction false} StageStep(x: seq<Cx>, t: Sines, sgn: int, m: nat, k: nat, b: nat, s: nat)
    requires |x| == Pow2(m) && k < m && Lawful(t, m) && (sgn == 1 || sgn == -1)
    requires b < Pow2(m - k - 1) && s < Pow2(k)
    ensures var lo, h, r := Slot(b, Pow2(k + 1), s), Pow2(k), AfterStages(x, t, sgn, m, k + 1);
            && lo + h < |x|
            && r[lo] == BlockValue(x, t, sgn, m, k + 1, b, s)
            && r[lo + h] == BlockValue(x, t, sgn, m, k + 1, b, s + h)
    decreases k + 1, 0
  {
    hide Mul, Add, Sub, Slot, EntryLaw, HalvingLaw, Root, BlockValue, Stage, BitReversed;
    var h, a := Pow2(k), AfterStages(x, t, sgn, m, k);
    var lo := Slot(b, 2 * h, s);
    HalfSlots(b, h, s);
    StageInvariant(x, t, sgn, m, k, 2 * b, s);
    StageInvariant(x, t, sgn, m, k, 2 * b + 1, s);
    StagePair(a, h, Root(t, sgn, k + 1), lo, s);
    ButterflyValues(x, t, sgn, m, k, b, s);
  }

  /** Two consecutive blocks of size h make up one block of size 2h. */
  lemma HalfSlots(b: nat, h: nat, s: nat)
    requires s < h
    ensures var lo := Slot(b, 2 * h, s);
            && lo == Slot(2 * b, h, s) && lo + h == Slot(2 * b + 1, h, s)
            && lo % (2 * h) == s && (lo + h) % (2 * h) == s + h
  {
    assert b * (2 * h) == (2 * b) * h && (2 * b + 1) * h == (2 * b) * h + h;
    DivModUnique(Slot(b, 2 * h, s), 2 * h, b, s);
    DivModUnique(Slot(b, 2 * h, s) + h, 2 * h, b, s + h);
  }

  /** Both outputs of the butterfly on elements lo and lo + h. */
  lemma StagePair(a: seq<Cx>, h: nat, w: Cx, lo: nat, s: nat)
    requires s < h && lo + h < |a| && lo % (2 * h) == s && (lo + h) % (2 * h) == s + h
    ensures var u := Mul(Pow(w, s), a[lo + h]);
            Stage(a, h, w)[lo] == Add(a[lo], u) && Stage(a, h, w)[lo + h] == Sub(a[lo], u)
  {}

  lemma {:induction false} Pow2Product(a: nat, b: nat)
    ensures Pow2(a + b) == Pow2(b) * Pow2(a)
  {
    if b > 0 { Pow2Product(a, b - 1); }
  }

  /** The algorithm computes the discrete Fourier transform. */
  lemma StagesCompute(x: seq<Cx>, t: Sines, sgn: int, m: nat)
    requires |x| == Pow2(m) && Lawful(t, m) && (sgn == 1 || sgn == -1)
    ensures AfterStages(x, t, sgn, m, m) == Transform(x, Root(t, sgn, m))
  {
    hide Mul, Add, Sub;
    forall i | 0 <= i < |x|
      ensures AfterStages(x, t, sgn, m, m)[i] == Transform(x, Root(t, sgn, m))[i]
    {
      StageInvariant(x, t, sgn, m, m, 0, i);
      TransformAt(x, Root(t, sgn, m), i);
    }
  }
}
