/** The sine tables of the transforms and the roots of unity they encode. */
module Roots {
  import opened Complex
  import opened Bits

  /** half[k] stands for sin(a/2) and full[k] for sin(a), where a = pi/2^k. */
  datatype Sines = Sines(half: seq<real>, full: seq<real>)

  /** cos(a) == 1 - 2 sin(a/2)^2 */
  function Cosine(t: Sines, k: nat): real
    requires k < |t.half|
  {
    1.0 - 2.0 * t.half[k] * t.half[k]
  }

  /** Laws of one entry: the angle pi/2^k lies in [0, pi], and in [0, pi/2] for k > 0. */
  ghost predicate EntryLaw(t: Sines, k: nat)
    requires k < |t.half| && k < |t.full|
  {
    && 0.0 <= t.half[k] && 0.0 <= t.full[k]
    && Cosine(t, k) * Cosine(t, k) + t.full[k] * t.full[k] == 1.0
    && if k == 0 then Cosine(t, 0) == -1.0 else 0.0 <= Cosine(t, k)
  }

  /** Double angle laws between entry k and entry k + 1, whose angle is half as large. */
  ghost predicate HalvingLaw(t: Sines, k: nat)
    requires k + 1 < |t.half| && k + 1 < |t.full|
  {
    && Cosine(t, k + 1) * Cosine(t, k + 1) - t.full[k + 1] * t.full[k + 1] == Cosine(t, k)
    && 2.0 * Cosine(t, k + 1) * t.full[k + 1] == t.full[k]
  }

  /** The first m entries are sines of pi/2^k. */
  ghost predicate Lawful(t: Sines, m: nat)
  {
    && m <= |t.half| && m <= |t.full|
    && (forall k {:trigger EntryLaw(t, k)} :: 0 <= k < m ==> EntryLaw(t, k))
    && (forall k {:trigger HalvingLaw(t, k)} :: 0 <= k < m - 1 ==> HalvingLaw(t, k))
  }

  /** The sine of sgn * a, given the sine of a. */
  function Signed(sgn: int, v: real): real { if sgn < 0 then -v else v }

  /** The root of unity e^(sgn*2*pi*i/2^level). */
  function Root(t: Sines, sgn: int, level: nat): Cx
    requires level <= |t.half| && level <= |t.full|
  {
    if level == 0 then One else Cx(Cosine(t, level - 1), Signed(sgn, t.full[level - 1]))
  }

  lemma ZeroProduct(a: real, b: real)
    requires a * b == 0.0 && b != 0.0
    ensures a == 0.0
  {}

  lemma SquareInjective(a: real, b: real)
    requires 0.0 <= a && 0.0 <= b && a * a == b * b
    ensures a == b
  {
    assert (a - b) * (a + b) == 0.0;
    if a + b != 0.0 {
      ZeroProduct(a - b, a + b);
    }
  }

  /** The laws leave no freedom: two lawful tables agree entry by entry. */
  lemma {:induction false} TablesUnique(t: Sines, u: Sines, m: nat, k: nat)
    requires Lawful(t, m) && Lawful(u, m) && k < m
    ensures t.half[k] == u.half[k] && t.full[k] == u.full[k]
  {
    assert EntryLaw(t, k) && EntryLaw(u, k);
    if k > 0 {
      TablesUnique(t, u, m, k - 1);
      assert HalvingLaw(t, k - 1) && HalvingLaw(u, k - 1);
      SquareInjective(Cosine(t, k), Cosine(u, k));
    }
    SquareInjective(t.full[k], u.full[k]);
    SquareInjective(t.half[k], u.half[k]);
  }

  lemma DoubleAngle(sgn: int, c: real, s: real, c2: real, s2: real)
    requires c * c - s * s == c2 && 2.0 * c * s == s2
    ensures Mul(Cx(c, Signed(sgn, s)), Cx(c, Signed(sgn, s))) == Cx(c2, Signed(sgn, s2))
  {}

  /** A lawful table can be extended whenever the square roots the next entry consists of exist. */
  lemma Extend(t: Sines, m: nat, c: real, s: real, h: real)
    requires 0 < m == |t.half| == |t.full| && Lawful(t, m)
    requires 0.0 <= c && 0.0 <= s && 0.0 <= h
    requires 2.0 * (c * c) == 1.0 + Cosine(t, m - 1) && 2.0 * (s * s) == 1.0 - Cosine(t, m - 1)
    requires 2.0 * (h * h) == 1.0 - c
    ensures Lawful(Sines(t.half + [h], t.full + [s]), m + 1)
  {
    hide Cosine, EntryLaw, HalvingLaw;
    var u := Sines(t.half + [h], t.full + [s]);
    NewEntry(t, u, m, c, s, h);
    forall k | 0 <= k < m + 1
      ensures EntryLaw(u, k)
    {
      if k < m { OldEntry(t, u, k); }
    }
    forall k | 0 <= k < m
      ensures HalvingLaw(u, k)
    {
      if k < m - 1 { OldEntry(t, u, k); }
    }
  }

  lemma OldEntry(t: Sines, u: Sines, k: nat)
    requires k < |t.half| == |t.full| && t.half <= u.half && t.full <= u.full && EntryLaw(t, k)
    ensures EntryLaw(u, k)
    ensures k + 1 < |t.half| && HalvingLaw(t, k) ==> HalvingLaw(u, k)
  {
    assert u.half[k] == t.half[k] && u.full[k] == t.full[k];
  }

  lemma NewEntry(t: Sines, u: Sines, m: nat, c: real, s: real, h: real)
    requires 0 < m == |t.half| == |t.full| && Lawful(t, m)
    requires u == Sines(t.half + [h], t.full + [s]) && 0.0 <= c && 0.0 <= s && 0.0 <= h
    requires 2.0 * (c * c) == 1.0 + Cosine(t, m - 1) && 2.0 * (s * s) == 1.0 - Cosine(t, m - 1)
    requires 2.0 * (h * h) == 1.0 - c
    ensures EntryLaw(u, m) && HalvingLaw(u, m - 1)
  {
    assert EntryLaw(t, m - 1);
    assert Cosine(u, m) == c && Cosine(u, m - 1) == Cosine(t, m - 1);
    HalfAngle(c, s, Cosine(t, m - 1), t.full[m - 1]);
  }

  lemma HalfAngle(c: real, s: real, c2: real, s2: real)
    requires 0.0 <= c && 0.0 <= s && 0.0 <= s2 && c2 * c2 + s2 * s2 == 1.0
    requires 2.0 * (c * c) == 1.0 + c2 && 2.0 * (s * s) == 1.0 - c2
    ensures 2.0 * c * s == s2
  {
    var p := 2.0 * c * s;
    assert p * p == (2.0 * (c * c)) * (2.0 * (s * s));
    assert (1.0 + c2) * (1.0 - c2) == s2 * s2;
    SquareInjective(p, s2);
  }

  /** Each root is the square of the next. */
  lemma RootSquare(t: Sines, sgn: int, m: nat, k: nat)
    requires Lawful(t, m) && k < m && (sgn == 1 || sgn == -1)
    ensures Mul(Root(t, sgn, k + 1), Root(t, sgn, k + 1)) == Root(t, sgn, k)
  {
    if k == 0 {
      FirstRoots(t, sgn, m);
      assert Mul(MinusOne, MinusOne) == One;
    } else {
      assert HalvingLaw(t, k - 1);
      DoubleAngle(sgn, Cosine(t, k), t.full[k], Cosine(t, k - 1), t.full[k - 1]);
    }
  }

  /** A root and its conjugate are inverse to each other. */
  lemma RootUnit(t: Sines, sgn: int, m: nat, k: nat)
    requires Lawful(t, m) && k <= m && (sgn == 1 || sgn == -1)
    ensures Conj(Root(t, sgn, k)) == Root(t, -sgn, k)
    ensures Mul(Root(t, sgn, k), Root(t, -sgn, k)) == One
  {
    hide HalvingLaw, Cosine;
    if k > 0 {
      assert EntryLaw(t, k - 1);
      UnitCircle(sgn, Cosine(t, k - 1), t.full[k - 1]);
    } else {
      MulUnits(One);
    }
  }

  lemma UnitCircle(sgn: int, c: real, s: real)
    requires c * c + s * s == 1.0 && (sgn == 1 || sgn == -1)
    ensures Mul(Cx(c, Signed(sgn, s)), Cx(c, Signed(-sgn, s))) == One
    ensures Conj(Cx(c, Signed(sgn, s))) == Cx(c, Signed(-sgn, s))
  {}

  /** The root of level 1 is -1 and that of level 2 is +-i. */
  lemma FirstRoots(t: Sines, sgn: int, m: nat)
    requires Lawful(t, m) && (sgn == 1 || sgn == -1)
    ensures m >= 1 ==> Root(t, sgn, 1) == MinusOne
    ensures m >= 2 ==> Root(t, sgn, 2) == Cx(0.0, Signed(sgn, 1.0))
  {
    if m >= 1 {
      assert EntryLaw(t, 0);
      assert t.full[0] * t.full[0] == 0.0;
      SquareInjective(t.full[0], 0.0);
    }
    if m >= 2 {
      assert EntryLaw(t, 1) && HalvingLaw(t, 0);
      SquareInjective(t.full[1], 1.0);
      assert Cosine(t, 1) * Cosine(t, 1) == 0.0;
    }
  }

  /** The n-th root of level m, with n = 2^m, has order n: its n/2-th power is -1. */
  lemma {:induction false} HalfTurn(t: Sines, sgn: int, m: nat, k: nat)
    requires Lawful(t, m) && 0 < k <= m && (sgn == 1 || sgn == -1)
    ensures Pow(Root(t, sgn, k), Pow2(k - 1)) == MinusOne
  {
    var w := Root(t, sgn, k);
    if k == 1 {
      FirstRoots(t, sgn, m);
      assert Pow(w, 1) == Mul(w, Pow(w, 0));
      MulUnits(w);
    } else {
      RootSquare(t, sgn, m, k - 1);
      PowSquare(w, Pow2(k - 2));
      HalfTurn(t, sgn, m, k - 1);
    }
  }

  lemma FullTurn(t: Sines, sgn: int, m: nat, k: nat)
    requires Lawful(t, m) && k <= m && (sgn == 1 || sgn == -1)
    ensures Pow(Root(t, sgn, k), Pow2(k)) == One
  {
    var w := Root(t, sgn, k);
    if k == 0 {
      PowOne(1);
    } else {
      var h := Pow2(k - 1);
      calc {
        Pow(w, Pow2(k));
        { assert Pow2(k) == h + h; }
        Pow(w, h + h);
        { PowAdd(w, h, h); }
        Mul(Pow(w, h), Pow(w, h));
        { HalfTurn(t, sgn, m, k); }
        Mul(MinusOne, MinusOne);
        One;
      }
    }
  }
}
