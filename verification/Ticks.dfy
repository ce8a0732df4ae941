/** The powers of ten, tick positions and tick kinds the axis generators work with. */
module Ticks {
  import opened Arithmetic

  const P_SIZE := 77

  /** The table p of the powers of ten from 1e-38 to 1e38. */
  function P(k: nat): (r: real)
    ensures r > 0.0
  {
    if k == 0 then 0.00000000000000000000000000000000000001 else 10.0 * P(k - 1)
  }

  lemma PStep(k: nat)
    ensures P(k + 1) == 10.0 * P(k)
  {}

  lemma {:induction false} PMono(a: nat, b: nat)
    requires a < b
    ensures P(a) < P(b)
  {
    if a + 1 < b { PMono(a, b - 1); }
  }

  // ----- powers of ten apart from the table

  /** x * 10^k */
  function Shifted(x: real, k: nat): real { x * Ten(k) as real }

  /** x is 10^k or 10^-k. */
  ghost predicate PowerOfTen(x: real)
  {
    exists k: nat :: x == Ten(k) as real || Shifted(x, k) == 1.0
  }

  lemma {:induction false} TableScaled(a: nat, k: nat)
    ensures P(a + k) == P(a) * Ten(k) as real
  {
    hide P;
    if k > 0 {
      TableScaled(a, k - 1);
      PStep(a + (k - 1));
    }
  }

  lemma TableOne()
    ensures P(38) == 1.0
  {
    hide Ten;
    TableScaled(0, 38);
    assert Ten(38) == 100_000_000_000_000_000_000_000_000_000_000_000_000 by {
      TenAdd(19, 19);
      TenNineteen();
    }
    FirstEntry();
  }

  lemma TenNineteen()
    ensures Ten(19) == 10_000_000_000_000_000_000
  {
    assert Ten(10) == 10_000_000_000;
  }

  lemma FirstEntry()
    ensures P(0) == 0.00000_00000_00000_00000_00000_00000_00000_001
  {}

  /** The table holds the powers of ten from 10^-38 on. */
  lemma TableTens(k: nat)
    ensures P(38 + k) == Ten(k) as real
    ensures k <= 38 ==> Shifted(P(38 - k), k) == 1.0
  {
    hide P, Ten, Shifted;
    TableOne();
    TableScaled(38, k);
    if k <= 38 { TableShifted(38 - k, k); }
  }

  lemma TableShifted(a: nat, k: nat)
    ensures Shifted(P(a), k) == P(a + k)
  {
    hide P, Ten;
    TableScaled(a, k);
  }

  lemma TimesMono(a: real, b: real, c: real)
    requires c > 0.0
    ensures a < b <==> a * c < b * c
    ensures a == b <==> a * c == b * c
  {}

  /** A power of ten that is not in the table lies below it by a factor of ten. */
  lemma BelowTable(x: real, k: nat)
    requires Shifted(x, k) == 1.0 && 38 < k
    ensures 10.0 * x <= P(0)
  {
    hide P, Ten;
    TableTens(38);
    TenMono(38, k);
    var m := Ten(38) as real;
    assert x > 0.0 by { TimesMono(0.0, x, Ten(k) as real); }
    assert x * (10.0 * m) <= 1.0 by { if 10.0 * m < Ten(k) as real { TimesMono(10.0 * m, Ten(k) as real, x); } }
    TimesMono(P(0), 10.0 * x, m);
  }

  /** From its first entry on, the powers of ten are the entries of the table. */
  lemma TablePowers(x: real)
    requires P(0) <= x
    ensures PowerOfTen(x) <==> exists k: nat :: x == P(k)
  {
    hide PowerOfTen, P;
    if k: nat :| x == P(k) { EntryIsPower(k); }
    if PowerOfTen(x) {
      var k := PowerIsEntry(x);
    }
  }

  lemma EntryIsPower(k: nat)
    ensures PowerOfTen(P(k))
  {
    hide P, Ten;
    if 38 <= k { TableTens(k - 38); } else { TableTens(38 - k); }
  }

  lemma PowerIsEntry(x: real) returns (e: nat)
    requires P(0) <= x && PowerOfTen(x)
    ensures x == P(e)
  {
    hide P, Ten;
    var k: nat :| x == Ten(k) as real || Shifted(x, k) == 1.0;
    TableTens(k);
    if x == Ten(k) as real {
      e := 38 + k;
    } else if k <= 38 {
      TimesMono(x, P(38 - k), Ten(k) as real);
      e := 38 - k;
    } else {
      assert P(0) > 0.0;
      BelowTable(x, k);
      assert false;
    }
  }

  datatype Kind = Major | Middle | Minor

  datatype Tick = Tick(at: real, kind: Kind)

  /** Equality of doubles up to e. */
  predicate Near(x: real, y: real, e: real) { !(x < y - e || x > y + e) }

  /** The kind of the k-th multiple of the minor step, with n minor steps to a major one. */
  function KindOf(k: int, n: nat): Kind
    requires n > 0
  {
    if k % n == 0 then Major else if n % 2 == 0 && k % n == n / 2 then Middle else Minor
  }

  /** The k-th multiple of the step d. */
  function At(k: int, d: real): real { (k as real) * d }

  lemma AtStep(k: int, d: real)
    ensures At(k + 1, d) == At(k, d) + d && At(k - 1, d) == At(k, d) - d && At(0, d) == 0.0
  {}

  lemma AtMono(a: int, b: int, d: real)
    requires a <= b && d > 0.0
    ensures At(a, d) <= At(b, d) && (a < b ==> At(a, d) + d <= At(b, d))
  {
    assert At(b, d) - At(a, d) == ((b - a) as real) * d;
    if a < b { assert ((b - a) as real) * d >= d; }
  }

  lemma AtOrder(a: int, b: int, d: real)
    requires d > 0.0
    ensures At(a, d) < At(b, d) <==> a < b
  {
    if a <= b { AtMono(a, b, d); } else { AtMono(b, a, d); }
  }

  /** Every position lies below some multiple of the step. */
  lemma Archimedes(x: real, d: real) returns (k: nat)
    requires d > 0.0
    ensures x < At(k, d)
  {
    var q := (x / d).Floor + 1;
    k := if q < 0 then 0 else q;
    assert x / d < k as real;
    assert x == (x / d) * d;
    assert (x / d) * d < (k as real) * d;
  }

  lemma AtMultiple(j: int, n: nat, d: real, p: real)
    requires p == At(n, d)
    ensures At(j * n, d) == At(j, p)
  {}

  /** A tick is major exactly when it is a multiple of the major step. */
  lemma MajorMeaning(k: int, n: nat, d: real)
    requires n > 0 && d > 0.0
    ensures KindOf(k, n) == Major <==> exists j :: At(j, At(n, d)) == At(k, d)
  {
    hide At;
    if KindOf(k, n) == Major {
      AtMultiple(k / n, n, d, At(n, d));
      assert (k / n) * n == k;
    }
    forall j | At(j, At(n, d)) == At(k, d)
      ensures k % n == 0
    {
      AtMultiple(j, n, d, At(n, d));
      AtOrder(j * n, k, d);
      AtOrder(k, j * n, d);
      DivModUnique(k, n, j, 0);
    }
  }

  /** With n minor steps to a major one, a tick is a middle one exactly when it lies halfway between two
      major ones. */
  lemma MiddleMeaning(k: int, n: nat, d: real)
    requires n > 0 && d > 0.0
    ensures KindOf(k, n) == Middle <==> exists j :: At(k, d) + At(k, d) == At(j, At(n, d)) + At(j + 1, At(n, d))
  {
    hide At, KindOf;
    if KindOf(k, n) == Middle {
      MiddleIndex(k, n, k / n);
      TwiceAt(k, k / n, n, d);
    }
    forall j | At(k, d) + At(k, d) == At(j, At(n, d)) + At(j + 1, At(n, d))
      ensures KindOf(k, n) == Middle
    {
      TwiceAt(k, j, n, d);
      MiddleIndex(k, n, j);
    }
  }

  lemma HalfStep(k: int, n: nat)
    requires n > 0 && k % n != 0
    ensures (2 * k) % n == 0 <==> n % 2 == 0 && k % n == n / 2
  {
    var q, r := k / n, k % n;
    assert 2 * k == (2 * q) * n + 2 * r;
    if 2 * r < n {
      DivModUnique(2 * k, n, 2 * q, 2 * r);
    } else {
      assert 2 * k == (2 * q + 1) * n + (2 * r - n);
      DivModUnique(2 * k, n, 2 * q + 1, 2 * r - n);
    }
  }

  lemma KindMeaning(k: int, n: nat)
    requires n > 0
    ensures KindOf(k, n) == if k % n == 0 then Major else if (2 * k) % n == 0 then Middle else Minor
  {
    if k % n != 0 { HalfStep(k, n); }
  }

  lemma MiddleIndex(k: int, n: nat, j: int)
    requires n > 0
    ensures KindOf(k, n) == Middle && j == k / n ==> k + k == j * n + (j + 1) * n
    ensures k + k == j * n + (j + 1) * n ==> KindOf(k, n) == Middle
  {
    assert (j + 1) * n == j * n + n;
    assert (k / n) * n + k % n == k;
    if k + k == j * n + (j + 1) * n {
      assert 2 * (k - j * n) == n;
      DivModUnique(k, n, j, k - j * n);
    }
  }

  lemma TwiceAt(k: int, j: int, n: nat, d: real)
    requires d > 0.0
    ensures At(k, d) + At(k, d) == At(j, At(n, d)) + At(j + 1, At(n, d)) <==> k + k == j * n + (j + 1) * n
  {
    hide At;
    var m := j * n + (j + 1) * n;
    AtMultiple(j, n, d, At(n, d));
    AtMultiple(j + 1, n, d, At(n, d));
    AtSum(k, k, d);
    AtSum(j * n, (j + 1) * n, d);
    AtOrder(k + k, m, d);
    AtOrder(m, k + k, d);
  }

  lemma AtSum(a: int, b: int, d: real)
    ensures At(a + b, d) == At(a, d) + At(b, d)
  {}

  /** The counter c of minor steps since the last major tick tells the kind. */
  lemma KindFromCount(k: int, n: nat, q: int, c: nat)
    requires n > 0 && k == q * n + c && 1 <= c <= n
    ensures KindOf(k, n) == if c == n then Major else if 2 * c == n then Middle else Minor
  {
    if c == n {
      DivModUnique(k, n, q + 1, 0);
    } else {
      DivModUnique(k, n, q, c);
    }
  }
}
