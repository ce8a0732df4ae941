/** What the axes are to show, in terms of numbers only: tick positions, kinds and spacing without the
    table of powers of ten and without the loops. */
module AxisMeaning {
  import opened Arithmetic
  import opened Ticks

  /** The window of a graph in true coordinates, and whether the axis is logarithmic. */
  datatype Graph = Graph(log: bool, min: real, max: real)

  /** The digit d followed by k zeros. */
  function Round(d: nat, k: nat): nat { d * Ten(k) }

  /** c is a digit from 2 to 9 followed by zeros. */
  ghost predicate OneDigit(c: nat)
  {
    exists d: nat, k: nat :: 2 <= d <= 9 && c == Round(d, k)
  }

  // ----- logarithmic axes

  /** x is d * 10^k or d * 10^-k, with a digit d from 1 to 9. */
  ghost predicate LogPosition(x: real)
  {
    (exists d: nat, k: nat :: 1 <= d <= 9 && x == Round(d, k) as real) || exists k: nat :: Numeral(Shifted(x, k))
  }

  /** y is 1, 2, ..., 9. */
  predicate Numeral(y: real) { 1.0 <= y <= 9.0 && y == y.Floor as real }

  /** Major ticks at the powers of ten, middle ticks at the other positions. */
  ghost function RightTick(x: real): Tick { Tick(x, if PowerOfTen(x) then Major else Middle) }

  /** The ticks are exactly the log positions after x0 and up to top, each with the right kind. */
  ghost predicate ShowsLog(inner: seq<Tick>, x0: real, top: real)
  {
    && (forall x :: LogPosition(x) && x0 < x <= top ==> RightTick(x) in inner)
    && (forall t :: t in inner ==> x0 < t.at <= top && LogPosition(t.at) && t == RightTick(t.at))
  }

  /** The ranges for which a logarithmic axis does so. */
  ghost predicate RangeFits(x0: real, top: real)
  {
    if Shifted(x0, 36) < 1.0 then forall x :: LogPosition(x) ==> !(x0 < x <= top)
    else Ten(39) as real <= x0 ==> forall c: nat :: x0 < Round(c, 38) as real <= top ==> OneDigit(c)
  }

  /** The greatest power of ten that is not above the start, but 10^-36 below it and 10^38 above the table. */
  ghost predicate StartPower(q: real, x0: real)
  {
    if Shifted(x0, 36) < 1.0 then Shifted(q, 36) == 1.0
    else if Ten(39) as real <= x0 then q == Ten(38) as real
    else PowerOfTen(q) && q <= x0 && forall r :: PowerOfTen(r) && r <= x0 ==> r <= q
  }

  // ----- linear axes

  /** The greatest power of ten below the length, but 10^-36 and 10^38 where the table ends. */
  ghost predicate SpacingPower(q: real, length: real)
  {
    if Shifted(length, 36) <= 1.0 then Shifted(q, 36) == 1.0
    else if Ten(39) as real < length then q == Ten(38) as real
    else PowerOfTen(q) && q < length && forall r :: PowerOfTen(r) && r < length ==> r <= q
  }

  /** The k-th multiple of q / n, with the kind it has when n minor steps make a major one. */
  ghost function Place(k: int, q: real, n: nat, offset: real): Tick
    requires n > 0
  {
    Tick((k as real) * (q / n as real) - offset,
         if k % n == 0 then Major else if (2 * k) % n == 0 then Middle else Minor)
  }

  /** The ticks are exactly the multiples of q / n inside the axis, up to q / 200 at its ends. */
  ghost predicate ShowsLinear(inner: seq<Tick>, x0: real, xn: real, offset: real, n: nat, q: real)
    requires n > 0
  {
    && (forall k :: x0 + q / 200.0 <= Place(k, q, n, offset).at <= xn + q / 200.0 ==> Place(k, q, n, offset) in inner)
    && (forall t :: t in inner ==> x0 - q / 200.0 < t.at <= xn + q / 200.0 && exists k :: t == Place(k, q, n, offset))
  }

  // ----- whole axes

  /** Major ticks at both ends, and between them all ticks of a linear axis, and those of a logarithmic
      one exactly when its range fits. */
  ghost predicate ShowsAxis(ticks: seq<Tick>, g: Graph, x0: real, xn: real, offset: real, n: nat)
    requires n > 0
  {
    && |ticks| >= 2 && ticks[0] == Tick(x0, Major) && ticks[|ticks| - 1] == Tick(xn, Major)
    && var inner := ticks[1..|ticks| - 1];
       if g.log then exists q :: StartPower(q, x0) && (ShowsLog(inner, x0, xn + q / 200.0) <==> RangeFits(x0, xn + q / 200.0))
       else exists q :: SpacingPower(q, xn - x0) && ShowsLinear(inner, x0, xn, offset, n, q)
  }

  /** Every index into the table of powers of ten is in range when it may begin at 10^-e: long enough
      linear axes; logarithmic ones that start late enough and do not step over 10^39. */
  ghost predicate InTable(g: Graph, x0: real, xn: real, e: nat)
  {
    if g.log then Shifted(x0, e) >= 1.0
                  && (Ten(39) as real <= x0 || forall q :: StartPower(q, x0) ==> xn + q / 200.0 < Ten(39) as real)
    else Shifted(xn - x0, e) > 1.0
  }
}
