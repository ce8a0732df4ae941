/** The tick generators of the x and the y axis. */
module Axes {
  import opened Arithmetic
  import opened Ticks
  import opened AxisMeaning

  // ----- linear axes

  /** The ticks k0, k0 + 1, ... with minor step d, n steps to a major tick, in offset coordinates. */
  ghost predicate Consecutive(inner: seq<Tick>, k0: int, d: real, n: nat, offset: real)
    requires n > 0
  {
    forall i :: 0 <= i < |inner| ==> inner[i].at == At(k0 + i, d) - offset && inner[i].kind == KindOf(k0 + i, n)
  }

  lemma ConsecutiveNext(inner: seq<Tick>, k0: int, d: real, n: nat, offset: real)
    requires n > 0 && Consecutive(inner, k0, d, n, offset)
    ensures Consecutive(inner + [Tick(At(k0 + |inner|, d) - offset, KindOf(k0 + |inner|, n))], k0, d, n, offset)
  {
    hide At, KindOf;
  }

  lemma ConsecutiveNothing(k0: int, d: real, n: nat, offset: real)
    requires n > 0
    ensures Consecutive([], k0, d, n, offset)
  {}

  /** inner is the run of ticks k0, k0 + 1, ... with minor step d, n steps to a major tick, in offset
      coordinates, that starts at the axis start x0 and reaches the axis end xn, up to eps. */
  ghost predicate LinearRun(inner: seq<Tick>, k0: int, d: real, n: nat, x0: real, xn: real, offset: real, eps: real)
    requires n > 0
  {
    && Consecutive(inner, k0, d, n, offset)
    && At(k0 - 1, d) - offset < x0 + eps && x0 - eps < At(k0, d) - offset
    && (|inner| > 0 ==> At(k0 + |inner| - 1, d) - offset <= xn + eps)
    && xn + eps < At(k0 + |inner|, d) - offset
  }

  /** The run for spacing power pwr, with n minor steps to a major one. */
  ghost predicate LinearAxis(inner: seq<Tick>, k0: int, pwr: nat, n: nat, x0: real, xn: real, offset: real)
    requires n > 0 && 2 <= pwr
  {
    LinearRun(inner, k0, P(pwr) / n as real, n, x0, xn, offset, 0.5 * P(pwr - 2))
  }

  /** The largest table entry below the axis length; -1 when the scan leaves the table. */
  method PickPower(length: real) returns (pwr: int)
    ensures -1 <= pwr < P_SIZE && (0 <= pwr <==> P(0) < length)
    ensures 0 <= pwr ==> P(pwr) < length && (pwr + 1 < P_SIZE ==> length <= P(pwr + 1))
  {
    hide P;
    pwr := 76;
    while pwr >= 0 && P(pwr) >= length
      invariant -1 <= pwr < P_SIZE && (pwr + 1 < P_SIZE ==> length <= P(pwr + 1))
      decreases pwr
    {
      pwr := pwr - 1;
    }
    if pwr > 0 { PMono(0, pwr); }
  }

  /** The j-th multiple of p is the first beyond x, away from zero. */
  ghost predicate Passes(j: int, x: real, p: real)
  {
    if x > 0.0 then At(j - 1, p) <= x < At(j, p) else At(j, p) < x <= At(j + 1, p)
  }

  /** Step by p away from zero until x is passed. */
  method Overshoot(x: real, p: real) returns (ptr: real)
    requires p > 0.0 && x != 0.0
    ensures exists j :: ptr == At(j, p) && Passes(j, x, p)
  {
    hide At;
    ghost var bound := Archimedes(if x > 0.0 then x else -x, p);
    ptr := 0.0;
    ghost var j: int := 0;
    AtStep(0, p);
    AtOrder(0, bound, p);
    while true
      invariant ptr == At(j, p)
      invariant if x > 0.0 then 0 <= j && At(j, p) <= x else j <= 0 && x <= At(j, p)
      decreases if x > 0.0 then bound - j else bound + j
    {
      AtStep(j, p);
      AtOrder(j, bound, p);
      Negated(j, p);
      AtOrder(-j, bound, p);
      if x > 0.0 {
        ptr, j := ptr + p, j + 1;
        if ptr > x { break; }
      } else {
        ptr, j := ptr - p, j - 1;
        if ptr < x { break; }
      }
    }
    AtStep(j, p);
    assert Passes(j, x, p);
  }

  lemma Negated(j: int, p: real)
    ensures At(-j, p) == -At(j, p)
  {}

  /** Minor tick k is c minor steps after major tick q. */
  predicate Counted(k: int, q: int, c: int, n: nat) { k == q * n + c && 1 <= c <= n }

  /** The first tick k: the one next to the start x, up to eps. */
  ghost predicate Starts(k: int, x: real, d: real, eps: real)
  {
    && x - eps < At(k, d) && At(k - 1, d) < x + eps
    && if x > 0.0 then x < At(k, d) else At(k - 1, d) < x
  }

  /** The first tick: overshoot the start by whole major steps, then come back by minor steps. cnt
      counts the minor steps from the last major tick. */
  method FirstTick(x: real, p: real, n: nat, d: real, eps: real) returns (ptr: real, cnt: real)
    requires n > 0 && d > 0.0 && p == At(n, d) && p > 0.0 && eps > 0.0
    ensures cnt == cnt.Floor as real
    ensures exists k, q :: ptr == At(k, d) && Counted(k, q, cnt.Floor, n) && Starts(k, x, d, eps)
  {
    hide At;
    ptr, cnt := 0.0, n as real;
    ghost var k, q, c := 0, -1, n;
    AtStep(0, d);
    if x != 0.0 {
      ptr := Overshoot(x, p);
      ghost var j :| ptr == At(j, p) && Passes(j, x, p);
      AtMultiple(j, n, d, p);
      if x > 0.0 {
        k, q := j * n, j - 1;
        AtMultiple(j - 1, n, d, p);
        while true
          invariant 1 <= c <= n && cnt == c as real && k == q * n + c && ptr == At(k, d)
          invariant c < n ==> x <= ptr - eps
          decreases c
        {
          AtStep(k, d);
          ptr, cnt, k, c := ptr - d, cnt - 1.0, k - 1, c - 1;
          if c == 0 { assert At(k, d) <= x; }
          if ptr - eps < x { break; }
        }
        AtStep(k, d);
        ptr, cnt, k, c := ptr + d, cnt + 1.0, k + 1, c + 1;
      } else {
        cnt := 0.0;
        k, q, c := j * n, j, 0;
        AtMultiple(j + 1, n, d, p);
        while true
          invariant 0 <= c < n && cnt == c as real && k == q * n + c && ptr == At(k, d)
          invariant ptr < x && (c > 0 ==> ptr + eps <= x)
          decreases n - c
        {
          AtStep(k, d);
          ptr, cnt, k, c := ptr + d, cnt + 1.0, k + 1, c + 1;
          if c == n { assert k == (j + 1) * n; }
          if ptr + eps > x { AtStep(k, d); break; }
        }
      }
    }
    assert c == cnt.Floor && Counted(k, q, cnt.Floor, n) && Starts(k, x, d, eps);
  }

  lemma CountedNext(k: int, q: int, c: int, n: nat)
    requires Counted(k, q, c, n)
    ensures 1 <= c <= n
    ensures if c == n then Counted(k + 1, q + 1, 1, n) else Counted(k + 1, q, c + 1, n)
  {
    assert (q + 1) * n == q * n + n;
  }

  /** The count of minor steps decides the kind of the tick. */
  lemma CountedKind(k: int, q: int, c: int, n: nat)
    requires Counted(k, q, c, n)
    ensures n > 0 && (Near(c as real, n as real, 0.1) <==> c == n)
    ensures KindOf(k, n) == if Near(c as real, n as real, 0.1) then Major
                            else if Near(c as real, n as real * 0.5, 0.1) then Middle else Minor
  {
    KindFromCount(k, n, q, c);
  }

  /** The ticks between the ends of a linear axis. */
  method LinearTicks(x0: real, xn: real, offset: real, pwr: nat, n: nat) returns (inner: seq<Tick>)
    requires 2 <= pwr < P_SIZE && n > 0
    ensures exists k0 :: LinearAxis(inner, k0, pwr, n, x0, xn, offset)
  {
    hide At, KindOf, P, Counted, Near, Consecutive;
    var divcon := P(pwr) / n as real;
    var eps := 0.5 * P(pwr - 2);
    StepSize(P(pwr), n);
    var ptr, cnt := FirstTick(x0 + offset, P(pwr), n, divcon, eps);
    ghost var k0: int, q: int :| ptr == At(k0, divcon) && Counted(k0, q, cnt.Floor, n) && Starts(k0, x0 + offset, divcon, eps);
    ghost var c: int := cnt.Floor;
    CountedNext(k0, q, c, n);
    ptr := ptr - offset;
    ghost var k: int := k0;
    inner := [];
    assert Consecutive(inner, k0, divcon, n, offset) by { ConsecutiveNothing(k0, divcon, n, offset); }
    ghost var bound := Archimedes(xn + eps + offset, divcon);
    while ptr <= xn + eps
      invariant |inner| == k - k0 >= 0
      invariant ptr == At(k, divcon) - offset && 1 <= c <= n && cnt == c as real && Counted(k, q, c, n)
      invariant Consecutive(inner, k0, divcon, n, offset)
      invariant |inner| > 0 ==> At(k - 1, divcon) - offset <= xn + eps
      decreases bound - k
    {
      AtOrder(k, bound, divcon);
      ConsecutiveNext(inner, k0, divcon, n, offset);
      CountedKind(k, q, c, n);
      CountedNext(k, q, c, n);
      AtStep(k, divcon);
      if Near(cnt, n as real, 0.1) {
        inner := inner + [Tick(ptr, Major)];
        cnt := 1.0;
        q, c := q + 1, 1;
      } else {
        if Near(cnt, n as real * 0.5, 0.1) {
          inner := inner + [Tick(ptr, Middle)];
        } else {
          inner := inner + [Tick(ptr, Minor)];
        }
        cnt := cnt + 1.0;
        c := c + 1;
      }
      ptr := ptr + divcon;
      k := k + 1;
      AtStep(k, divcon);
    }
    assert LinearAxis(inner, k0, pwr, n, x0, xn, offset);
  }

  lemma StepSize(p: real, n: nat)
    requires n > 0 && p > 0.0
    ensures p / n as real > 0.0 && p == At(n, p / n as real)
  {}

  // ----- what a linear run shows

  /** No multiple of the minor step inside the axis, eps away from its start, is skipped, and what
      is drawn lies inside the axis up to eps. */
  lemma LinearRunComplete(inner: seq<Tick>, k0: int, d: real, n: nat, x0: real, xn: real, offset: real, eps: real, k: int)
    requires n > 0 && d > 0.0 && LinearRun(inner, k0, d, n, x0, xn, offset, eps)
    ensures x0 + eps <= At(k, d) - offset <= xn + eps ==> k0 <= k < k0 + |inner|
    ensures k0 <= k < k0 + |inner| ==>
      x0 - eps < At(k, d) - offset <= xn + eps && inner[k - k0] == Tick(At(k, d) - offset, KindOf(k, n))
    ensures KindOf(k, n) == Major <==> exists j :: At(j, At(n, d)) == At(k, d)
  {
    hide At, KindOf;
    MajorMeaning(k, n, d);
    AtOrder(k0 - 1, k, d);
    AtOrder(k, k0 + |inner|, d);
    if k0 <= k < k0 + |inner| {
      AtMono(k0, k, d);
      AtMono(k, k0 + |inner| - 1, d);
      assert inner[k - k0].at == At(k0 + (k - k0), d) - offset;
    }
  }

  /** With fewer than 100 divisions and an axis of at most ten major steps, at most 10 n + 1 ticks. */
  lemma LinearRunShort(inner: seq<Tick>, k0: int, pwr: nat, n: nat, x0: real, xn: real, offset: real)
    requires 2 <= pwr && 0 < n < 100 && xn - x0 <= P(pwr + 1)
    requires LinearRun(inner, k0, P(pwr) / n as real, n, x0, xn, offset, 0.5 * P(pwr - 2))
    ensures |inner| <= 10 * n + 1
  {
    hide At, P, LinearRun;
    var d, m := P(pwr) / n as real, |inner| - 1;
    StepSize(P(pwr), n);
    PStep(pwr);
    PStep(pwr - 1);
    PStep(pwr - 2);
    if m >= 10 * n + 1 {
      RunLength(inner, k0, d, n, x0, xn, offset, 0.5 * P(pwr - 2));
      AtMono(10 * n + 1, m, d);
      AtTimesTen(n, d);
      AtMono(n, 99, d);
    }
  }

  lemma AtTimesTen(n: nat, d: real)
    ensures At(10 * n + 1, d) == 10.0 * At(n, d) + d && At(99, d) == 99.0 * d
  {}

  /** The distance between the first and the last tick. */
  lemma RunLength(inner: seq<Tick>, k0: int, d: real, n: nat, x0: real, xn: real, offset: real, eps: real)
    requires n > 0 && |inner| > 0 && LinearRun(inner, k0, d, n, x0, xn, offset, eps)
    ensures At(|inner| - 1, d) < xn - x0 + 2.0 * eps
  {
    assert At(k0 + |inner| - 1, d) - At(k0, d) == At(|inner| - 1, d);
  }

  // ----- logarithmic axes

  /** The i-th number of the form c * 10^k, c in 1..9, in increasing order. */
  function LogAt(i: nat): real { Digit(i % 9 + 1, i / 9) }

  lemma LogStep(i: nat)
    ensures LogAt(i + 1) == LogAt(i) + P(i / 9)
    ensures LogAt(i) < LogAt(i + 1)
  {
    hide P;
    var c, k := i % 9 + 1, i / 9;
    DigitStep(c, k);
    DigitStep(0, k + 1);
    if c == 9 {
      assert (i + 1) / 9 == k + 1 && (i + 1) % 9 == 0;
    } else {
      assert (i + 1) / 9 == k && (i + 1) % 9 == c;
    }
  }

  lemma {:induction false} LogMono(a: nat, b: nat)
    requires a < b
    ensures LogAt(a) < LogAt(b)
  {
    LogStep(b - 1);
    if a < b - 1 { LogMono(a, b - 1); }
  }

  /** What a logarithmic axis should show at position i: major ticks at the powers of ten, middle
      ticks at the other positions. */
  function LogTick(i: nat): Tick { Tick(LogAt(i), if i % 9 == 0 then Major else Middle) }

  /** Indices divisible by 9 are those of the powers of ten. */
  lemma LogMajor(i: nat)
    ensures i % 9 == 0 <==> PowerOfTen(LogAt(i))
  {
    hide P, LogAt, PowerOfTen;
    LogAbove(i);
    TablePowers(LogAt(i));
    if i % 9 == 0 { LogEntry(i / 9); }
    forall k: nat | LogAt(i) == P(k)
      ensures i == 9 * k
    {
      LogEntry(k);
      if i < 9 * k { LogMono(i, 9 * k); }
      if i > 9 * k { LogMono(9 * k, i); }
    }
  }

  lemma LogEntry(k: nat)
    ensures LogAt(9 * k) == P(k)
  {
    hide P, LogAt, Digit;
    LogIndex(k, 1);
    DigitStep(0, k);
  }

  lemma LogAbove(i: nat)
    ensures P(0) <= LogAt(i)
  {
    hide P, LogAt;
    LogEntry(0);
    if i > 0 { LogMono(0, i); }
  }

  /** From here on the loops only step by the last table entry. */
  predicate Beyond(x0: real) { P(P_SIZE) <= x0 }

  /** The positions the loop steps through: the log positions, and behind the table the multiples of
      its last entry. */
  function Pos(high: bool, i: nat): real { if high then Digit(i, P_SIZE - 1) else LogAt(i) }

  /** The first index the loop can start from: the one of table entry 2, or the first behind the table. */
  function Low(high: bool): nat { if high then 11 else 18 }

  /** What the loop draws there: table entry 2 and everything behind the table as a middle tick. */
  function Drawn(high: bool, i: nat): Tick
  {
    if high || i == Low(high) then Tick(Pos(high, i), Middle) else LogTick(i)
  }

  lemma PosMono(high: bool, a: nat, b: nat)
    requires a < b
    ensures Pos(high, a) < Pos(high, b)
  {
    hide P, LogAt;
    if high {
      AtOrder(a, b, P(P_SIZE - 1));
    } else {
      LogMono(a, b);
    }
  }

  lemma LowPositions()
    ensures LogAt(Low(false)) == P(2) && Pos(true, 10) == P(P_SIZE) == LogAt(9 * P_SIZE) && P(2) < P(P_SIZE)
  {
    hide P, LogAt, Digit;
    LogIndex(2, 1);
    LogIndex(P_SIZE, 1);
    DigitStep(0, 2);
    DigitStep(0, P_SIZE);
    DigitStep(9, P_SIZE - 1);
    PMono(2, P_SIZE);
  }

  /** inner is the run of ticks i0, i0 + 1, ... after x0 and up to top. */
  ghost predicate LogRun(inner: seq<Tick>, i0: nat, x0: real, top: real)
  {
    var high := Beyond(x0);
    && (forall i :: 0 <= i < |inner| ==> inner[i] == Drawn(high, i0 + i))
    && Low(high) <= i0 && x0 < Pos(high, i0) && (i0 > Low(high) ==> Pos(high, i0 - 1) <= x0)
    && (|inner| > 0 ==> Pos(high, i0 + |inner| - 1) <= top)
    && top < Pos(high, i0 + |inner|)
  }

  /** The run for an axis that starts in decade pwr. */
  ghost predicate LogAxis(inner: seq<Tick>, i0: nat, pwr: nat, x0: real, xn: real)
    requires 2 <= pwr
  {
    LogRun(inner, i0, x0, xn + 0.5 * P(pwr - 2))
  }

  /** The largest table entry that is not above x0; -1 when the scan leaves the table. */
  method PickDecade(x0: real) returns (pwr: int)
    ensures -1 <= pwr < P_SIZE && (0 <= pwr <==> P(0) <= x0)
    ensures 0 <= pwr ==> P(pwr) <= x0 && (pwr + 1 < P_SIZE ==> x0 < P(pwr + 1))
  {
    hide P;
    pwr := 76;
    while pwr >= 0 && P(pwr) > x0
      invariant -1 <= pwr < P_SIZE && (pwr + 1 < P_SIZE ==> x0 < P(pwr + 1))
      decreases pwr
    {
      pwr := pwr - 1;
    }
    if pwr > 0 { PMono(0, pwr); }
  }

  /** The decade of the start of a logarithmic axis: starts below table entry 2 count as there, those
      behind the table as in the last entry. */
  predicate Decade(x0: real, pwr: nat)
  {
    && 2 <= pwr < P_SIZE && P(0) <= x0
    && (P(pwr) <= x0 || pwr == 2) && (x0 < P(pwr + 1) || pwr == P_SIZE - 1)
  }

  /** The first log tick: step by the power of ten until x0 is passed. */
  method FirstLogTick(x0: real, pwr: nat) returns (ptr: real, cnt: real)
    requires 0.0 <= x0
    ensures 1.0 <= cnt && cnt == cnt.Floor as real && ptr == Digit(cnt.Floor, pwr)
    ensures Digit(cnt.Floor - 1, pwr) <= x0 < ptr
  {
    hide P, Digit;
    ptr, cnt := 0.0, 0.0;
    ghost var c: int := 0;
    ghost var bound := DigitBeyond(x0, pwr);
    DigitStep(0, pwr);
    while true
      invariant 0 <= c && cnt == c as real && ptr == Digit(c, pwr) && ptr <= x0
      decreases bound - c
    {
      DigitOrder(c, bound, pwr);
      DigitStep(c, pwr);
      cnt, ptr, c := cnt + 1.0, ptr + P(pwr), c + 1;
      if ptr > x0 { break; }
    }
    assert cnt.Floor == c;
  }

  /** c * 10^k, for table entry k */
  function Digit(c: nat, k: nat): real { At(c, P(k)) }

  lemma DigitStep(c: nat, k: nat)
    ensures Digit(c + 1, k) == Digit(c, k) + P(k)
    ensures Digit(0, k) == 0.0 && Digit(1, k) == P(k) && Digit(10, k) == P(k + 1)
  {}

  /** The ticks between the ends of a logarithmic axis; `off` when they are stepped out of the table. */
  method LogTicks(x0: real, xn: real, pwr0: nat) returns (inner: seq<Tick>, off: bool)
    requires Decade(x0, pwr0)
    ensures off <==> !Beyond(x0) && P(P_SIZE) <= xn + 0.5 * P(pwr0 - 2)
    ensures !off ==> exists i0: nat :: LogAxis(inner, i0, pwr0, x0, xn)
  {
    hide Pos, P, Digit, LogTick, Beyond, LogAt;
    var pwr, eps := pwr0, 0.5 * P(pwr0 - 2);
    var ptr, cnt := FirstLogTick(x0, pwr);
    ghost var c, high, top := cnt.Floor, Beyond(x0), xn + eps;
    ghost var i0 := StartIndex(x0, pwr, c);
    ghost var bound := LastIndex(high, top);
    ghost var i := i0;
    inner, off := [], false;
    while ptr <= xn + eps
      invariant |inner| == i - i0 >= 0
      invariant cnt == c as real && Steps(high, pwr, c, i) && ptr == Pos(high, i)
      invariant forall j :: 0 <= j < |inner| ==> inner[j] == Drawn(high, i0 + j)
      invariant |inner| > 0 ==> Pos(high, i - 1) <= top
      decreases bound - i
    {
      BelowLast(high, i, bound, top);
      NextLog(high, pwr, c, i);
      if cnt == 10.0 {
        inner := inner + [Tick(ptr, Major)];
        cnt := 1.0;
        pwr := pwr + 1;
        c := 1;
        if pwr == P_SIZE { return [], true; }
      } else {
        inner := inner + [Tick(ptr, Middle)];
      }
      ptr := ptr + P(pwr);
      cnt, c, i := cnt + 1.0, c + 1, i + 1;
    }
    TableTop(high, pwr, c, i, top);
    assert LogAxis(inner, i0, pwr0, x0, xn);
  }

  /** What the loop knows: tick i is c steps of table entry pwr; only table entry 2 is its single step. */
  ghost predicate Steps(high: bool, pwr: nat, c: nat, i: nat)
  {
    if high then pwr == P_SIZE - 1 && c == i && 11 <= c
    else 2 <= pwr < P_SIZE && 1 <= c <= 10 && i == 9 * pwr + (c - 1) && (c == 1 ==> i == Low(false))
  }

  lemma StartIndex(x0: real, pwr: nat, c: nat) returns (i0: nat)
    requires Decade(x0, pwr) && 1 <= c && Digit(c - 1, pwr) <= x0 < Digit(c, pwr)
    ensures Steps(Beyond(x0), pwr, c, i0) && Low(Beyond(x0)) <= i0 && Pos(Beyond(x0), i0) == Digit(c, pwr)
    ensures i0 > Low(Beyond(x0)) ==> Pos(Beyond(x0), i0 - 1) <= x0
  {
    hide P, Digit, LogAt;
    LowPositions();
    DigitStep(9, pwr);
    DigitStep(0, pwr);
    if Beyond(x0) {
      if pwr < P_SIZE - 1 && pwr + 1 < P_SIZE { PMono(pwr + 1, P_SIZE); }
      i0 := c;
      DigitOrder(c, 10, pwr);
    } else {
      i0 := 9 * pwr + (c - 1);
      DigitOrder(10, c - 1, pwr);
      DigitOrder(c - 1, 10, pwr);
      assert c <= 10;
      LogIndex(pwr, c);
      if c > 1 { LogIndex(pwr, c - 1); }
    }
  }

  lemma DigitBeyond(x: real, k: nat) returns (c: nat)
    ensures x < Digit(c, k)
  {
    c := Archimedes(x, P(k));
  }

  lemma DigitOrder(a: nat, b: nat, k: nat)
    ensures Digit(a, k) < Digit(b, k) <==> a < b
  {
    AtOrder(a, b, P(k));
  }

  /** An index that no tick up to top has. */
  lemma LastIndex(high: bool, top: real) returns (bound: nat)
    ensures if high then top < Pos(high, bound) else bound == 9 * P_SIZE + 1
  {
    if high { bound := DigitBeyond(top, P_SIZE - 1); } else { bound := 9 * P_SIZE + 1; }
  }

  lemma LogSplit(pwr: nat, c: nat)
    requires 1 <= c <= 10
    ensures var i := 9 * pwr + (c - 1);
      if c == 10 then i / 9 == pwr + 1 && i % 9 == 0 else i / 9 == pwr && i % 9 == c - 1
  {}

  lemma LogIndex(pwr: nat, c: nat)
    requires 1 <= c <= 10
    ensures LogAt(9 * pwr + (c - 1)) == Digit(c, pwr)
  {
    hide P;
    LogSplit(pwr, c);
    DigitStep(c, pwr);
  }

  /** One turn of the loop: what it draws, and where it goes. */
  lemma NextLog(high: bool, pwr: nat, c: nat, i: nat)
    requires Steps(high, pwr, c, i)
    ensures high ==> c != 10
    ensures Drawn(high, i) == Tick(Pos(high, i), if c == 10 then Major else Middle)
    ensures c == 10 && pwr + 1 == P_SIZE ==> Pos(high, i) == P(P_SIZE)
    ensures var next := if c == 10 then pwr + 1 else pwr;
      next < P_SIZE ==> Pos(high, i + 1) == Pos(high, i) + P(next) && Steps(high, next, if c == 10 then 2 else c + 1, i + 1)
  {
    hide P, LogAt, Digit;
    LowPositions();
    if high {
      DigitStep(i, P_SIZE - 1);
    } else {
      LogSplit(pwr, c);
      LogStep(i);
    }
  }

  lemma BelowLast(high: bool, i: nat, bound: nat, top: real)
    requires Pos(high, i) <= top && if high then top < Pos(high, bound) else i < bound
    ensures i < bound
  {
    hide Pos;
    if bound < i { PosMono(high, bound, i); }
  }

  /** As long as the loop has not left the table, its ticks end inside it. */
  lemma TableTop(high: bool, pwr: nat, c: nat, i: nat, top: real)
    requires Steps(high, pwr, c, i) && top < Pos(high, i)
    ensures !high ==> i <= 9 * P_SIZE && top < P(P_SIZE)
  {
    hide P, LogAt;
    LowPositions();
    if !high && i < 9 * P_SIZE { LogMono(i, 9 * P_SIZE); }
  }

  // ----- what a logarithmic run shows

  /** A run holds exactly the positions after x0 and up to top, from table entry 2 on. */
  lemma LogRunComplete(inner: seq<Tick>, i0: nat, x0: real, top: real, i: nat)
    requires LogRun(inner, i0, x0, top)
    ensures var high := Beyond(x0);
      && (Low(high) <= i && x0 < Pos(high, i) <= top <==> i0 <= i < i0 + |inner|)
      && (i0 <= i < i0 + |inner| ==> inner[i - i0] == Drawn(high, i))
  {
    hide Pos, Beyond, Drawn;
    var high, n := Beyond(x0), i0 + |inner|;
    if i < i0 - 1 { PosMono(high, i, i0 - 1); }
    if i0 < i { PosMono(high, i0, i); }
    if n < i { PosMono(high, n, i); }
    if |inner| > 0 && i < n - 1 { PosMono(high, i, n - 1); }
    if i0 <= i < n { assert inner[i - i0] == Drawn(high, i0 + (i - i0)); }
  }

  /** The ticks between the ends are exactly the log positions after x0 and up to top, each with the
      right kind. */
  ghost predicate LogComplete(inner: seq<Tick>, x0: real, top: real)
  {
    && (forall i: nat :: x0 < LogTick(i).at <= top ==> LogTick(i) in inner)
    && (forall t :: t in inner ==> x0 < t.at <= top && exists i: nat :: t == LogTick(i))
  }

  /** The axes a logarithmic run is right for. One that starts below table entry 2 must have no log
      position at all after its start. One that starts behind the table may only have such multiples
      of the last entry after it as consist of a digit from 2 to 9 and zeros. */
  ghost predicate LogFits(x0: real, top: real)
  {
    if x0 < P(2) then forall i: nat :: !(x0 < LogTick(i).at <= top)
    else Beyond(x0) ==> forall c: nat :: x0 < Pos(true, c) <= top ==> OneDigit(c)
  }

  /** A logarithmic run is complete exactly when the axis fits. */
  lemma LogCompleteExactly(inner: seq<Tick>, i0: nat, x0: real, top: real)
    requires LogRun(inner, i0, x0, top)
    ensures LogComplete(inner, x0, top) <==> LogFits(x0, top)
  {
    hide P, LogAt, Digit, LogComplete, LogFits, LogRun, Pos;
    LowPositions();
    if Beyond(x0) {
      BeyondExactly(inner, i0, x0, top);
    } else if x0 < P(2) {
      LowExactly(inner, i0, x0, top);
    } else {
      InsideComplete(inner, i0, x0, top);
    }
  }

  /** From table entry 2 on and not behind the table, every position is drawn right. */
  lemma InsideComplete(inner: seq<Tick>, i0: nat, x0: real, top: real)
    requires LogRun(inner, i0, x0, top) && P(2) <= x0 < P(P_SIZE)
    ensures LogComplete(inner, x0, top) && LogFits(x0, top)
  {
    hide P, LogAt, Digit, LogRun;
    LowPositions();
    forall i: nat | x0 < LogTick(i).at <= top
      ensures LogTick(i) in inner
    {
      if i < Low(false) { LogMono(i, Low(false)); }
      LogRunComplete(inner, i0, x0, top, i);
    }
    forall t | t in inner
      ensures x0 < t.at <= top && exists i: nat :: t == LogTick(i)
    {
      var m :| 0 <= m < |inner| && inner[m] == t;
      LogRunComplete(inner, i0, x0, top, i0 + m);
      assert t == LogTick(i0 + m);
    }
  }

  /** Below table entry 2 nothing is drawn, and that entry with the wrong kind. */
  lemma LowExactly(inner: seq<Tick>, i0: nat, x0: real, top: real)
    requires LogRun(inner, i0, x0, top) && x0 < P(2)
    ensures LogComplete(inner, x0, top) <==> LogFits(x0, top)
  {
    hide P, LogAt, Digit;
    LowPositions();
    if LogComplete(inner, x0, top) {
      forall i: nat
        ensures !(x0 < LogTick(i).at <= top)
      {
        if x0 < LogTick(i).at <= top {
          assert LogTick(i) in inner;
          LogRunComplete(inner, i0, x0, top, Low(false));
          EntryNotMajor(inner, i0, x0, top);
        }
      }
    }
    if LogFits(x0, top) && inner != [] {
      assert inner[0].at == LogTick(i0).at;
      LogRunComplete(inner, i0, x0, top, i0);
    }
  }

  /** Table entry 2 is never a major tick of a run. */
  lemma EntryNotMajor(inner: seq<Tick>, i0: nat, x0: real, top: real)
    requires LogRun(inner, i0, x0, top) && !Beyond(x0)
    ensures LogTick(Low(false)) !in inner
    ensures inner != [] && x0 < P(2) ==> P(2) <= top
  {
    hide P, LogAt;
    LowPositions();
    if LogTick(Low(false)) in inner {
      var m :| 0 <= m < |inner| && inner[m] == LogTick(Low(false));
      if i0 + m > Low(false) { LogMono(Low(false), i0 + m); }
    }
    if inner != [] {
      LogRunComplete(inner, i0, x0, top, i0);
      if i0 > Low(false) { LogMono(Low(false), i0); }
    }
  }

  /** Behind the table the multiples of its last entry are drawn. */
  lemma BeyondExactly(inner: seq<Tick>, i0: nat, x0: real, top: real)
    requires LogRun(inner, i0, x0, top) && Beyond(x0)
    ensures LogComplete(inner, x0, top) <==> LogFits(x0, top)
  {
    hide P, LogAt, LogRun;
    LowPositions();
    BeyondShown(inner, i0, x0, top);
    forall c: nat | x0 < Pos(true, c)
      ensures OneDigit(c) <==> exists i: nat :: LogTick(i) == Tick(Pos(true, c), Middle)
    {
      if c < 10 { PosMono(true, c, 10); }
      OneDigitMeaning(c);
    }
    if LogFits(x0, top) {
      forall i: nat | x0 < LogTick(i).at <= top
        ensures LogTick(i) in inner
      {
        if i < 9 * P_SIZE { LogMono(i, 9 * P_SIZE); }
        var c := LogMultiple(i);
        assert OneDigit(c);
        var j: nat :| LogTick(j) == Tick(Pos(true, c), Middle);
        if i < j { LogMono(i, j); }
        if j < i { LogMono(j, i); }
      }
    }
  }

  lemma BeyondShown(inner: seq<Tick>, i0: nat, x0: real, top: real)
    requires LogRun(inner, i0, x0, top) && Beyond(x0)
    ensures forall c: nat :: x0 < Pos(true, c) <= top ==> Tick(Pos(true, c), Middle) in inner
    ensures forall t :: t in inner ==> x0 < t.at <= top && exists c: nat :: t == Tick(Pos(true, c), Middle)
  {
    hide P, LogRun, Pos;
    LowPositions();
    forall c: nat | x0 < Pos(true, c) <= top
      ensures Tick(Pos(true, c), Middle) in inner
    {
      if c < 10 { PosMono(true, c, 10); }
      LogRunComplete(inner, i0, x0, top, c);
    }
    forall t | t in inner
      ensures x0 < t.at <= top && exists c: nat :: t == Tick(Pos(true, c), Middle)
    {
      var m :| 0 <= m < |inner| && inner[m] == t;
      LogRunComplete(inner, i0, x0, top, i0 + m);
      assert t == Tick(Pos(true, i0 + m), Middle);
    }
  }

  lemma {:induction false} TableTimesTen(a: nat, k: nat)
    ensures P(a + k) == Digit(Ten(k), a)
  {
    hide P;
    if k > 0 {
      TableTimesTen(a, k - 1);
      PStep(a + (k - 1));
      AtScaled(10, Ten(k - 1), P(a));
    }
  }

  lemma AtScaled(a: nat, b: nat, d: real)
    ensures At(a * b, d) == At(a, At(b, d))
  {
    assert (a * b) as real == (a as real) * (b as real);
  }

  /** Log positions behind the table are multiples of its last entry. */
  lemma LogMultiple(i: nat) returns (c: nat)
    requires 9 * P_SIZE <= i
    ensures c == Round(i % 9 + 1, i / 9 - (P_SIZE - 1)) && LogAt(i) == Pos(true, c)
  {
    hide P;
    var k := i / 9 - (P_SIZE - 1);
    TableTimesTen(P_SIZE - 1, k);
    c := Round(i % 9 + 1, k);
    AtScaled(i % 9 + 1, Ten(k), P(P_SIZE - 1));
  }

  /** Such multiples are the log positions of middle ticks. */
  lemma OneDigitMeaning(c: nat)
    requires 10 <= c
    ensures OneDigit(c) <==> exists i: nat :: LogTick(i) == Tick(Pos(true, c), Middle)
  {
    hide P, LogAt, Ten;
    LowPositions();
    if d: nat, k: nat :| 2 <= d <= 9 && c == Round(d, k) {
      LogSplit(P_SIZE - 1 + k, d);
      LogIndex(P_SIZE - 1 + k, d);
      TableTimesTen(P_SIZE - 1, k);
      AtScaled(d, Ten(k), P(P_SIZE - 1));
      assert LogTick(9 * (P_SIZE - 1 + k) + (d - 1)) == Tick(Pos(true, c), Middle);
    }
    if i: nat :| LogTick(i) == Tick(Pos(true, c), Middle) {
      if 10 < c { PosMono(true, 10, c); }
      if i < 9 * P_SIZE { LogMono(i, 9 * P_SIZE); }
      var b := LogMultiple(i);
      if b < c { PosMono(true, b, c); }
      if c < b { PosMono(true, c, b); }
    }
  }

  /** The powers of ten of a run, and no others, are major ticks. */
  ghost predicate KindsRight(inner: seq<Tick>)
  {
    forall t :: t in inner ==> (t.kind == Major <==> PowerOfTen(t.at))
  }

  /** That is so exactly when table entry 2 is not stepped on, and no power of ten behind the table. */
  lemma KindsExactly(inner: seq<Tick>, i0: nat, x0: real, top: real)
    requires LogRun(inner, i0, x0, top)
    ensures KindsRight(inner)
       <==> if Beyond(x0) then forall x :: PowerOfTen(x) ==> !(x0 < x <= top) else !(x0 < P(2) <= top)
  {
    hide P, LogAt, LogRun;
    LowPositions();
    if Beyond(x0) {
      BeyondKinds(inner, i0, x0, top);
    } else {
      InsideKinds(inner, i0, x0, top);
    }
  }

  lemma InsideKinds(inner: seq<Tick>, i0: nat, x0: real, top: real)
    requires LogRun(inner, i0, x0, top) && !Beyond(x0)
    ensures KindsRight(inner) <==> !(x0 < P(2) <= top)
  {
    hide P, LogAt, LogRun, Digit, PowerOfTen;
    LowPositions();
    LogRunComplete(inner, i0, x0, top, Low(false));
    forall t | t in inner
      ensures (t.kind == Major <==> PowerOfTen(t.at)) <==> t.at != P(2)
      ensures x0 < t.at <= top
    {
      var m :| 0 <= m < |inner| && inner[m] == t;
      LogRunComplete(inner, i0, x0, top, i0 + m);
      LogMajor(i0 + m);
      if Low(false) < i0 + m { LogMono(Low(false), i0 + m); }
    }
    if x0 < P(2) <= top {
      var t := inner[Low(false) - i0];
      assert t in inner && t.at == P(2);
    }
  }

  lemma BeyondKinds(inner: seq<Tick>, i0: nat, x0: real, top: real)
    requires LogRun(inner, i0, x0, top) && Beyond(x0)
    ensures KindsRight(inner) <==> forall x :: PowerOfTen(x) ==> !(x0 < x <= top)
  {
    hide P, LogAt, LogRun, PowerOfTen;
    BeyondShown(inner, i0, x0, top);
    forall x | PowerOfTen(x) && x0 < x <= top
      ensures Tick(x, Middle) in inner
    {
      PMono(0, P_SIZE);
      var k := PowerIsEntry(x);
      if k < P_SIZE { PMono(k, P_SIZE); }
      assert P_SIZE <= k;
      TableTimesTen(P_SIZE - 1, k - (P_SIZE - 1));
      assert P(k) == Pos(true, Ten(k - (P_SIZE - 1)));
    }
    if x :| PowerOfTen(x) && x0 < x <= top {
      assert Tick(x, Middle).at == x;
    }
  }

  /** An axis from table entry 1 to entry 3: entry 2 is a middle tick, and 2 * 10^-37 is left out. */
  lemma LowExample(inner: seq<Tick>, i0: nat)
    requires LogAxis(inner, i0, 2, P(1), P(3))
    ensures Tick(P(2), Middle) in inner && LogTick(Low(false)) == Tick(P(2), Major)
    ensures P(1) < LogTick(10).at < P(2) && LogTick(10) !in inner && !KindsRight(inner)
  {
    hide P, LogAt, LogRun, Digit;
    var top := P(3) + 0.5 * P(0);
    LowPositions();
    PMono(1, 2);
    PMono(2, 3);
    LogIndex(1, 1);
    DigitStep(0, 1);
    LogMono(9, 10);
    LogMono(10, Low(false));
    LogRunComplete(inner, i0, P(1), top, Low(false));
    KindsExactly(inner, i0, P(1), top);
    if LogTick(10) in inner {
      var m :| 0 <= m < |inner| && inner[m] == LogTick(10);
      LogRunComplete(inner, i0, P(1), top, i0 + m);
      LogMono(10, i0 + m);
    }
  }

  /** An axis from 10^39 to 2 * 10^39 draws 1.1 * 10^39, which is no log position. */
  lemma BeyondExample(inner: seq<Tick>, i0: nat)
    requires LogAxis(inner, i0, P_SIZE - 1, P(P_SIZE), 2.0 * P(P_SIZE))
    ensures Tick(Pos(true, 11), Middle) in inner && forall i: nat :: LogTick(i).at != Pos(true, 11)
  {
    hide P, LogAt, LogRun;
    var a, top := 9 * P_SIZE, 2.0 * P(P_SIZE) + 0.5 * P(P_SIZE - 3);
    LowPositions();
    LogRunComplete(inner, i0, P(P_SIZE), top, 11);
    PosMono(true, 10, 11);
    PosMono(true, 11, 20);
    AtScaled(2, 10, P(P_SIZE - 1));
    LogIndex(P_SIZE, 2);
    forall i: nat
      ensures LogTick(i).at != Pos(true, 11)
    {
      if i < a { LogMono(i, a); }
      if i > a + 1 { LogMono(a + 1, i); }
    }
  }

  // ----- the meaning without the table

  /** The table entries the limits of the axes refer to. */
  lemma Limits(x: real)
    ensures (P(0) <= x <==> Shifted(x, 38) >= 1.0) && (P(0) < x <==> Shifted(x, 38) > 1.0)
    ensures (P(2) <= x <==> Shifted(x, 36) >= 1.0) && (P(2) < x <==> Shifted(x, 36) > 1.0)
    ensures Shifted(x, 36) == 1.0 <==> x == P(2)
    ensures P(P_SIZE - 1) == Ten(38) as real && P(P_SIZE) == Ten(39) as real
  {
    hide P, Ten, Shifted;
    TableTens(36);
    TableTens(38);
    TableTens(39);
    ShiftedOrder(P(0), x, 38);
    ShiftedOrder(P(2), x, 36);
  }

  lemma ShiftedOrder(a: real, b: real, k: nat)
    ensures a < b <==> Shifted(a, k) < Shifted(b, k)
    ensures a == b <==> Shifted(a, k) == Shifted(b, k)
  {
    hide Ten;
    TimesMono(a, b, Ten(k) as real);
  }

  /** Powers of ten up to a table entry. */
  lemma PowerUpTo(r: real, pwr: nat)
    requires PowerOfTen(r) && r < P(pwr + 1)
    ensures r <= P(pwr)
  {
    hide P, PowerOfTen;
    if pwr > 0 { PMono(0, pwr); }
    if P(0) <= r {
      var k := PowerIsEntry(r);
      if pwr + 1 < k { PMono(pwr + 1, k); }
      if k < pwr { PMono(k, pwr); }
    }
  }

  lemma SpacingMeaning(length: real, pwr: nat)
    requires Spacing(length, pwr, 2)
    ensures SpacingPower(P(pwr), length)
  {
    hide P, Ten, PowerOfTen, Shifted;
    Limits(length);
    Limits(P(pwr));
    EntryIsPower(pwr);
    if 2 < pwr { PMono(2, pwr); }
    if pwr + 1 < P_SIZE { PMono(pwr + 1, P_SIZE); }
    forall r | PowerOfTen(r) && r < length && length <= P(P_SIZE)
      ensures r <= P(pwr)
    {
      PowerUpTo(r, pwr);
    }
  }

  lemma StartMeaning(x0: real, pwr: nat)
    requires Decade(x0, pwr)
    ensures StartPower(P(pwr), x0) && forall q :: StartPower(q, x0) ==> q == P(pwr)
  {
    hide P, Ten, PowerOfTen, Shifted;
    Limits(x0);
    Limits(P(pwr));
    EntryIsPower(pwr);
    if 2 < pwr { PMono(2, pwr); }
    if pwr + 1 < P_SIZE { PMono(pwr + 1, P_SIZE); }
    forall r | PowerOfTen(r) && r <= x0 && x0 < P(P_SIZE)
      ensures r <= P(pwr)
    {
      PowerUpTo(r, pwr);
    }
    forall q | StartPower(q, x0)
      ensures q == P(pwr)
    {
      Limits(q);
    }
  }

  /** The log positions of the loop are the numbers d * 10^k from 10^-38 on. */
  lemma LogMeaning(x: real)
    requires P(0) <= x
    ensures LogPosition(x) <==> exists i: nat :: LogAt(i) == x
    ensures forall i: nat :: LogAt(i) == x ==> LogTick(i) == RightTick(x)
  {
    hide P, LogAt, LogPosition, PowerOfTen;
    if LogPosition(x) { var i := PositionIndex(x); }
    forall i: nat | LogAt(i) == x
      ensures LogPosition(x) && LogTick(i) == RightTick(x)
    {
      IndexPosition(i);
      LogMajor(i);
    }
  }

  lemma PositionIndex(x: real) returns (i: nat)
    requires P(0) <= x && LogPosition(x)
    ensures LogAt(i) == x
  {
    hide P, LogAt, Ten, Shifted, Round, Digit;
    if d: nat, k: nat :| 1 <= d <= 9 && x == Round(d, k) as real {
      RoundEntry(d, k);
      LogIndex(38 + k, d);
      i := 9 * (38 + k) + (d - 1);
    } else {
      var k: nat :| Numeral(Shifted(x, k));
      i := ShiftedIndex(x, k);
    }
  }

  lemma ShiftedIndex(x: real, k: nat) returns (i: nat)
    requires P(0) <= x && Numeral(Shifted(x, k))
    ensures LogAt(i) == x
  {
    hide P, LogAt, Ten, Shifted, Digit;
    var d := Shifted(x, k).Floor;
    if k <= 38 {
      ShiftedEntry(d, k);
      ShiftedOrder(x, Digit(d, 38 - k), k);
      LogIndex(38 - k, d);
      i := 9 * (38 - k) + (d - 1);
    } else {
      DigitBelow(x, d, k);
      assert false;
    }
  }

  lemma RoundEntry(d: nat, k: nat)
    ensures Round(d, k) as real == Digit(d, 38 + k)
  {
    hide P, Ten;
    TableTens(k);
  }

  lemma ShiftedEntry(d: nat, k: nat)
    requires k <= 38
    ensures Shifted(Digit(d, 38 - k), k) == d as real
  {
    hide P, Ten;
    TableTens(k);
    Regroup(d as real, P(38 - k), Ten(k) as real);
  }

  lemma Regroup(a: real, b: real, c: real)
    ensures (a * b) * c == a * (b * c)
  {}

  /** A digit times a power of ten that is not in the table lies below the table. */
  lemma DigitBelow(x: real, d: nat, k: nat)
    requires d <= 9 && 38 < k && Shifted(x, k) == d as real
    ensures x < P(0)
  {
    hide P, Ten;
    TableTens(38);
    TenMono(38, k);
    if P(0) <= x { NineAbove(x, P(0), Ten(38) as real, Ten(k) as real); }
  }

  lemma NineAbove(x: real, p: real, m: real, n: real)
    requires 0.0 < p <= x && p * m == 1.0 && m > 0.0 && 10.0 * m <= n
    ensures x * n >= 10.0
  {
    assert x * m >= 1.0 by { if p < x { TimesMono(p, x, m); } }
    assert x * (10.0 * m) == 10.0 * (x * m);
    assert x * n >= x * (10.0 * m) by { if 10.0 * m < n { TimesMono(10.0 * m, n, x); } }
  }

  lemma IndexPosition(i: nat)
    ensures LogPosition(LogAt(i))
  {
    hide P, Ten, Shifted, Round, Digit;
    var d, k := i % 9 + 1, i / 9;
    if 38 <= k {
      RoundEntry(d, k - 38);
      assert LogAt(i) == Round(d, k - 38) as real;
    } else {
      ShiftedEntry(d, 38 - k);
      assert Numeral(Shifted(LogAt(i), 38 - k));
    }
  }

  lemma LogShownMeaning(inner: seq<Tick>, x0: real, top: real)
    requires P(0) <= x0
    ensures ShowsLog(inner, x0, top) <==> LogComplete(inner, x0, top)
  {
    hide P, LogAt, LogPosition, PowerOfTen;
    if LogComplete(inner, x0, top) {
      forall x | LogPosition(x) && x0 < x <= top
        ensures RightTick(x) in inner
      {
        LogMeaning(x);
        var i: nat :| LogAt(i) == x;
        assert LogTick(i) in inner;
      }
      forall t | t in inner
        ensures LogPosition(t.at) && t == RightTick(t.at)
      {
        LogMeaning(t.at);
        var i: nat :| t == LogTick(i);
        assert LogAt(i) == t.at;
      }
    }
    if ShowsLog(inner, x0, top) {
      forall i: nat | x0 < LogTick(i).at <= top
        ensures LogTick(i) in inner
      {
        LogMeaning(LogAt(i));
      }
      forall t | t in inner
        ensures exists i: nat :: t == LogTick(i)
      {
        LogMeaning(t.at);
        var i: nat :| LogAt(i) == t.at;
        assert t == LogTick(i);
      }
    }
  }

  lemma RangeMeaning(x0: real, top: real)
    requires P(0) <= x0
    ensures RangeFits(x0, top) <==> LogFits(x0, top)
  {
    hide P, Pos, LogPosition, Ten, OneDigit, Round, Shifted, LogAt;
    Limits(x0);
    PMono(2, P_SIZE);
    forall c: nat
      ensures Pos(true, c) == Round(c, 38) as real
    {
      RoundPlace(c);
    }
    if x0 < P(2) && LogFits(x0, top) {
      forall x | LogPosition(x)
        ensures !(x0 < x <= top)
      {
        if x0 < x {
          LogMeaning(x);
          var i: nat :| LogAt(i) == x;
          assert LogTick(i).at == x;
        }
      }
    }
    if x0 < P(2) && RangeFits(x0, top) {
      forall i: nat
        ensures !(x0 < LogTick(i).at <= top)
      {
        LogAbove(i);
        LogMeaning(LogAt(i));
      }
    }
  }

  lemma RoundPlace(c: nat)
    ensures Pos(true, c) == Round(c, 38) as real
  {
    RoundEntry(c, 38);
  }

  // ----- the axes


  /** The power the tick spacing of a linear axis is taken from. */
  ghost predicate Spacing(length: real, pwr: nat, low: nat)
  {
    && low <= pwr < P_SIZE && (pwr + 1 < P_SIZE ==> length <= P(pwr + 1))
    && (P(pwr) < length || pwr == low)
  }

  /** The whole axis: major ticks at both ends and the run of ticks between them. */
  ghost predicate WholeAxis(ticks: seq<Tick>, g: Graph, x0: real, xn: real, offset: real, n: nat, pwr: nat, first: int)
    requires n > 0
  {
    && 2 <= pwr && |ticks| >= 2 && ticks[0] == Tick(x0, Major) && ticks[|ticks| - 1] == Tick(xn, Major)
    && var inner := ticks[1..|ticks| - 1];
       if g.log then Decade(x0, pwr) && first >= 0 && LogAxis(inner, first, pwr, x0, xn)
       else Spacing(xn - x0, pwr, 2) && LinearAxis(inner, first, pwr, n, x0, xn, offset)
  }

  /** Tick k of a linear axis. */
  ghost function LinearTick(k: int, pwr: nat, n: nat, offset: real): Tick
    requires n > 0
  {
    Tick(At(k, P(pwr) / n as real) - offset, KindOf(k, n))
  }

  /** Between its ends an axis shows every tick position of its kind from the start to the end, with
      the right kind, and nothing else: exactly on logarithmic axes, up to eps on linear ones. */
  ghost predicate Complete(ticks: seq<Tick>, g: Graph, x0: real, xn: real, offset: real, n: nat, pwr: nat)
    requires n > 0
  {
    && 2 <= pwr && |ticks| >= 2
    && var inner, eps := ticks[1..|ticks| - 1], 0.5 * P(pwr - 2);
       if g.log then LogComplete(inner, x0, xn + eps)
       else
         && (forall k :: x0 + eps <= LinearTick(k, pwr, n, offset).at <= xn + eps ==> LinearTick(k, pwr, n, offset) in inner)
         && (forall t :: t in inner ==> x0 - eps < t.at <= xn + eps && exists k :: t == LinearTick(k, pwr, n, offset))
  }

  /** Linear axes always fit, logarithmic ones by their start and end. */
  ghost predicate AxisFits(g: Graph, x0: real, xn: real, pwr: nat)
    requires 2 <= pwr
  {
    g.log ==> LogFits(x0, xn + 0.5 * P(pwr - 2))
  }

  /** An axis is complete exactly when it fits. */
  lemma WholeIsComplete(ticks: seq<Tick>, g: Graph, x0: real, xn: real, offset: real, n: nat, pwr: nat, first: int)
    requires n > 0 && WholeAxis(ticks, g, x0, xn, offset, n, pwr, first)
    ensures Complete(ticks, g, x0, xn, offset, n, pwr) <==> AxisFits(g, x0, xn, pwr)
    ensures !g.log && n < 100 && xn - x0 <= P(P_SIZE - 1) ==> |ticks| <= 10 * n + 3
  {
    hide P, LinearRun, LogRun, At, KindOf, LogAt, LogFits, LogComplete;
    var inner, eps := ticks[1..|ticks| - 1], 0.5 * P(pwr - 2);
    if g.log {
      LogCompleteExactly(inner, first, x0, xn + eps);
    } else {
      var d := P(pwr) / n as real;
      StepSize(P(pwr), n);
      if n < 100 && xn - x0 <= P(P_SIZE - 1) {
        LinearRunShort(inner, first, pwr, n, x0, xn, offset);
      }
      forall k
        ensures x0 + eps <= LinearTick(k, pwr, n, offset).at <= xn + eps ==> LinearTick(k, pwr, n, offset) in inner
      {
        LinearRunComplete(inner, first, d, n, x0, xn, offset, eps, k);
      }
      forall t | t in inner
        ensures x0 - eps < t.at <= xn + eps && exists k :: t == LinearTick(k, pwr, n, offset)
      {
        var m :| 0 <= m < |inner| && inner[m] == t;
        LinearRunComplete(inner, first, d, n, x0, xn, offset, eps, first + m);
        assert t == LinearTick(first + m, pwr, n, offset);
      }
    }
  }

  /** What an axis shows, without the table. */
  lemma WholeMeaning(ticks: seq<Tick>, g: Graph, x0: real, xn: real, offset: real, n: nat, pwr: nat, first: int)
    requires n > 0 && WholeAxis(ticks, g, x0, xn, offset, n, pwr, first)
    ensures ShowsAxis(ticks, g, x0, xn, offset, n)
    ensures !g.log && n < 100 && xn - x0 <= Ten(38) as real ==> |ticks| <= 10 * n + 3
  {
    hide P, Ten, Shifted, LinearAxis, LogAxis, LogFits, LogComplete, ShowsLog, ShowsLinear, RangeFits, StartPower, SpacingPower;
    var inner, eps := ticks[1..|ticks| - 1], 0.5 * P(pwr - 2);
    Limits(0.0);
    WholeIsComplete(ticks, g, x0, xn, offset, n, pwr, first);
    PStep(pwr - 1);
    PStep(pwr - 2);
    assert eps == P(pwr) / 200.0;
    if g.log {
      StartMeaning(x0, pwr);
      LogShownMeaning(inner, x0, xn + eps);
      RangeMeaning(x0, xn + eps);
    } else {
      SpacingMeaning(xn - x0, pwr);
      LinearMeaning(ticks, g, x0, xn, offset, n, pwr);
    }
  }

  lemma LinearMeaning(ticks: seq<Tick>, g: Graph, x0: real, xn: real, offset: real, n: nat, pwr: nat)
    requires n > 0 && !g.log && Complete(ticks, g, x0, xn, offset, n, pwr) && 0.5 * P(pwr - 2) == P(pwr) / 200.0
    ensures ShowsLinear(ticks[1..|ticks| - 1], x0, xn, offset, n, P(pwr))
  {
    hide P, LinearTick, Place;
    forall k
      ensures LinearTick(k, pwr, n, offset) == Place(k, P(pwr), n, offset)
    {
      PlaceMeaning(k, pwr, n, offset);
    }
  }

  lemma PlaceMeaning(k: int, pwr: nat, n: nat, offset: real)
    requires n > 0
    ensures LinearTick(k, pwr, n, offset) == Place(k, P(pwr), n, offset)
  {
    hide P, KindOf;
    KindMeaning(k, n);
  }

  /** What a call does: an error message, reads outside the table of powers of ten, or an axis. */
  datatype Drawing = Refusal | OffTable | Axis(ticks: seq<Tick>)

  /** The checks of a call: the axis outside the window by more than one percent, the ends exchanged,
      or a side that is none. */
  method Check(g: Graph, x0: real, xn: real, tside: int, nside: int) returns (refused: bool)
    ensures refused <==>
      || x0 < g.min * (if g.min < 0.0 then 1.01 else 0.99) || xn > g.max * (if g.max < 0.0 then 0.99 else 1.01)
      || x0 > xn || tside < -1 || tside > 1 || nside < -1 || nside > 1
  {
    var mincon := if g.min < 0.0 then 1.01 else 0.99;
    var maxcon := if g.max < 0.0 then 0.99 else 1.01;
    if x0 < g.min * mincon || xn > g.max * maxcon { return true; }
    if x0 > xn { return true; }
    refused := (tside != -1 && tside != 0 && tside != 1) || (nside != -1 && nside != 0 && nside != 1);
  }

  /** The x axis without time labels. One division or less means ten. */
  method XAxis(g: Graph, x0: real, xn: real, tside: int, nside: int, ndivs: int, offset: real)
    returns (d: Drawing)
    ensures d == Refusal <==>
      || x0 < g.min * (if g.min < 0.0 then 1.01 else 0.99) || xn > g.max * (if g.max < 0.0 then 0.99 else 1.01)
      || x0 > xn || tside < -1 || tside > 1 || nside < -1 || nside > 1
    ensures d == OffTable <==> d != Refusal && !InTable(g, x0, xn, 36)
    ensures d.Axis? ==> var n: nat := if ndivs <= 1 then 10 else ndivs;
      && ShowsAxis(d.ticks, g, x0, xn, offset, n)
      && (exists pwr: nat, first: int :: WholeAxis(d.ticks, g, x0, xn, offset, n, pwr, first))
      && (!g.log && n < 100 && xn - x0 <= Ten(38) as real ==> |d.ticks| <= 10 * n + 3)
  {
    hide P, LinearRun, LogRun, LinearAxis, LogAxis, Beyond, ShowsAxis, InTable, Ten;
    var refused := Check(g, x0, xn, tside, nside);
    if refused { return Refusal; }
    var n: nat := if ndivs <= 1 then 10 else ndivs;
    var inner, pwr;
    ghost var first: int;
    if g.log {
      pwr := PickDecade(x0);
      StartInTable(g, x0, xn, pwr);
      if pwr < 2 { return OffTable; }
      var off;
      inner, off := LogTicks(x0, xn, pwr);
      EndInTable(g, x0, xn, 36, pwr);
      if off { return OffTable; }
      ghost var i0: nat :| LogAxis(inner, i0, pwr, x0, xn);
      first := i0;
    } else {
      pwr := PickPower(xn - x0);
      LengthInTable(g, x0, xn, pwr);
      if pwr < 2 { return OffTable; }
      inner := LinearTicks(x0, xn, offset, pwr, n);
      first :| LinearAxis(inner, first, pwr, n, x0, xn, offset);
    }
    var ticks := [Tick(x0, Major)] + inner + [Tick(xn, Major)];
    assert ticks[1..|ticks| - 1] == inner;
    assert WholeAxis(ticks, g, x0, xn, offset, n, pwr, first);
    WholeMeaning(ticks, g, x0, xn, offset, n, pwr, first);
    d := Axis(ticks);
  }

  /** The y axis. Unlike the x axis it keeps a single division, it spaces very short linear axes as
      if they were of the length of table entry 2, and it lets logarithmic axes start below that entry. */
  method YAxis(g: Graph, y0: real, yn: real, tside: int, nside: int, ndivs: int, offset: real)
    returns (d: Drawing)
    ensures d == Refusal <==>
      || y0 < g.min * (if g.min < 0.0 then 1.01 else 0.99) || yn > g.max * (if g.max < 0.0 then 0.99 else 1.01)
      || y0 > yn || tside < -1 || tside > 1 || nside < -1 || nside > 1
    ensures d == OffTable <==> d != Refusal && !InTable(g, y0, yn, 38)
    ensures d.Axis? ==> var n: nat := if ndivs <= 0 then 10 else ndivs;
      && ShowsAxis(d.ticks, g, y0, yn, offset, n)
      && (exists pwr: nat, first: int :: WholeAxis(d.ticks, g, y0, yn, offset, n, pwr, first))
      && (!g.log && n < 100 && yn - y0 <= Ten(38) as real ==> |d.ticks| <= 10 * n + 3)
  {
    hide P, LinearRun, LogRun, LinearAxis, LogAxis, Beyond, ShowsAxis, InTable, Ten;
    var refused := Check(g, y0, yn, tside, nside);
    if refused { return Refusal; }
    var n: nat := if ndivs <= 0 then 10 else ndivs;
    var inner, pwr;
    ghost var first: int;
    if g.log {
      pwr := PickDecade(y0);
      StartInTable(g, y0, yn, pwr);
      if pwr < 0 { return OffTable; }
      if pwr < 2 { pwr := 2; }
      var off;
      inner, off := LogTicks(y0, yn, pwr);
      EndInTable(g, y0, yn, 38, pwr);
      if off { return OffTable; }
      ghost var i0: nat :| LogAxis(inner, i0, pwr, y0, yn);
      first := i0;
    } else {
      pwr := PickPower(yn - y0);
      LengthInTable(g, y0, yn, pwr);
      if pwr < 0 { return OffTable; }
      if pwr < 2 { pwr := 2; }
      inner := LinearTicks(y0, yn, offset, pwr, n);
      first :| LinearAxis(inner, first, pwr, n, y0, yn, offset);
    }
    var ticks := [Tick(y0, Major)] + inner + [Tick(yn, Major)];
    assert ticks[1..|ticks| - 1] == inner;
    assert WholeAxis(ticks, g, y0, yn, offset, n, pwr, first);
    WholeMeaning(ticks, g, y0, yn, offset, n, pwr, first);
    d := Axis(ticks);
  }

  /** The largest entry that is not above the start, and where it leaves the table. */
  lemma StartInTable(g: Graph, x0: real, xn: real, pwr: int)
    requires g.log && -1 <= pwr < P_SIZE && (0 <= pwr <==> P(0) <= x0)
    requires 0 <= pwr ==> P(pwr) <= x0 && (pwr + 1 < P_SIZE ==> x0 < P(pwr + 1))
    ensures pwr < 0 ==> !InTable(g, x0, xn, 38)
    ensures pwr < 2 ==> !InTable(g, x0, xn, 36)
    ensures 0 <= pwr ==> Decade(x0, if pwr < 2 then 2 else pwr)
    ensures 2 <= pwr ==> Shifted(x0, 36) >= 1.0
    ensures 0 <= pwr ==> Shifted(x0, 38) >= 1.0
  {
    hide P, Ten, StartPower, Shifted;
    Limits(x0);
    PMono(0, 2);
    PMono(1, 2);
    PMono(2, 3);
    if 2 < pwr { PMono(2, pwr); }
  }

  lemma EndInTable(g: Graph, x0: real, xn: real, e: nat, pwr: nat)
    requires g.log && Decade(x0, pwr) && Shifted(x0, e) >= 1.0
    ensures InTable(g, x0, xn, e) <==> Beyond(x0) || xn + 0.5 * P(pwr - 2) < P(P_SIZE)
  {
    hide P, Ten, StartPower, Shifted;
    Limits(x0);
    StartMeaning(x0, pwr);
    PStep(pwr - 1);
    PStep(pwr - 2);
    assert 0.5 * P(pwr - 2) == P(pwr) / 200.0;
  }

  lemma LengthInTable(g: Graph, x0: real, xn: real, pwr: int)
    requires !g.log && -1 <= pwr < P_SIZE && (0 <= pwr <==> P(0) < xn - x0)
    requires 0 <= pwr ==> P(pwr) < xn - x0 && (pwr + 1 < P_SIZE ==> xn - x0 <= P(pwr + 1))
    ensures pwr < 0 <==> !InTable(g, x0, xn, 38)
    ensures pwr < 2 <==> !InTable(g, x0, xn, 36)
    ensures 0 <= pwr ==> Spacing(xn - x0, if pwr < 2 then 2 else pwr, 2)
  {
    hide P, Ten, Shifted;
    Limits(xn - x0);
    PMono(0, 2);
    PMono(1, 2);
    PMono(2, 3);
    if 2 < pwr { PMono(2, pwr); }
  }
}
