/** Automatic gain control: every sample is divided by the sum of magnitudes in a sliding window,
    which is kept by a running sum. The loops work on memory from a base position on, so that the
    cells they touch can be compared with the cells of the trace. */
module Agc {

  function Abs(v: real): real { if v > 0.0 then v else -v }

  /** The sum of magnitudes of the samples lo, ..., hi - 1. */
  function Norm(x: seq<real>, lo: nat, hi: nat): (n: real)
    requires lo <= hi <= |x|
    ensures n >= 0.0
    decreases hi - lo
  {
    if lo == hi then 0.0 else Norm(x, lo, hi - 1) + Abs(x[hi - 1])
  }

  /** The windows the loops make sense for; nothing in the source checks them. */
  predicate Fits(nt: nat, window: nat) { 0 < window <= nt }

  /** How many samples the loops read: with an odd window one more than the trace has. */
  function Reach(nt: nat, window: nat): nat { nt + window % 2 }

  /** Where the window of sample i begins: fixed at both ends, moving in the middle. */
  function WindowStart(nt: nat, window: nat, i: nat): nat
    requires Fits(nt, window)
  {
    if i < window / 2 then 0
    else if i < nt - window / 2 then i - window / 2 + 1
    else nt - window / 2 - window / 2
  }

  /** The sum over the window that begins at s. */
  function WindowNorm(x: seq<real>, s: nat, window: nat): real
    requires s + window <= |x|
  {
    Norm(x, s, s + window)
  }

  /** No window of samples is all zero. */
  ghost predicate Alive(x: seq<real>, nt: nat, window: nat)
    requires Fits(nt, window) && Reach(nt, window) <= |x|
  {
    forall s: nat :: s <= nt - window / 2 - window / 2 ==> WindowNorm(x, s, window) != 0.0
  }

  lemma StartInside(nt: nat, window: nat, i: nat)
    requires Fits(nt, window)
    ensures WindowStart(nt, window, i) <= nt - window / 2 - window / 2
    ensures WindowStart(nt, window, i) + window <= Reach(nt, window)
  {}

  /** The sum sample i is divided by. */
  ghost function Divisor(x: seq<real>, nt: nat, window: nat, i: nat): (n: real)
    requires Fits(nt, window) && Reach(nt, window) <= |x| && Alive(x, nt, window)
    ensures n != 0.0
  {
    StartInside(nt, window, i);
    WindowNorm(x, WindowStart(nt, window, i), window)
  }

  /** The gained sample. */
  ghost function Gained(x: seq<real>, nt: nat, window: nat, i: nat): real
    requires i < nt && Fits(nt, window) && Reach(nt, window) <= |x| && Alive(x, nt, window)
  {
    x[i] / Divisor(x, nt, window, i)
  }

  lemma {:induction false} NormSplit(x: seq<real>, lo: nat, mid: nat, hi: nat)
    requires lo <= mid <= hi <= |x|
    ensures Norm(x, lo, hi) == Norm(x, lo, mid) + Norm(x, mid, hi)
    decreases hi
  {
    if mid < hi { NormSplit(x, lo, mid, hi - 1); }
  }

  /** The sum is additive, and one sample's share is its magnitude. */
  lemma NormOne(x: seq<real>, i: nat)
    requires i < |x|
    ensures Norm(x, i, i) == 0.0 && Norm(x, i, i + 1) == if x[i] >= 0.0 then x[i] else -x[i]
  {
    assert Norm(x, i, i) == 0.0;
  }

  /** Moving the window by one sample. */
  lemma NormSlide(x: seq<real>, s: nat, window: nat)
    requires 0 < window && s + window < |x|
    ensures WindowNorm(x, s + 1, window) == WindowNorm(x, s, window) + Abs(x[s + window]) - Abs(x[s])
  {
    NormSplit(x, s, s + 1, s + window + 1);
    assert Norm(x, s, s + 1) == Norm(x, s, s) + Abs(x[s]);
  }

  /** With an even window every sample lies in its own window. */
  lemma InOwnWindow(nt: nat, window: nat, i: nat)
    requires i < nt && Fits(nt, window) && window % 2 == 0
    ensures var s := WindowStart(nt, window, i); s <= i < s + window <= nt
  {}

  // ----- the loops

  /** The cells lo, ..., hi - 1 of memory. */
  function Cells(lo: nat, hi: nat): (c: set<nat>)
    requires lo <= hi
    ensures forall k: nat :: k in c <==> lo <= k < hi
    decreases hi
  {
    if lo == hi then {} else Cells(lo, hi - 1) + {hi - 1}
  }

  /** The samples below i are gained. */
  ghost predicate Done(y: seq<real>, x: seq<real>, nt: nat, window: nat, i: nat)
    requires i <= nt <= |y| && Fits(nt, window) && Reach(nt, window) <= |x| && Alive(x, nt, window)
  {
    forall k :: 0 <= k < i ==> y[k] == Gained(x, nt, window, k)
  }

  /** The sum over the first window. */
  method FirstNorm(x: array<real>, base: nat, window: nat) returns (l1norm: real, ghost touched: set<nat>)
    requires base + window <= x.Length
    ensures l1norm == WindowNorm(x[base..], 0, window)
    ensures touched == Cells(base, base + window)
  {
    l1norm, touched := 0.0, {};
    var xp := base;
    while xp < base + window
      invariant base <= xp <= base + window && l1norm == Norm(x[base..], 0, xp - base)
      invariant touched == Cells(base, xp)
    {
      assert x[xp] == x[base..][xp - base];
      if x[xp] > 0.0 {
        l1norm := l1norm + x[xp];
      } else {
        l1norm := l1norm - x[xp];
      }
      touched := touched + {xp};
      xp := xp + 1;
    }
  }

  /** The loops at both ends, where the window stands still. */
  method Taper(y: array<real>, x: array<real>, base: nat, nt: nat, window: nat, l1norm: real, from: nat, to: nat)
    returns (ghost touched: set<nat>)
    requires y != x && from <= to <= nt && base + nt <= y.Length && base + Reach(nt, window) <= x.Length
    requires Fits(nt, window) && Alive(x[base..], nt, window)
    requires forall i :: from <= i < to ==> l1norm == Divisor(x[base..], nt, window, i)
    requires Done(y[base..], x[base..], nt, window, from)
    modifies y
    ensures Done(y[base..], x[base..], nt, window, to) && y[..base] == old(y[..base])
    ensures touched == Cells(base + from, base + to)
  {
    hide Divisor, Alive, Done, Cells;
    var xp := base + from;
    CellsEmpty(base + from);
    touched := {};
    ghost var m := x[base..];
    while xp < base + to
      invariant base + from <= xp <= base + to
      invariant Done(y[base..], m, nt, window, xp - base) && y[..base] == old(y[..base])
      invariant touched == Cells(base + from, xp)
    {
      ghost var before := y[base..];
      DoneNext(before, m, nt, window, xp - base);
      CellsGrow(base + from, xp);
      assert x[xp] == m[xp - base];
      y[xp] := x[xp] / l1norm;
      assert y[base..] == before[xp - base := x[xp] / l1norm];
      touched := touched + {xp};
      xp := xp + 1;
    }
  }

  lemma CellsEmpty(lo: nat)
    ensures Cells(lo, lo) == {}
  {}

  lemma CellsGrow(lo: nat, hi: nat)
    requires lo <= hi
    ensures Cells(lo, hi + 1) == Cells(lo, hi) + {hi}
  {}

  /** One more sample is gained. */
  lemma DoneNext(y: seq<real>, x: seq<real>, nt: nat, window: nat, i: nat)
    requires i < nt <= |y| && Fits(nt, window) && Reach(nt, window) <= |x| && Alive(x, nt, window)
    requires Done(y, x, nt, window, i)
    ensures Done(y[i := Gained(x, nt, window, i)], x, nt, window, i + 1)
  {}

  /** In the middle, the window of sample i is the one that ends right after its head. */
  lemma MiddleGained(x: seq<real>, nt: nat, window: nat, i: nat)
    requires Fits(nt, window) && Reach(nt, window) <= |x| && Alive(x, nt, window)
    requires window / 2 <= i < nt - window / 2
    ensures WindowNorm(x, i - window / 2, window) != 0.0 && WindowNorm(x, i - window / 2 + 1, window) != 0.0
    ensures Gained(x, nt, window, i) == x[i] / WindowNorm(x, i - window / 2 + 1, window)
  {}

  lemma CellsNext(touched: set<nat>, base: nat, window: nat, head: nat, tail: nat, xp: nat)
    requires base <= tail <= xp <= head && touched + Cells(base, base + window) == Cells(base, head)
    ensures touched + {head, tail, xp} + Cells(base, base + window) == Cells(base, head + 1)
  {}

  /** The core loop: the window slides over the middle of the trace. */
  method Slide(y: array<real>, x: array<real>, base: nat, nt: nat, window: nat, norm: real)
    returns (l1norm: real, ghost touched: set<nat>)
    requires y != x && base + nt <= y.Length && base + Reach(nt, window) <= x.Length
    requires Fits(nt, window) && Alive(x[base..], nt, window) && norm == WindowNorm(x[base..], 0, window)
    requires Done(y[base..], x[base..], nt, window, window / 2)
    modifies y
    ensures l1norm == WindowNorm(x[base..], nt - window / 2 - window / 2, window)
    ensures Done(y[base..], x[base..], nt, window, nt - window / 2) && y[..base] == old(y[..base])
    ensures touched + Cells(base, base + window) == Cells(base, base + Reach(nt, window))
  {
    hide WindowNorm, Alive, Divisor, Gained, Done, Cells;
    ghost var m := x[base..];
    var xp := base + window / 2;
    var tail, head, oldnorm := base, base + window, norm;
    l1norm, touched := norm, {};
    while xp < base + nt - window / 2
      invariant window / 2 <= xp - base <= nt - window / 2
      invariant tail == xp - window / 2 && head == tail + window
      invariant l1norm == oldnorm == WindowNorm(m, tail - base, window)
      invariant Done(y[base..], m, nt, window, xp - base) && y[..base] == old(y[..base])
      invariant touched + Cells(base, base + window) == Cells(base, head)
    {
      ghost var before := y[base..];
      MiddleGained(m, nt, window, xp - base);
      NormSlide(m, tail - base, window);
      DoneNext(before, m, nt, window, xp - base);
      CellsNext(touched, base, window, head, tail, xp);
      assert x[head] == m[tail - base + window] && x[tail] == m[tail - base] && x[xp] == m[xp - base];
      if x[head] > 0.0 { l1norm := l1norm + x[head]; } else { l1norm := l1norm - x[head]; }
      if x[tail] > 0.0 { l1norm := l1norm - x[tail]; } else { l1norm := l1norm + x[tail]; }
      if oldnorm == 0.0 { l1norm := oldnorm; }
      assert l1norm == WindowNorm(m, tail - base + 1, window);
      oldnorm := l1norm;
      y[xp] := x[xp] / l1norm;
      assert y[xp] == Gained(m, nt, window, xp - base);
      assert y[base..] == before[xp - base := y[xp]];
      touched := touched + {head, tail, xp};
      head, tail, xp := head + 1, tail + 1, xp + 1;
    }
  }

  /** Extreme values, mean and range of the result. */
  datatype Stats = Stats(min: real, max: real, mean: real, diff: real)

  function Sum(y: seq<real>): real { if y == [] then 0.0 else Sum(y[..|y| - 1]) + y[|y| - 1] }

  /** Sums are additive. */
  lemma {:induction false} SumAdds(y: seq<real>, z: seq<real>)
    ensures Sum(y + z) == Sum(y) + Sum(z)
    ensures forall v :: Sum([v]) == v
    decreases |z|
  {
    assert forall v: real :: [v][..0] == [];
    if z == [] {
      assert y + z == y;
    } else {
      var n := |z| - 1;
      assert (y + z)[..|y + z| - 1] == y + z[..n];
      SumAdds(y, z[..n]);
    }
  }

  ghost predicate StatsOf(r: Stats, y: seq<real>)
    requires |y| > 0
  {
    && r.min in y && r.max in y && (forall v :: v in y ==> r.min <= v <= r.max)
    && r.mean == Sum(y) / |y| as real && r.diff == r.max - r.min
  }

  lemma SumNothing()
    ensures Sum([]) == 0.0
  {}

  lemma SumNext(y: seq<real>, i: nat)
    requires i < |y|
    ensures Sum(y[..i + 1]) == Sum(y[..i]) + y[i]
  {
    assert y[..i + 1][..i] == y[..i];
  }

  method Statistics(y: array<real>, base: nat, nt: nat) returns (stats: Stats, ghost touched: set<nat>)
    requires 0 < nt && base + nt <= y.Length
    ensures StatsOf(stats, y[base..base + nt]) && touched == Cells(base, base + nt)
  {
    hide Cells, Sum;
    ghost var r := y[base..base + nt];
    var min, max, mean := y[base], y[base], 0.0;
    assert r[0] == y[base];
    CellsEmpty(base);
    SumNothing();
    touched := {};
    var i := 0;
    while i < nt
      invariant 0 <= i <= nt && mean == Sum(r[..i])
      invariant min in r && max in r && min <= max
      invariant forall k :: 0 <= k < i ==> min <= r[k] <= max
      invariant touched == Cells(base, base + i)
    {
      assert y[base + i] == r[i];
      SumNext(r, i);
      CellsGrow(base, base + i);
      mean := mean + y[base + i];
      if y[base + i] > max {
        max := y[base + i];
      } else if y[base + i] < min {
        min := y[base + i];
      }
      touched := touched + {base + i};
      i := i + 1;
    }
    assert r[..i] == r;
    assert |r| == nt;
    stats := Stats(min, max, mean / nt as real, max - min);
  }

  /** All loops, with both pointers at cell `base` of their memory. They touch the cells from there
      on, as many as they reach, and gain the nt cells of y from there on. */
  method Loops(y: array<real>, x: array<real>, base: nat, nt: nat, window: nat)
    returns (stats: Stats, ghost touched: set<nat>)
    requires y != x && base + nt <= y.Length && base + Reach(nt, window) <= x.Length
    requires Fits(nt, window) && Alive(x[base..], nt, window)
    modifies y
    ensures Done(y[base..], x[base..], nt, window, nt) && y[..base] == old(y[..base])
    ensures StatsOf(stats, y[base..base + nt])
    ensures touched == Cells(base, base + Reach(nt, window))
  {
    hide WindowNorm, Alive, Divisor, Done, Cells;
    ghost var m := x[base..];
    var l1norm;
    ghost var t1, t2, t3, t4, t5;
    EndDivisors(m, nt, window);
    l1norm, t1 := FirstNorm(x, base, window);
    DoneNothing(y[base..], m, nt, window);
    t2 := Taper(y, x, base, nt, window, l1norm, 0, window / 2);
    l1norm, t3 := Slide(y, x, base, nt, window, l1norm);
    t4 := Taper(y, x, base, nt, window, l1norm, nt - window / 2, nt);
    stats, t5 := Statistics(y, base, nt);
    touched := t1 + t2 + t3 + t4 + t5;
    TouchedTogether(t3, base, nt, window);
  }

  lemma DoneNothing(y: seq<real>, x: seq<real>, nt: nat, window: nat)
    requires nt <= |y| && Fits(nt, window) && Reach(nt, window) <= |x| && Alive(x, nt, window)
    ensures Done(y, x, nt, window, 0)
  {}

  /** The first and the last half window share one divisor each. */
  lemma EndDivisors(x: seq<real>, nt: nat, window: nat)
    requires Fits(nt, window) && Reach(nt, window) <= |x| && Alive(x, nt, window)
    ensures forall i :: 0 <= i < window / 2 ==> WindowNorm(x, 0, window) == Divisor(x, nt, window, i)
    ensures forall i :: nt - window / 2 <= i < nt && window / 2 <= i ==>
      WindowNorm(x, nt - window / 2 - window / 2, window) == Divisor(x, nt, window, i)
  {}

  lemma TouchedTogether(t3: set<nat>, base: nat, nt: nat, window: nat)
    requires Fits(nt, window) && t3 + Cells(base, base + window) == Cells(base, base + Reach(nt, window))
    ensures Cells(base, base + window) + Cells(base + 0, base + window / 2) + t3
            + Cells(base + (nt - window / 2), base + nt) + Cells(base, base + nt)
         == Cells(base, base + Reach(nt, window))
  {}

  /** The loops stay inside the nt cells of the trace exactly when the pointers start at its first
      cell and the window is even. */
  lemma TouchesTraceOnly(base: nat, nt: nat, window: nat)
    requires Fits(nt, window)
    ensures Cells(base, base + Reach(nt, window)) <= Cells(0, nt) <==> base == 0 && window % 2 == 0
  {
    var touched := Cells(base, base + Reach(nt, window));
    assert base + Reach(nt, window) - 1 in touched;
  }

  /** The routine as its comments describe it: the pointers at the start of the trace. */
  method Gain(y: array<real>, window: nat) returns (stats: Stats, ghost touched: set<nat>)
    requires Fits(y.Length, window) && window % 2 == 0 && Alive(y[..], y.Length, window)
    modifies y
    ensures y.Length > 0 && forall i :: 0 <= i < y.Length ==> y[i] == Gained(old(y[..]), y.Length, window, i)
    ensures Gains(y[..], old(y[..]), window)
    ensures StatsOf(stats, y[..]) && touched <= Cells(0, y.Length)
  {
    hide WindowNorm, Alive, Gained, Norm, Gains;
    var nt := y.Length;
    ghost var was := y[..];
    var x := new real[nt](i requires 0 <= i < nt reads y => y[i]);
    assert x[..] == was && x[0..] == was;
    TouchesTraceOnly(0, nt, window);
    stats, touched := Loops(y, x, 0, nt, window);
    assert y[0..] == y[..] == y[0..0 + nt];
    GainedGains(y[..], was, window);
  }

  /** The routine as it stands: both pointers are moved by nt before the loops, so that they start
      behind the nt cells of the trace. The memory behind the trace is an input. No cell of the trace
      is touched, and none of its samples is gained. */
  method GainAsWritten(y: array<real>, x: array<real>, nt: nat, window: nat) returns (stats: Stats, ghost touched: set<nat>)
    requires y != x && nt + nt <= y.Length && nt + Reach(nt, window) <= x.Length
    requires Fits(nt, window) && Alive(x[nt..], nt, window)
    modifies y
    ensures y[..nt] == old(y[..nt]) && touched !! Cells(0, nt) && touched != {}
  {
    stats, touched := Loops(y, x, nt, nt, window);
    assert nt in touched;
  }

  /** The gained sample times the sum over its window is the sample: the first window for the first
      half window, the window from half a window before it on for the middle, the last window for the last. */
  lemma GainedTimes(x: seq<real>, nt: nat, window: nat, i: nat)
    requires i < nt && Fits(nt, window) && window % 2 == 0 && nt <= |x| && Alive(x, nt, window)
    ensures var y, w := Gained(x, nt, window, i), window;
      && (i < w / 2 ==> y * Norm(x, 0, w) == x[i])
      && (w / 2 <= i < nt - w / 2 ==> y * Norm(x, i - w / 2 + 1, i + w / 2 + 1) == x[i])
      && (nt - w / 2 <= i && w / 2 <= i ==> y * Norm(x, nt - w, nt) == x[i])
  {
    hide Norm, Alive;
    QuotientTimes(x[i], Divisor(x, nt, window, i));
  }

  /** Every sample of y times the sum over its window is the sample of x. */
  ghost predicate Gains(y: seq<real>, x: seq<real>, window: nat)
    requires |y| == |x| && Fits(|x|, window) && window % 2 == 0
  {
    var nt, h := |x|, window / 2;
    && (forall i :: 0 <= i < h ==> y[i] * Norm(x, 0, window) == x[i])
    && (forall i :: h <= i < nt - h ==> y[i] * Norm(x, i - h + 1, i + h + 1) == x[i])
    && (forall i :: nt - h <= i < nt && h <= i ==> y[i] * Norm(x, nt - window, nt) == x[i])
  }

  lemma GainedGains(y: seq<real>, x: seq<real>, window: nat)
    requires |y| == |x| && Fits(|x|, window) && window % 2 == 0 && Alive(x, |x|, window)
    requires forall i :: 0 <= i < |x| ==> y[i] == Gained(x, |x|, window, i)
    ensures Gains(y, x, window)
  {
    hide Norm, Alive, Gained;
    forall i | 0 <= i < |x|
      ensures i < window / 2 ==> y[i] * Norm(x, 0, window) == x[i]
      ensures window / 2 <= i < |x| - window / 2 ==> y[i] * Norm(x, i - window / 2 + 1, i + window / 2 + 1) == x[i]
      ensures |x| - window / 2 <= i && window / 2 <= i ==> y[i] * Norm(x, |x| - window, |x|) == x[i]
    {
      GainedTimes(x, |x|, window, i);
    }
  }

  lemma QuotientTimes(a: real, b: real)
    requires b != 0.0
    ensures (a / b) * b == a
  {}

  // ----- what the gain does

  lemma {:induction false} NormContains(x: seq<real>, lo: nat, hi: nat, i: nat)
    requires lo <= i < hi <= |x|
    ensures Abs(x[i]) <= Norm(x, lo, hi)
    decreases hi
  {
    if i < hi - 1 { NormContains(x, lo, hi - 1, i); }
  }

  lemma DivMono(a: real, b: real, n: real)
    requires n > 0.0 && a <= b
    ensures a / n <= b / n
  {
    var p := b / n - a / n;
    assert p * n == b - a;
    SignOfFactor(p, n);
  }

  lemma SignOfFactor(p: real, n: real)
    requires n > 0.0 && p * n >= 0.0
    ensures p >= 0.0
  {}

  lemma UnitRatio(n: real)
    requires n != 0.0
    ensures n / n == 1.0 && -n / n == -1.0
  {}

  /** With an even window no gained sample exceeds one. */
  lemma GainBounded(x: seq<real>, nt: nat, window: nat, i: nat)
    requires i < nt <= |x| && Fits(nt, window) && window % 2 == 0 && Alive(x, nt, window)
    ensures -1.0 <= Gained(x, nt, window, i) <= 1.0
  {
    InOwnWindow(nt, window, i);
    var s, n := WindowStart(nt, window, i), Divisor(x, nt, window, i);
    NormContains(x, s, s + window, i);
    DivMono(x[i], n, n);
    DivMono(-n, x[i], n);
    UnitRatio(n);
  }

  ghost function Amplified(c: real, x: seq<real>): (r: seq<real>)
    ensures |r| == |x|
  {
    seq(|x|, i requires 0 <= i < |x| => c * x[i])
  }

  lemma {:induction false} NormAmplified(c: real, x: seq<real>, lo: nat, hi: nat)
    requires c > 0.0 && lo <= hi <= |x|
    ensures Norm(Amplified(c, x), lo, hi) == c * Norm(x, lo, hi)
    decreases hi
  {
    hide Abs;
    if lo == hi {
      assert c * 0.0 == 0.0;
    } else {
      var y := Amplified(c, x);
      NormAmplified(c, x, lo, hi - 1);
      AbsAmplified(c, x[hi - 1], y[hi - 1]);
      Distribute(c, Norm(x, lo, hi - 1), Abs(x[hi - 1]), Norm(x, lo, hi));
      assert Norm(y, lo, hi) == Norm(y, lo, hi - 1) + Abs(y[hi - 1]);
    }
  }

  lemma AbsAmplified(c: real, v: real, u: real)
    requires c > 0.0 && u == c * v
    ensures Abs(u) == c * Abs(v)
  {}

  lemma Distribute(c: real, a: real, b: real, sum: real)
    requires sum == a + b
    ensures c * sum == c * a + c * b
  {}

  lemma RatioAmplified(c: real, a: real, n: real, ca: real, cn: real)
    requires c > 0.0 && n != 0.0 && ca == c * a && cn == c * n
    ensures cn != 0.0 && ca / cn == a / n
  {
    var q := a / n;
    assert q * n == a;
    assert c * a == q * (c * n);
  }

  lemma WindowAmplified(c: real, x: seq<real>, s: nat, window: nat)
    requires c > 0.0 && s + window <= |x| && WindowNorm(x, s, window) != 0.0
    ensures WindowNorm(Amplified(c, x), s, window) == c * WindowNorm(x, s, window)
    ensures WindowNorm(Amplified(c, x), s, window) != 0.0
  {
    hide Norm, Amplified;
    NormAmplified(c, x, s, s + window);
    NonZeroProduct(c, WindowNorm(x, s, window));
  }

  lemma NonZeroProduct(c: real, n: real)
    requires c > 0.0 && n != 0.0
    ensures c * n != 0.0
  {}

  lemma AliveAmplified(c: real, x: seq<real>, nt: nat, window: nat)
    requires c > 0.0 && Fits(nt, window) && Reach(nt, window) <= |x| && Alive(x, nt, window)
    ensures Alive(Amplified(c, x), nt, window)
  {
    hide WindowNorm, Amplified;
    forall s: nat | s <= nt - window / 2 - window / 2
      ensures WindowNorm(Amplified(c, x), s, window) != 0.0
    {
      WindowAmplified(c, x, s, window);
    }
  }

  /** The overall strength of the signal does not matter. */
  lemma GainInvariant(c: real, x: seq<real>, nt: nat, window: nat, i: nat)
    requires c > 0.0 && i < nt && Fits(nt, window) && Reach(nt, window) <= |x| && Alive(x, nt, window)
    ensures Alive(Amplified(c, x), nt, window)
    ensures Gained(Amplified(c, x), nt, window, i) == Gained(x, nt, window, i)
  {
    hide WindowNorm, Alive, WindowStart;
    AliveAmplified(c, x, nt, window);
    StartInside(nt, window, i);
    var n := Divisor(x, nt, window, i);
    WindowAmplified(c, x, WindowStart(nt, window, i), window);
    RatioAmplified(c, x[i], n, Amplified(c, x)[i], Divisor(Amplified(c, x), nt, window, i));
  }
}
