/** The extrema of a magnified trace: a full scan, or an extension of the cached values when the
    window only grew. */
module Magnify {

  const MAX_FLOAT := 340282346638528859811704183484516925440.0

  datatype Amps = Amps(min: real, max: real)

  /** A trace's samples, whether it has gaps, and whether it is measured in counts. */
  datatype Samples = Samples(data: seq<real>, gaps: bool, counts: bool)

  /** The cache: extrema, the window they were found for, and the end of the last full scan. */
  datatype Cache = Cache(amps: Amps, start: int, end: int, scanEnd: int)

  ghost predicate Finite(s: Samples)
  {
    forall i :: 0 <= i < |s.data| ==> -MAX_FLOAT <= s.data[i] <= MAX_FLOAT
  }

  /** A zero sample of a trace with gaps counts as gap filler. */
  predicate Counted(s: Samples, i: int)
    requires 0 <= i < |s.data|
  {
    !(s.gaps && s.data[i] == 0.0)
  }

  // ----- the code on values

  function Visit(s: Samples, i: int, a: Amps): Amps
    requires 0 <= i < |s.data|
  {
    var v := s.data[i];
    if !Counted(s, i) then a
    else if v > a.max && a.min < v then Amps(a.min, v)
    else Amps(if v < a.min then v else a.min, if v > a.max then v else a.max)
  }

  /** The samples lo, ..., hi - 1 in increasing order. */
  function ScanUp(s: Samples, lo: int, hi: int, a: Amps): Amps
    requires 0 <= lo && hi <= |s.data|
    decreases hi - lo
  {
    if hi <= lo then a else Visit(s, hi - 1, ScanUp(s, lo, hi - 1, a))
  }

  /** The samples hi, ..., lo + 1 in decreasing order. */
  function ScanDown(s: Samples, lo: int, hi: int, a: Amps): Amps
    requires -1 <= lo && hi < |s.data|
    decreases hi - lo
  {
    if hi <= lo then a else Visit(s, lo + 1, ScanDown(s, lo + 1, hi, a))
  }

  /** Adjustments for display: a flat line, no sample at all, an odd range of counts. */
  function Widened(a: Amps, counts: bool): Amps
  {
    var b := if a.max == a.min then Amps(a.min - 1.0, a.max + 1.0) else a;
    var c := if b.max == -MAX_FLOAT && b.min == MAX_FLOAT then Amps(-1.0, 1.0) else b;
    if counts && c.max - c.min >= 2.0 && (2 * ((c.max - c.min) / 2.0).Floor) as real != c.max - c.min
    then c.(max := c.max + 1.0) else c
  }

  predicate ZoomsOut(c: Cache, init: bool, start: int, end: int)
  {
    !init && start > 0 && c.start >= start && c.end <= end && c.amps.min != MAX_FLOAT && c.amps.max != -MAX_FLOAT
  }

  predicate InRange(s: Samples, start: int, end: int) { 0 <= start <= end < |s.data| }

  /** The window of the cache lies in the samples. */
  predicate Usable(s: Samples, c: Cache) { InRange(s, c.start, c.end) }

  /** The extrema before the display adjustments. */
  function Scanned(s: Samples, c: Cache, init: bool, start: int, end: int): Amps
    requires InRange(s, start, end) && Usable(s, c)
  {
    if ZoomsOut(c, init, start, end) then ScanDown(s, c.end, end, ScanUp(s, start, c.start, c.amps))
    else ScanUp(s, start, end, Amps(MAX_FLOAT, -MAX_FLOAT))
  }

  function Refreshed(s: Samples, c: Cache, init: bool, start: int, end: int): (r: Cache)
    requires InRange(s, start, end) && Usable(s, c)
    ensures Usable(s, r)
  {
    Cache(Widened(Scanned(s, c, init, start, end), s.counts), start, end,
          if ZoomsOut(c, init, start, end) then c.scanEnd else end)
  }

  // ----- extrema of a set of samples

  /** No counted sample of the set lies outside the extrema. */
  ghost predicate Bounds(s: Samples, range: set<int>, a: Amps)
  {
    forall i :: i in range && 0 <= i < |s.data| && Counted(s, i) ==> a.min <= s.data[i] <= a.max
  }

  /** a holds the least and the greatest counted sample of the set, or the start values if there is none. */
  ghost predicate Extrema(s: Samples, range: set<int>, a: Amps)
  {
    && Bounds(s, range, a)
    && if forall i :: i in range && 0 <= i < |s.data| ==> !Counted(s, i) then a == Amps(MAX_FLOAT, -MAX_FLOAT)
       else (exists i :: i in range && 0 <= i < |s.data| && Counted(s, i) && s.data[i] == a.min)
            && (exists i :: i in range && 0 <= i < |s.data| && Counted(s, i) && s.data[i] == a.max)
  }

  lemma VisitBounds(s: Samples, range: set<int>, i: int, a: Amps)
    requires Bounds(s, range, a) && 0 <= i < |s.data|
    ensures Bounds(s, range + {i}, Visit(s, i, a))
  {}

  lemma VisitExtrema(s: Samples, range: set<int>, i: int, a: Amps)
    requires Finite(s) && Extrema(s, range, a) && 0 <= i < |s.data|
    ensures Extrema(s, range + {i}, Visit(s, i, a))
  {
    VisitBounds(s, range, i, a);
    var b, r := Visit(s, i, a), range + {i};
    if !Counted(s, i) {
      assert forall k :: k in r && 0 <= k < |s.data| && Counted(s, k) ==> k in range;
      assert forall k :: k in range ==> k in r;
    } else {
      assert i in r;
      if exists k :: k in range && 0 <= k < |s.data| && Counted(s, k) {
        var k :| k in range && 0 <= k < |s.data| && Counted(s, k) && s.data[k] == a.min;
        var l :| l in range && 0 <= l < |s.data| && Counted(s, l) && s.data[l] == a.max;
        assert k in r && l in r;
        assert s.data[if b.min == a.min then k else i] == b.min;
        assert s.data[if b.max == a.max then l else i] == b.max;
      }
    }
  }

  /** The indices lo, ..., hi - 1. */
  function Span(lo: int, hi: int): (r: set<int>)
    ensures forall i :: i in r <==> lo <= i < hi
    decreases hi - lo
  {
    if hi <= lo then {} else Span(lo, hi - 1) + {hi - 1}
  }

  /** The whole window except one index. */
  function Window(start: int, end: int, skip: int): set<int> { Span(start, end + 1) - {skip} }

  lemma {:induction false} ScanUpExtrema(s: Samples, range: set<int>, lo: int, hi: int, a: Amps)
    requires 0 <= lo && hi <= |s.data| && Bounds(s, range, a)
    ensures Bounds(s, range + Span(lo, hi), ScanUp(s, lo, hi, a))
    ensures Finite(s) && Extrema(s, range, a) ==> Extrema(s, range + Span(lo, hi), ScanUp(s, lo, hi, a))
    decreases hi - lo
  {
    hide Visit, Bounds, Extrema, Finite;
    if hi <= lo {
      assert range + Span(lo, hi) == range;
    } else {
      ScanUpExtrema(s, range, lo, hi - 1, a);
      var b := ScanUp(s, lo, hi - 1, a);
      VisitBounds(s, range + Span(lo, hi - 1), hi - 1, b);
      if Finite(s) && Extrema(s, range, a) { VisitExtrema(s, range + Span(lo, hi - 1), hi - 1, b); }
      assert range + Span(lo, hi - 1) + {hi - 1} == range + Span(lo, hi);
    }
  }

  lemma {:induction false} ScanDownExtrema(s: Samples, range: set<int>, lo: int, hi: int, a: Amps)
    requires -1 <= lo && hi < |s.data| && Bounds(s, range, a)
    ensures Bounds(s, range + Span(lo + 1, hi + 1), ScanDown(s, lo, hi, a))
    ensures Finite(s) && Extrema(s, range, a) ==> Extrema(s, range + Span(lo + 1, hi + 1), ScanDown(s, lo, hi, a))
    decreases hi - lo
  {
    hide Visit, Bounds, Extrema, Finite;
    if hi <= lo {
      assert range + Span(lo + 1, hi + 1) == range;
    } else {
      ScanDownExtrema(s, range, lo + 1, hi, a);
      var b := ScanDown(s, lo + 1, hi, a);
      VisitBounds(s, range + Span(lo + 2, hi + 1), lo + 1, b);
      if Finite(s) && Extrema(s, range, a) { VisitExtrema(s, range + Span(lo + 2, hi + 1), lo + 1, b); }
      assert range + Span(lo + 2, hi + 1) + {lo + 1} == range + Span(lo + 1, hi + 1);
    }
  }

  /** What the adjustments are for: the displayed range is never empty and holds the extrema. */
  lemma WidenedRange(a: Amps, counts: bool)
    requires a.min <= a.max || a == Amps(MAX_FLOAT, -MAX_FLOAT)
    ensures var w := Widened(a, counts);
      w.min < w.max && (a.min <= a.max ==> w.min <= a.min && a.max <= w.max)
  {}

  /** The adjustments of an integer range: a flat line gets a range of two, an odd range of three or
      more grows by one, so that it can be halved without a fraction. */
  lemma WidenedCounts(lo: int, hi: int)
    requires lo <= hi
    ensures Widened(Amps(lo as real, hi as real), true)
         == if lo == hi then Amps((lo - 1) as real, (hi + 1) as real)
            else if hi - lo >= 2 && (hi - lo) % 2 == 1 then Amps(lo as real, (hi + 1) as real)
            else Amps(lo as real, hi as real)
  {
    var w := if lo == hi then 2 else hi - lo;
    HalfFloor(w);
    TwiceHalf(w);
  }

  lemma TwiceHalf(k: int)
    ensures (2 * (k / 2)) as real == k as real <==> k % 2 == 0
  {}

  lemma HalfFloor(k: int)
    ensures (k as real / 2.0).Floor == k / 2
  {}

  /** The range min to max shown for extrema a: nothing on display gets -1 to 1, a flat line one more
      on either side, counts that differ by two or more an even difference. */
  ghost predicate Displayed(a: Amps, counts: bool, min: real, max: real)
  {
    if a == Amps(MAX_FLOAT, -MAX_FLOAT) then min == -1.0 && max == 1.0
    else if a.min == a.max then min == a.min - 1.0 && max == a.max + 1.0
    else min == a.min && max == if counts && a.max - a.min >= 2.0 && !EvenReal(a.max - a.min) then a.max + 1.0 else a.max
  }

  ghost predicate EvenReal(d: real) { exists k: int :: d == Twice(k) }

  function Twice(k: int): real { (k + k) as real }

  lemma WidenedDisplayed(a: Amps, counts: bool)
    requires a.min <= a.max || a == Amps(MAX_FLOAT, -MAX_FLOAT)
    ensures var w := Widened(a, counts); Displayed(a, counts, w.min, w.max)
  {
    EvenHalf(a.max - a.min);
    EvenHalf(2.0);
    assert Twice(1) == 2.0;
  }

  lemma EvenHalf(d: real)
    ensures (2 * (d / 2.0).Floor) as real == d <==> EvenReal(d)
  {
    var h := (d / 2.0).Floor;
    if (2 * h) as real == d { assert d == Twice(h); }
    if k: int :| d == Twice(k) { assert d / 2.0 == k as real; }
  }

  /** MAX_FLOAT is the greatest 32-bit floating point number: 2^24 - 1 times 2^104. */
  lemma MaxFloat()
    ensures MAX_FLOAT == (0xFF_FFFF * 0x100_0000_0000_0000_0000_0000_0000) as real
  {}

  // ----- when the whole window is scanned

  /** Not a zero of a trace with gaps. */
  predicate Measured(s: Samples, i: int)
    requires 0 <= i < |s.data|
  {
    s.data[i] != 0.0 || !s.gaps
  }

  /** min and max are the least and the greatest of the samples lo, ..., hi - 1, without the zeros of
      a trace with gaps, or the values a scan starts with if there are none. */
  ghost predicate MinMax(s: Samples, lo: int, hi: int, min: real, max: real)
    requires 0 <= lo && hi <= |s.data|
  {
    if exists i :: lo <= i < hi && Measured(s, i) then
      && (forall i :: lo <= i < hi && Measured(s, i) ==> min <= s.data[i] <= max)
      && (exists i :: lo <= i < hi && Measured(s, i) && s.data[i] == min)
      && (exists i :: lo <= i < hi && Measured(s, i) && s.data[i] == max)
    else min == MAX_FLOAT && max == -MAX_FLOAT
  }

  /** Extrema of a span, without the names they are defined by. */
  lemma ExtremaMeaning(s: Samples, lo: int, hi: int, a: Amps)
    requires 0 <= lo && hi <= |s.data| && Extrema(s, Span(lo, hi), a)
    ensures MinMax(s, lo, hi, a.min, a.max)
  {
    assert forall i :: lo <= i < hi ==> i in Span(lo, hi);
    assert forall i :: 0 <= i < |s.data| ==> (Counted(s, i) <==> Measured(s, i));
    assert forall i :: 0 <= i < |s.data| ==> (Measured(s, i) <==> Counted(s, i));
  }

  /** A refresh scans the whole window but its last sample on the first call, for a window that begins
      at the first sample, for one that left samples of the last window out, and after start values. */
  lemma RescanMeaning(s: Samples, c: Cache, init: bool, start: int, end: int)
    requires Finite(s) && InRange(s, start, end) && Usable(s, c)
    requires init || start == 0 || c.start < start || end < c.end || c.amps.min == MAX_FLOAT || c.amps.max == -MAX_FLOAT
    ensures var a := Scanned(s, c, init, start, end); MinMax(s, start, end, a.min, a.max)
    ensures Refreshed(s, c, init, start, end).scanEnd == end
  {
    hide Finite, Extrema, Scanned, MinMax;
    FullScan(s, c, init, start, end);
    assert Window(start, end, end) == Span(start, end);
    ExtremaMeaning(s, start, end, Scanned(s, c, init, start, end));
  }

  /** a are the values of the cache, moved no further than by the samples added at both ends. */
  ghost predicate Extended(s: Samples, c: Cache, start: int, end: int, a: Amps)
    requires InRange(s, start, end) && Usable(s, c)
  {
    && a.min <= c.amps.min && c.amps.max <= a.max
    && (forall i :: (start <= i < c.start || c.end < i <= end) && Measured(s, i) ==> a.min <= s.data[i] <= a.max)
    && (a.min != c.amps.min ==> exists i :: (start <= i < c.start || c.end < i <= end) && s.data[i] == a.min)
    && (a.max != c.amps.max ==> exists i :: (start <= i < c.start || c.end < i <= end) && s.data[i] == a.max)
  }

  /** Any other refresh keeps what it has, and looks only at the samples that were added. */
  lemma ExtensionMeaning(s: Samples, c: Cache, init: bool, start: int, end: int)
    requires Finite(s) && InRange(s, start, end) && Usable(s, c)
    requires !init && start > 0 && start <= c.start && c.end <= end && c.amps.min != MAX_FLOAT && c.amps.max != -MAX_FLOAT
    requires c.amps.min <= c.amps.max
    ensures Extended(s, c, start, end, Scanned(s, c, init, start, end))
    ensures Refreshed(s, c, init, start, end).scanEnd == c.scanEnd
  {
    hide Visit, Widened;
    var b := ScanUp(s, start, c.start, c.amps);
    ScanUpFrom(s, start, c.start, c.amps);
    ScanDownFrom(s, c.end, end, b);
  }

  lemma MinMaxOrdered(s: Samples, lo: int, hi: int, a: Amps)
    requires 0 <= lo && hi <= |s.data| && MinMax(s, lo, hi, a.min, a.max)
    ensures a.min <= a.max || a == Amps(MAX_FLOAT, -MAX_FLOAT)
  {
    if i :| lo <= i < hi && Measured(s, i) {
      assert a.min <= s.data[i] <= a.max;
    }
  }

  /** The displayed range after any refresh. */
  lemma RefreshShows(s: Samples, c: Cache, init: bool, start: int, end: int)
    requires Finite(s) && InRange(s, start, end) && Usable(s, c) && c.amps.min <= c.amps.max
    ensures var a, r := Scanned(s, c, init, start, end), Refreshed(s, c, init, start, end);
      && Displayed(a, s.counts, r.amps.min, r.amps.max)
      && if init || start == 0 || c.start < start || end < c.end || c.amps.min == MAX_FLOAT || c.amps.max == -MAX_FLOAT
         then MinMax(s, start, end, a.min, a.max) else Extended(s, c, start, end, a)
  {
    hide Scanned, Widened, Displayed, MinMax;
    var a := Scanned(s, c, init, start, end);
    if init || start == 0 || c.start < start || end < c.end || c.amps.min == MAX_FLOAT || c.amps.max == -MAX_FLOAT {
      RescanMeaning(s, c, init, start, end);
      MinMaxOrdered(s, start, end, a);
    } else {
      ExtensionMeaning(s, c, init, start, end);
    }
    WidenedDisplayed(a, s.counts);
  }

  /** What a scan makes of given values. */
  ghost predicate Grown(s: Samples, lo: int, hi: int, a: Amps, b: Amps)
    requires 0 <= lo && hi <= |s.data|
  {
    && b.min <= a.min && a.max <= b.max && b.min <= b.max
    && (forall i :: lo <= i < hi && Counted(s, i) ==> b.min <= s.data[i] <= b.max)
    && (b.min != a.min ==> exists i :: lo <= i < hi && s.data[i] == b.min)
    && (b.max != a.max ==> exists i :: lo <= i < hi && s.data[i] == b.max)
  }

  lemma {:induction false} ScanUpFrom(s: Samples, lo: int, hi: int, a: Amps)
    requires 0 <= lo && hi <= |s.data| && a.min <= a.max
    ensures Grown(s, lo, hi, a, ScanUp(s, lo, hi, a))
    decreases hi - lo
  {
    if lo < hi { ScanUpFrom(s, lo, hi - 1, a); }
  }

  lemma {:induction false} ScanDownFrom(s: Samples, lo: int, hi: int, a: Amps)
    requires -1 <= lo && hi < |s.data| && a.min <= a.max
    ensures Grown(s, lo + 1, hi + 1, a, ScanDown(s, lo, hi, a))
    decreases hi - lo
  {
    if lo < hi { ScanDownFrom(s, lo + 1, hi, a); }
  }

  // ----- chains of zoom-outs

  /** The cached values bound the window's samples other than the one at the end of the full scan. */
  ghost predicate Bounding(s: Samples, c: Cache)
  {
    0 <= c.start <= c.scanEnd <= c.end < |s.data| && Bounds(s, Window(c.start, c.end, c.scanEnd), c.amps)
  }

  /** The cached values are exactly the extrema of those samples. */
  ghost predicate Exact(s: Samples, c: Cache)
  {
    0 <= c.start <= c.scanEnd <= c.end < |s.data| && Extrema(s, Window(c.start, c.end, c.scanEnd), c.amps)
  }

  lemma FullScan(s: Samples, c: Cache, init: bool, start: int, end: int)
    requires InRange(s, start, end) && Usable(s, c) && !ZoomsOut(c, init, start, end)
    ensures var a := Scanned(s, c, init, start, end);
      Bounds(s, Window(start, end, end), a) && (Finite(s) ==> Extrema(s, Window(start, end, end), a))
  {
    hide Visit, Finite;
    ScanUpExtrema(s, {}, start, end, Amps(MAX_FLOAT, -MAX_FLOAT));
    assert {} + Span(start, end) == Window(start, end, end);
  }

  lemma Extension(s: Samples, c: Cache, init: bool, start: int, end: int)
    requires InRange(s, start, end) && ZoomsOut(c, init, start, end) && Bounding(s, c)
    ensures var a := Scanned(s, c, init, start, end);
      && Bounds(s, Window(start, end, c.scanEnd), a)
      && (Finite(s) && Exact(s, c) ==> Extrema(s, Window(start, end, c.scanEnd), a))
  {
    hide Visit, Finite, Bounds, Extrema;
    var w := Window(c.start, c.end, c.scanEnd);
    ScanUpExtrema(s, w, start, c.start, c.amps);
    ScanDownExtrema(s, w + Span(start, c.start), c.end, end, ScanUp(s, start, c.start, c.amps));
    assert w + Span(start, c.start) + Span(c.end + 1, end + 1) == Window(start, end, c.scanEnd);
  }

  lemma WidenedBounds(s: Samples, range: set<int>, a: Amps)
    requires Bounds(s, range, a)
    ensures Bounds(s, range, Widened(a, s.counts))
  {
    if a.max == -MAX_FLOAT && a.min == MAX_FLOAT {
      assert forall i :: i in range && 0 <= i < |s.data| ==> !Counted(s, i);
    }
  }

  /** No display adjustment fires. */
  predicate Unadjusted(s: Samples, a: Amps) { Widened(a, s.counts) == a }

  /** A refresh keeps the bounds, and the exact extrema as long as no display adjustment fires. */
  lemma RefreshKeeps(s: Samples, c: Cache, init: bool, start: int, end: int)
    requires Finite(s) && InRange(s, start, end) && Usable(s, c)
    requires ZoomsOut(c, init, start, end) ==> Bounding(s, c)
    ensures var r := Refreshed(s, c, init, start, end);
      && Bounding(s, r)
      && ((ZoomsOut(c, init, start, end) ==> Exact(s, c)) && Unadjusted(s, Scanned(s, c, init, start, end)) ==> Exact(s, r))
  {
    hide Finite, Bounds, Extrema, Widened, Scanned;
    var a := Scanned(s, c, init, start, end);
    if ZoomsOut(c, init, start, end) {
      Extension(s, c, init, start, end);
      WidenedBounds(s, Window(start, end, c.scanEnd), a);
    } else {
      FullScan(s, c, init, start, end);
      WidenedBounds(s, Window(start, end, end), a);
    }
  }

  /** Windows that are refreshed one after the other. */
  datatype View = View(start: int, end: int)

  ghost predicate ZoomChain(s: Samples, c: Cache, views: seq<View>)
    requires Usable(s, c)
    decreases |views|
  {
    views == [] || (InRange(s, views[0].start, views[0].end) && ZoomsOut(c, false, views[0].start, views[0].end)
                    && ZoomChain(s, Refreshed(s, c, false, views[0].start, views[0].end), views[1..]))
  }

  ghost predicate ChainUnadjusted(s: Samples, c: Cache, views: seq<View>)
    requires Usable(s, c) && ZoomChain(s, c, views)
    decreases |views|
  {
    views == [] || (Unadjusted(s, Scanned(s, c, false, views[0].start, views[0].end))
                    && ChainUnadjusted(s, Refreshed(s, c, false, views[0].start, views[0].end), views[1..]))
  }

  ghost function AfterChain(s: Samples, c: Cache, views: seq<View>): (r: Cache)
    requires Usable(s, c) && ZoomChain(s, c, views)
    decreases |views|
  {
    if views == [] then c
    else AfterChain(s, Refreshed(s, c, false, views[0].start, views[0].end), views[1..])
  }

  /** Along any chain of zoom-outs after a full scan the cache bounds the samples, and holds their
      exact extrema while no display adjustment fires; the sample at the end of the full scan is
      never looked at. */
  lemma {:induction false} ChainKeeps(s: Samples, c: Cache, views: seq<View>)
    requires Finite(s) && Usable(s, c) && ZoomChain(s, c, views) && Bounding(s, c)
    ensures Bounding(s, AfterChain(s, c, views)) && AfterChain(s, c, views).scanEnd == c.scanEnd
    ensures Exact(s, c) && ChainUnadjusted(s, c, views) ==> Exact(s, AfterChain(s, c, views))
    decreases |views|
  {
    hide Finite, Bounds, Extrema, Widened, Scanned, Unadjusted, ZoomsOut, Bounding, Exact;
    if views != [] {
      RefreshKeeps(s, c, false, views[0].start, views[0].end);
      ChainKeeps(s, Refreshed(s, c, false, views[0].start, views[0].end), views[1..]);
    }
  }

  /** Sample e is gap filler, or two other counted samples of the set lie on either side of its value. */
  ghost predicate Harmless(s: Samples, range: set<int>, e: int)
    requires 0 <= e < |s.data|
  {
    !Counted(s, e) || (exists i, j :: InOthers(s, range, e, i) && InOthers(s, range, e, j)
                                      && s.data[i] <= s.data[e] <= s.data[j])
  }

  /** Index i of the set is a counted sample other than e. */
  ghost predicate InOthers(s: Samples, range: set<int>, e: int, i: int)
  {
    i in range && i != e && 0 <= i < |s.data| && Counted(s, i)
  }

  /** Extrema of all samples but one are extrema of all exactly when that one is harmless. */
  lemma OneMore(s: Samples, range: set<int>, e: int, a: Amps)
    requires Finite(s) && e in range && 0 <= e < |s.data| && Extrema(s, range - {e}, a)
    ensures Extrema(s, range, a) <==> Harmless(s, range, e)
  {
    var others := range - {e};
    assert forall i :: InOthers(s, range, e, i) ==> i in others;
    assert forall i :: i in range ==> i in others || i == e;
    if Extrema(s, range, a) && Counted(s, e) {
      AttainedByOther(s, range, e, a);
    }
    if Harmless(s, range, e) {
      assert Bounds(s, range, a);
    }
  }

  /** If a counted sample lies inside extrema of the others, some of the others attain them. */
  lemma AttainedByOther(s: Samples, range: set<int>, e: int, a: Amps)
    requires Finite(s) && 0 <= e < |s.data| && Extrema(s, range - {e}, a) && Counted(s, e)
    requires a.min <= s.data[e] <= a.max
    ensures Harmless(s, range, e)
  {
    var others := range - {e};
    if i :| i in others && 0 <= i < |s.data| && Counted(s, i) {
      var l :| l in others && 0 <= l < |s.data| && Counted(s, l) && s.data[l] == a.min;
      var h :| h in others && 0 <= h < |s.data| && Counted(s, h) && s.data[h] == a.max;
      assert InOthers(s, range, e, l) && InOthers(s, range, e, h);
    }
  }

  /** A full scan of start..end, then any chain of zoom-outs, with no display adjustment on the way:
      the cached values are the extrema of the whole window exactly when the sample at the end of the
      full scan is harmless. */
  lemma SkippedSample(s: Samples, before: Cache, init: bool, start: int, end: int, views: seq<View>)
    requires Finite(s) && InRange(s, start, end) && Usable(s, before) && !ZoomsOut(before, init, start, end)
    requires Unadjusted(s, Scanned(s, before, init, start, end))
    requires var c := Refreshed(s, before, init, start, end); ZoomChain(s, c, views) && ChainUnadjusted(s, c, views)
    ensures var r := AfterChain(s, Refreshed(s, before, init, start, end), views);
      Extrema(s, Span(r.start, r.end + 1), r.amps) <==> Harmless(s, Span(r.start, r.end + 1), end)
  {
    hide Finite, Bounds, Extrema, Widened, Scanned, Unadjusted, ZoomChain, ChainUnadjusted, AfterChain, Harmless;
    var c := Refreshed(s, before, init, start, end);
    RefreshKeeps(s, before, init, start, end);
    ChainKeeps(s, c, views);
    var r := AfterChain(s, c, views);
    OneMore(s, Span(r.start, r.end + 1), end, r.amps);
  }

  /** A run without adjustments in which the greatest sample of the window is never looked at. */
  lemma SkippedExample()
    ensures var s := Samples([0.0, 1.0, 4.0, 9.0, 2.0], false, false);
      var c := Refreshed(s, Cache(Amps(0.0, 0.0), 0, 0, 0), true, 1, 3);
      && ZoomsOut(c, false, 1, 4) && c.amps == Amps(1.0, 4.0) && Refreshed(s, c, false, 1, 4).amps == Amps(1.0, 4.0)
      && !Bounds(s, Span(1, 5), Refreshed(s, c, false, 1, 4).amps)
  {
    var s := Samples([0.0, 1.0, 4.0, 9.0, 2.0], false, false);
    var none := Amps(MAX_FLOAT, -MAX_FLOAT);
    assert ScanUp(s, 1, 1, none) == none;
    assert ScanUp(s, 1, 2, none) == Visit(s, 1, none) == Amps(1.0, 1.0);
    assert ScanUp(s, 1, 3, none) == Visit(s, 2, Amps(1.0, 1.0)) == Amps(1.0, 4.0);
    var a := Amps(1.0, 4.0);
    assert ScanUp(s, 1, 1, a) == a && ScanDown(s, 4, 4, a) == a;
    assert ScanDown(s, 3, 4, a) == Visit(s, 4, a) == a;
    assert 3 in Span(1, 5) && Counted(s, 3) && s.data[3] == 9.0;
  }

  // ----- the trace

  class MagnifiedTrace {
    const samples: Samples
    var min: real
    var max: real
    var ptsStart: int
    var ptsEnd: int
    ghost var scanEnd: int

    constructor (samples: Samples)
      ensures this.samples == samples && State() == Cache(Amps(0.0, 0.0), 0, 0, 0)
    {
      this.samples := samples;
      min, max, ptsStart, ptsEnd, scanEnd := 0.0, 0.0, 0, 0, 0;
    }

    ghost function State(): Cache
      reads this
    {
      Cache(Amps(min, max), ptsStart, ptsEnd, scanEnd)
    }

    /** One sample of a scan. */
    method Consider(ptInc: int)
      requires 0 <= ptInc < |samples.data|
      modifies this`min, this`max
      ensures Amps(min, max) == Visit(samples, ptInc, old(Amps(min, max)))
    {
      var dataV := samples.data[ptInc];
      if samples.gaps {
        if dataV == 0.0 { return; }
      }
      if dataV > max {
        max := dataV;
        if min < max { return; }
      }
      if dataV < min { min := dataV; }
    }

    /** Look at every sample from start up to the end, which is left out. */
    method ScanWindow(start: int, end: int)
      requires InRange(samples, start, end)
      modifies this`min, this`max
      ensures Amps(min, max) == ScanUp(samples, start, end, Amps(MAX_FLOAT, -MAX_FLOAT))
    {
      min, max := MAX_FLOAT, -MAX_FLOAT;
      var ptInc := start;
      while ptInc < end
        invariant start <= ptInc <= end
        invariant Amps(min, max) == ScanUp(samples, start, ptInc, Amps(MAX_FLOAT, -MAX_FLOAT))
      {
        Consider(ptInc);
        ptInc := ptInc + 1;
      }
    }

    /** Look only at the samples before and after the cached window. */
    method Extend(start: int, end: int)
      requires InRange(samples, start, end) && start <= ptsStart <= ptsEnd <= end
      modifies this`min, this`max
      ensures Amps(min, max) == ScanDown(samples, ptsEnd, end, ScanUp(samples, start, ptsStart, old(Amps(min, max))))
    {
      ghost var a := Amps(min, max);
      var ptInc := start;
      while ptInc < ptsStart
        invariant start <= ptInc <= ptsStart
        invariant Amps(min, max) == ScanUp(samples, start, ptInc, a)
      {
        Consider(ptInc);
        ptInc := ptInc + 1;
      }
      a := Amps(min, max);
      ptInc := end;
      while ptInc > ptsEnd
        invariant ptsEnd <= ptInc <= end
        invariant Amps(min, max) == ScanDown(samples, ptInc, end, a)
      {
        Consider(ptInc);
        ptInc := ptInc - 1;
      }
    }

    /** The display adjustments. */
    method Adjust()
      modifies this`min, this`max
      ensures Amps(min, max) == Widened(old(Amps(min, max)), samples.counts)
    {
      if max == min {
        max := max + 1.0;
        min := min - 1.0;
      }
      if max == -MAX_FLOAT && min == MAX_FLOAT {
        min, max := -1.0, 1.0;
      }
      if samples.counts {
        if max - min >= 2.0 {
          var half := ((max - min) / 2.0).Floor;
          if (half * 2) as real != max - min {
            max := max + 1.0;
          }
        }
      }
    }

    /** The extrema of the window start..end, for display. */
    method GetMaxMin(init: bool, start: int, end: int)
      requires InRange(samples, start, end) && Usable(samples, State())
      modifies this
      ensures State() == Refreshed(samples, old(State()), init, start, end)
      ensures ptsStart == start && ptsEnd == end
      ensures Finite(samples) && old(min <= max) ==> exists a: Amps ::
        && Displayed(a, samples.counts, min, max)
        && if init || start == 0 || old(ptsStart < start || end < ptsEnd || min == MAX_FLOAT || max == -MAX_FLOAT)
           then MinMax(samples, start, end, a.min, a.max)
           else Extended(samples, old(State()), start, end, a)
    {
      if Finite(samples) && min <= max { RefreshShows(samples, State(), init, start, end); }
      hide Widened, ScanUp, ScanDown, Displayed, MinMax, Extended;
      var zoomOut := !init && start > 0 && ptsStart >= start && ptsEnd <= end && min != MAX_FLOAT && max != -MAX_FLOAT;
      if !zoomOut {
        ScanWindow(start, end);
        scanEnd := end;
      } else {
        Extend(start, end);
      }
      ptsStart, ptsEnd := start, end;
      Adjust();
    }
  }
}
