/** The window of the magnify screen under the zoom and scroll keys. */
module ZoomScroll {

  datatype Anchor = Left | Right | Middle

  /** How the two edges share a zoom step: the table `factors`. */
  function LeftFactor(a: Anchor): real { match a case Left => 0.0 case Right => 2.0 case Middle => 1.0 }

  function RightFactor(a: Anchor): real { match a case Left => 2.0 case Right => 0.0 case Middle => 1.0 }

  datatype Window = Window(left: real, right: real)

  datatype Limits = Limits(xmin: real, xmax: real)

  datatype Key = Zoom(anchor: Anchor, closer: bool) | Scroll(forward: bool)

  /** zoomFactor and scrollFactor are percentages. */
  datatype Settings = Settings(zoomFactor: int, scrollFactor: real)

  predicate Inside(w: Window, l: Limits) { l.xmin <= w.left < w.right <= l.xmax }

  /** reMag: an edge outside the limits is moved to the limit. */
  function Clamped(w: Window, l: Limits): Window
  {
    Window(if w.left < l.xmin then l.xmin else w.left, if w.right > l.xmax then l.xmax else w.right)
  }

  /** The part of the window each edge moves by, for a factor of one: zoomFactor percent, with the
      integer division of the code. */
  function ZoomStep(w: Window, zoomFactor: int): real
    requires 0 < zoomFactor <= 100
  {
    (w.right - w.left) / (100 / zoomFactor) as real
  }

  function Zoomed(w: Window, zoomFactor: int, a: Anchor, closer: bool): Window
    requires 0 < zoomFactor <= 100
  {
    var step := if closer then ZoomStep(w, zoomFactor) else -ZoomStep(w, zoomFactor);
    Window(w.left + step * LeftFactor(a), w.right - step * RightFactor(a))
  }

  /** A scroll by d, stopped at the limits with the window's length kept. */
  function Scrolled(w: Window, l: Limits, d: real): Window
  {
    var length := w.right - w.left;
    if w.left + d < l.xmin then Window(l.xmin, l.xmin + length)
    else if w.right + d > l.xmax then Window(l.xmax - length, l.xmax)
    else Window(w.left + d, w.right + d)
  }

  /** scrollFactor percent of the window. */
  function Jump(length: real, scrollFactor: real, forward: bool): real
  {
    var jump := length * scrollFactor / 100.0;
    if forward then jump else -jump
  }

  function Pressed(w: Window, l: Limits, s: Settings, k: Key): Window
    requires 0 < s.zoomFactor <= 100
  {
    match k
    case Zoom(a, closer) => Clamped(Zoomed(w, s.zoomFactor, a, closer), l)
    case Scroll(forward) => Clamped(Scrolled(w, l, Jump(w.right - w.left, s.scrollFactor, forward)), l)
  }

  function Run(w: Window, l: Limits, s: Settings, keys: seq<Key>): Window
    requires 0 < s.zoomFactor <= 100
    decreases |keys|
  {
    if keys == [] then w else Run(Pressed(w, l, s, keys[0]), l, s, keys[1..])
  }

  /** Lengths: zooming in leaves 1 - 2/q of the window, zooming out makes it 1 + 2/q. */
  lemma ZoomLength(w: Window, zoomFactor: int, a: Anchor, closer: bool)
    requires 0 < zoomFactor <= 100 && w.left < w.right
    ensures var z, step := Zoomed(w, zoomFactor, a, closer), ZoomStep(w, zoomFactor);
      && step > 0.0 && z.right - z.left == w.right - w.left - (if closer then 2.0 * step else -2.0 * step)
      && (2.0 * step < w.right - w.left <==> zoomFactor <= 33)
      && step * (100 / zoomFactor) as real == w.right - w.left
  {
    var q, d := 100 / zoomFactor, w.right - w.left;
    var step := ZoomStep(w, zoomFactor);
    Percent(zoomFactor);
    StepShare(d, q, step);
  }

  lemma StepShare(d: real, q: int, step: real)
    requires d > 0.0 && q > 0 && step == d / q as real
    ensures step > 0.0 && (2.0 * step < d <==> q > 2)
  {
    StepOf(d, q as real, step);
    if q > 2 {
      TimesMono(3.0, q as real, step);
    } else {
      TimesMono(q as real, 2.0, step);
    }
  }

  lemma Percent(zoomFactor: int)
    requires 0 < zoomFactor <= 100
    ensures 100 / zoomFactor >= 1 && (100 / zoomFactor > 2 <==> zoomFactor <= 33)
  {}

  lemma StepOf(d: real, q: real, step: real)
    requires d > 0.0 && q > 0.0 && step == d / q
    ensures step > 0.0 && q * step == d
  {}

  lemma TimesMono(a: real, b: real, c: real)
    requires a <= b && c > 0.0
    ensures a * c <= b * c
  {}

  /** One key keeps the window non-empty and inside the limits. */
  lemma KeyKeepsInside(w: Window, l: Limits, s: Settings, k: Key)
    requires Inside(w, l) && 0 < s.zoomFactor <= 33
    ensures Inside(Pressed(w, l, s, k), l)
  {
    match k
    case Zoom(a, closer) => ZoomLength(w, s.zoomFactor, a, closer); ZoomEdges(w, s.zoomFactor, a, closer);
    case Scroll(_) =>
  }

  /** Both edges of a zoomed window stay on their side of the other edge's limit. */
  lemma ZoomEdges(w: Window, zoomFactor: int, a: Anchor, closer: bool)
    requires 0 < zoomFactor <= 33 && w.left < w.right
    ensures var z := Zoomed(w, zoomFactor, a, closer);
      if closer then w.left <= z.left < z.right <= w.right else z.left <= w.left < w.right <= z.right
  {
    ZoomLength(w, zoomFactor, a, closer);
  }

  /** So does every run of keys. */
  lemma {:induction false} RunKeepsInside(w: Window, l: Limits, s: Settings, keys: seq<Key>)
    requires Inside(w, l) && 0 < s.zoomFactor <= 33
    ensures Inside(Run(w, l, s, keys), l)
    decreases |keys|
  {
    if keys != [] {
      KeyKeepsInside(w, l, s, keys[0]);
      RunKeepsInside(Pressed(w, l, s, keys[0]), l, s, keys[1..]);
    }
  }

  /** Every run of keys keeps the window inside the limits exactly for the zoom factors that leave
      something of a window they zoom into. */
  lemma ZoomFactorLimit(w: Window, l: Limits, s: Settings)
    requires Inside(w, l) && 0 < s.zoomFactor <= 100
    ensures (forall keys: seq<Key> :: Inside(Run(w, l, s, keys), l)) <==> s.zoomFactor <= 33
  {
    if s.zoomFactor <= 33 {
      forall keys: seq<Key>
        ensures Inside(Run(w, l, s, keys), l)
      {
        RunKeepsInside(w, l, s, keys);
      }
    } else {
      var keys := [Zoom(Middle, true)];
      ZoomLength(w, s.zoomFactor, Middle, true);
      assert keys[1..] == [];
      assert Run(w, l, s, keys) == Pressed(w, l, s, keys[0]);
      assert !Inside(Run(w, l, s, keys), l);
    }
  }

  /** Scrolling keeps the length, and an unclamped zoom keeps its anchor. */
  lemma AnchorsKept(w: Window, l: Limits, s: Settings, k: Key)
    requires Inside(w, l) && 0 < s.zoomFactor <= 33
    ensures var r := Pressed(w, l, s, k);
      match k
      case Scroll(_) => r.right - r.left == w.right - w.left
      case Zoom(a, closer) =>
        r == Zoomed(w, s.zoomFactor, a, closer) ==>
          (match a case Left => r.left == w.left case Right => r.right == w.right
                   case Middle => r.left + r.right == w.left + w.right)
  {}

  /** Where a scroll leads: scrollFactor percent of the window to the right or to the left, or to the
      limit on that side. */
  lemma ScrollLands(w: Window, l: Limits, s: Settings, forward: bool)
    requires Inside(w, l) && 0 < s.zoomFactor <= 33 && s.scrollFactor >= 0.0
    ensures var r, d := Pressed(w, l, s, Scroll(forward)), w.right - w.left;
      if forward then
        r.right == (if 100.0 * (l.xmax - w.right) < d * s.scrollFactor then l.xmax else w.right + d * s.scrollFactor / 100.0)
      else
        r.left == (if 100.0 * (w.left - l.xmin) < d * s.scrollFactor then l.xmin else w.left - d * s.scrollFactor / 100.0)
  {
    hide Jump;
    JumpOf(w.right - w.left, s.scrollFactor, forward);
  }

  lemma JumpOf(length: real, scrollFactor: real, forward: bool)
    requires length > 0.0 && scrollFactor >= 0.0
    ensures length * scrollFactor >= 0.0
    ensures Jump(length, scrollFactor, forward)
         == if forward then length * scrollFactor / 100.0 else -(length * scrollFactor / 100.0)
  {
    if scrollFactor > 0.0 { TimesLess(0.0, scrollFactor, length); }
  }

  /** What the q-th part of the window's length, taken twice by an edge that moves alone, adds up to in
      q steps. */
  function Moves(a: Anchor, length: real): (m: (real, real))
    ensures m.0 + m.1 == 2.0 * length
  {
    match a case Left => (0.0, 2.0 * length) case Right => (2.0 * length, 0.0) case Middle => (length, length)
  }

  /** x times the whole number 100 / zoomFactor */
  function Steps(x: real, zoomFactor: int): real
    requires 0 < zoomFactor <= 100
  {
    x * (100 / zoomFactor) as real
  }

  /** Where a zoom leads: each edge moves by its share of the window's length over 100 / zoomFactor,
      inwards or outwards, but outwards only up to its limit. */
  lemma ZoomLands(w: Window, l: Limits, s: Settings, a: Anchor, closer: bool)
    requires Inside(w, l) && 0 < s.zoomFactor <= 33
    ensures var r, m, z := Pressed(w, l, s, Zoom(a, closer)), Moves(a, w.right - w.left), s.zoomFactor;
      if closer then Steps(r.left - w.left, z) == m.0 && Steps(w.right - r.right, z) == m.1
      else
        && (if Steps(w.left - l.xmin, z) < m.0 then r.left == l.xmin else Steps(w.left - r.left, z) == m.0)
        && (if Steps(l.xmax - w.right, z) < m.1 then r.right == l.xmax else Steps(r.right - w.right, z) == m.1)
  {
    hide ZoomStep, LeftFactor, RightFactor, Moves, Pressed, Steps;
    var step, z := ZoomStep(w, s.zoomFactor), s.zoomFactor;
    var tl, tr := step * LeftFactor(a), step * RightFactor(a);
    ShareOf(w, z, a, tl, tr);
    EdgesMove(w, l, s, a, closer);
    var r := Pressed(w, l, s, Zoom(a, closer));
    if closer {
      StepsOrder(r.left - w.left, tl, z);
      StepsOrder(w.right - r.right, tr, z);
    } else {
      StepsOrder(w.left - l.xmin, tl, z);
      StepsOrder(l.xmax - w.right, tr, z);
      StepsOrder(w.left - r.left, tl, z);
      StepsOrder(r.right - w.right, tr, z);
    }
  }

  lemma ShareOf(w: Window, zoomFactor: int, a: Anchor, tl: real, tr: real)
    requires 0 < zoomFactor <= 100 && w.left < w.right
    requires tl == ZoomStep(w, zoomFactor) * LeftFactor(a) && tr == ZoomStep(w, zoomFactor) * RightFactor(a)
    ensures Moves(a, w.right - w.left).0 == Steps(tl, zoomFactor) && Moves(a, w.right - w.left).1 == Steps(tr, zoomFactor)
  {
    hide ZoomStep, LeftFactor, RightFactor, Moves;
    FactorSteps(w, zoomFactor, LeftFactor(a));
    FactorSteps(w, zoomFactor, RightFactor(a));
    FactorMoves(a, w.right - w.left);
  }

  lemma FactorSteps(w: Window, zoomFactor: int, f: real)
    requires 0 < zoomFactor <= 100 && w.left < w.right
    ensures Steps(ZoomStep(w, zoomFactor) * f, zoomFactor) == f * (w.right - w.left)
  {
    hide ZoomStep;
    ZoomLength(w, zoomFactor, Left, true);
    Regroup(ZoomStep(w, zoomFactor), f, (100 / zoomFactor) as real);
  }

  lemma Regroup(a: real, b: real, c: real)
    ensures (a * b) * c == b * (a * c)
  {}

  lemma FactorMoves(a: Anchor, d: real)
    ensures Moves(a, d).0 == LeftFactor(a) * d && Moves(a, d).1 == RightFactor(a) * d
  {}

  lemma StepsOrder(x: real, y: real, zoomFactor: int)
    requires 0 < zoomFactor <= 100
    ensures Steps(x, zoomFactor) < Steps(y, zoomFactor) <==> x < y
    ensures x == y ==> Steps(x, zoomFactor) == Steps(y, zoomFactor)
  {
    Percent(zoomFactor);
    ProductOrder(x, y, (100 / zoomFactor) as real);
  }

  lemma ProductOrder(a: real, b: real, c: real)
    requires c > 0.0
    ensures a * c < b * c <==> a < b
  {
    if a < b { TimesLess(a, b, c); } else { TimesMono(b, a, c); }
  }

  lemma EdgesMove(w: Window, l: Limits, s: Settings, a: Anchor, closer: bool)
    requires Inside(w, l) && 0 < s.zoomFactor <= 33
    ensures var r, step := Pressed(w, l, s, Zoom(a, closer)), ZoomStep(w, s.zoomFactor);
      var tl, tr := step * LeftFactor(a), step * RightFactor(a);
      if closer then r.left - w.left == tl && w.right - r.right == tr
      else
        && w.left - r.left == (if w.left - l.xmin < tl then w.left - l.xmin else tl)
        && r.right - w.right == (if l.xmax - w.right < tr then l.xmax - w.right else tr)
  {
    var step := ZoomStep(w, s.zoomFactor);
    hide ZoomStep, LeftFactor, RightFactor;
    ZoomEdges(w, s.zoomFactor, a, closer);
    Negate(step, LeftFactor(a));
    Negate(step, RightFactor(a));
  }

  lemma Negate(a: real, b: real)
    ensures (-a) * b == -(a * b)
  {}

  lemma TimesLess(a: real, b: real, c: real)
    requires a < b && c > 0.0
    ensures a * c < b * c
  {}

  /** The selection limits the keys work on. */
  class Magnifier {
    var left: real
    var right: real
    var length: real
    const limits: Limits

    constructor (left: real, right: real, limits: Limits)
      ensures Edges() == Window(left, right) && this.limits == limits && Redrawn()
    {
      this.left, this.right, this.length, this.limits := left, right, right - left, limits;
    }

    function Edges(): Window
      reads this
    {
      Window(left, right)
    }

    /** What every redraw establishes. */
    predicate Redrawn()
      reads this
    {
      length == right - left
    }

    method ReMag()
      modifies this
      ensures Edges() == Clamped(old(Edges()), limits) && Redrawn()
    {
      if left < limits.xmin { left := limits.xmin; }
      if right > limits.xmax { right := limits.xmax; }
      length := right - left;
    }

    /** A scroll that would leave the limits puts the window against them. */
    method CheckScrollBounds(diffL: real, diffR: real) returns (stopped: bool)
      requires Redrawn() && Inside(Edges(), limits) && diffL == diffR
      modifies this`left, this`right
      ensures stopped <==> old(left) + diffL < limits.xmin || old(right) + diffR > limits.xmax
      ensures if stopped then Edges() == Scrolled(old(Edges()), limits, diffL) else Edges() == old(Edges())
    {
      stopped := false;
      if left + diffL < limits.xmin {
        left := limits.xmin;
        right := left + length;
        stopped := true;
      }
      if right + diffR > limits.xmax {
        right := limits.xmax;
        left := right - length;
        stopped := true;
      }
    }

    /** The zoom keys. */
    method ZoomKey(a: Anchor, closer: bool, zoomFactor: int)
      requires 0 < zoomFactor <= 100
      modifies this
      ensures Edges() == Clamped(Zoomed(old(Edges()), zoomFactor, a, closer), limits) && Redrawn()
    {
      var diff := right - left;
      var zoomDir := if closer then 1.0 else -1.0;
      var diffL := (diff / (100 / zoomFactor) as real) * LeftFactor(a) * zoomDir;
      var diffR := (diff / (100 / zoomFactor) as real) * RightFactor(a) * zoomDir * -1.0;
      SameStep(diff / (100 / zoomFactor) as real, LeftFactor(a), RightFactor(a), closer);
      left := left + diffL;
      right := right + diffR;
      ReMag();
    }

    /** The scroll keys. */
    method ScrollKey(forward: bool, scrollFactor: real)
      requires Redrawn() && Inside(Edges(), limits)
      modifies this
      ensures Edges() == Clamped(Scrolled(old(Edges()), limits, Jump(old(length), scrollFactor, forward)), limits)
      ensures Redrawn()
    {
      hide Clamped, Scrolled;
      var jump := length * scrollFactor / 100.0;
      ScrollBy(if forward then jump else -jump);
    }

    method ScrollBy(diff: real)
      requires Redrawn() && Inside(Edges(), limits)
      modifies this
      ensures Edges() == Clamped(Scrolled(old(Edges()), limits, diff), limits) && Redrawn()
    {
      var stopped := CheckScrollBounds(diff, diff);
      if !stopped {
        left := left + diff;
        right := right + diff;
      }
      ReMag();
    }

    method KeyEvent(k: Key, s: Settings)
      requires Redrawn() && Inside(Edges(), limits) && 0 < s.zoomFactor <= 33
      modifies this
      ensures Edges() == Pressed(old(Edges()), limits, s, k) && Redrawn() && Inside(Edges(), limits)
    {
      hide Clamped, Zoomed, Scrolled, Jump;
      KeyKeepsInside(Edges(), limits, s, k);
      match k {
        case Zoom(a, closer) => ZoomKey(a, closer, s.zoomFactor);
        case Scroll(forward) => ScrollKey(forward, s.scrollFactor);
      }
    }
  }

  /** The code multiplies by the direction last. */
  lemma SameStep(step: real, lf: real, rf: real, closer: bool)
    ensures var dir, signed := if closer then 1.0 else -1.0, if closer then step else -step;
      step * lf * dir == signed * lf && step * rf * dir * -1.0 == -(signed * rf)
  {}
}
