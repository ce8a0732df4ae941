/** Which traces hold samples in memory, in trace mode: every redraw frees the old page and reads
    the new one. */
module Residency {
  import opened Paging
  import opened Overlaps

  /** The viewer with its memory: the traces holding data, and the page of the last redraw. */
  datatype View = View(e: Env, st: State, resident: set<Trace>, prevStart: int, prevPlots: int)

  datatype Action = Turn(forward: bool) | Restart(s: nat) | SetPlots(p: nat)

  /** What makeList frees: non-sticky traces of the last page that are outside the new one. */
  function Freed(v: View): set<Trace>
  {
    set i | 0 <= i < |v.e.traces| && v.prevStart <= i < v.prevPlots + v.prevStart
            && (i < v.st.startRec || i > v.st.startRec + v.e.numPlots - 1) && !v.e.traces[i].sticky :: v.e.traces[i]
  }

  /** A redraw with successful reads. */
  function Load(v: View): View
  {
    v.(resident := v.resident - Freed(v) + (set t | t in v.st.cur), prevStart := v.st.startRec, prevPlots := v.e.numPlots)
  }

  function Act(v: View, a: Action): View
    requires v.e.mode == TraceMode
  {
    match a
    case Turn(forward) =>
      if (if forward then v.st.next else v.st.prev) == [] then v else Load(v.(st := Press(v.e, v.st, forward)))
    case Restart(s) => Load(v.(st := Init(v.e, s)))
    case SetPlots(p) => Load(v.(e := v.e.(numPlots := p), st := Init(v.e.(numPlots := p), v.st.startRec)))
  }

  function Acts(v: View, actions: seq<Action>): View
    requires v.e.mode == TraceMode
    ensures Acts(v, actions).e.mode == TraceMode
    decreases |actions|
  {
    if actions == [] then v else Acts(Act(v, actions[0]), actions[1..])
  }

  /** Sticky traces keep their samples in every run, and what is on the screen has its samples. */
  lemma {:induction false} StickyStays(v: View, actions: seq<Action>, t: Trace)
    requires v.e.mode == TraceMode
    ensures t.sticky && t in v.resident ==> t in Acts(v, actions).resident
    ensures Loaded(v) ==> Loaded(Acts(v, actions))
    decreases |actions|
  {
    hide Act;
    if actions != [] {
      ActLoaded(v, actions[0]);
      ActMode(v, actions[0]);
      StickyStays(Act(v, actions[0]), actions[1..], t);
    }
  }

  /** The traces on the screen are in memory. */
  ghost predicate Loaded(v: View)
  {
    forall c :: c in v.st.cur ==> c in v.resident
  }

  lemma ActLoaded(v: View, a: Action)
    requires v.e.mode == TraceMode
    ensures Loaded(v) ==> Loaded(Act(v, a))
    ensures forall t: Trace :: t.sticky && t in v.resident ==> t in Act(v, a).resident
  {
    hide Page, Press, Init;
    LoadLoads(v.(st := Act(v, a).st, e := Act(v, a).e));
  }

  lemma LoadLoads(v: View)
    ensures Loaded(Load(v)) && forall t: Trace :: t.sticky && t in v.resident ==> t in Load(v).resident
  {}

  ghost predicate Distinct(traces: seq<Trace>)
  {
    forall i, j :: 0 <= i < j < |traces| ==> traces[i] != traces[j]
  }

  /** The non-sticky traces holding data are those from position s up to position s + p. */
  ghost predicate Resident(traces: seq<Trace>, resident: set<Trace>, s: int, p: int)
  {
    forall i :: 0 <= i < |traces| && !traces[i].sticky ==> (traces[i] in resident <==> s <= i < s + p)
  }

  /** The non-sticky traces holding data are exactly those of the current page. */
  ghost predicate HoldsPage(v: View)
  {
    Resident(v.e.traces, v.resident, v.st.startRec, v.e.numPlots)
  }

  /** Memory agrees with the page of the last redraw. */
  ghost predicate Tracked(v: View)
  {
    Resident(v.e.traces, v.resident, v.prevStart, v.prevPlots)
  }

  lemma PageContains(traces: seq<Trace>, p: nat, s: nat, i: nat)
    requires Distinct(traces) && i < |traces|
    ensures traces[i] in Page(traces, p, s) <==> s <= i < s + p
  {
    var page := Page(traces, p, s);
    if s <= i < s + p { assert page[i - s] == traces[i]; }
    if traces[i] in page {
      var k :| 0 <= k < |page| && page[k] == traces[i];
      assert traces[s + k] == traces[i];
    }
  }

  /** The non-sticky traces of the current group are those of the current page. */
  ghost predicate ShowsPage(e: Env, st: State)
  {
    forall i :: 0 <= i < |e.traces| && !e.traces[i].sticky ==>
      (e.traces[i] in st.cur <==> st.startRec <= i < st.startRec + e.numPlots)
  }

  /** A redraw of such a group establishes HoldsPage. */
  lemma LoadHolds(v: View)
    requires Distinct(v.e.traces) && Tracked(v) && ShowsPage(v.e, v.st)
    ensures HoldsPage(Load(v)) && Tracked(Load(v))
  {
    forall i | 0 <= i < |v.e.traces| && !v.e.traces[i].sticky
      ensures v.e.traces[i] in Load(v).resident <==> v.st.startRec <= i < v.st.startRec + v.e.numPlots
    {
      FreedExactly(v, i);
    }
  }

  lemma FreedExactly(v: View, i: nat)
    requires Distinct(v.e.traces) && i < |v.e.traces| && !v.e.traces[i].sticky
    ensures v.e.traces[i] in Freed(v)
       <==> v.prevStart <= i < v.prevPlots + v.prevStart
            && (i < v.st.startRec || i > v.st.startRec + v.e.numPlots - 1)
  {}

  /** Every trace in which pages off by r differ from the true first two pages is sticky: those from r
      on up to the end of the first page, and those from r + p on up to the end of the second. */
  ghost predicate Tolerable(e: Env, r: nat)
  {
    r == 0 || forall i :: 0 <= i < |e.traces| && (r <= i < e.numPlots || r + e.numPlots <= i < e.numPlots + e.numPlots) ==>
      e.traces[i].sticky
  }

  /** The screen is one that a tolerable start leads to. */
  ghost predicate Followed(e: Env, st: State)
    requires e.numPlots > 0
  {
    exists r: nat :: Tolerable(e, r) && Reached(e, r, st)
  }

  lemma FollowedShows(e: Env, st: State)
    requires Sane(e) && Distinct(e.traces) && Followed(e, st)
    ensures ShowsPage(e, st) && 0 <= st.startRec <= |e.traces|
  {
    hide Page, Distinct;
    var r: nat :| Tolerable(e, r) && Reached(e, r, st);
    ReachedInside(e, r, st);
    forall i | 0 <= i < |e.traces| && !e.traces[i].sticky
      ensures e.traces[i] in st.cur <==> st.startRec <= i < st.startRec + e.numPlots
    {
      PageContains(e.traces, e.numPlots, st.startRec, i);
      PageContains(e.traces, e.numPlots, r, i);
    }
  }

  /** A view with the right memory, on a screen that the buttons keep right. */
  ghost predicate Good(v: View)
  {
    && Sane(v.e) && v.e.mode == TraceMode && Distinct(v.e.traces)
    && Followed(v.e, v.st) && HoldsPage(v) && Tracked(v)
  }

  /** Restarts and page sizes with a tolerable start. */
  ghost predicate Allowed(v: View, a: Action)
    requires v.e.numPlots > 0 && 0 <= v.st.startRec
  {
    match a
    case Turn(_) => true
    case Restart(s) => s <= |v.e.traces| && Tolerable(v.e, s % v.e.numPlots)
    case SetPlots(p) => p > 0 && Tolerable(v.e.(numPlots := p), v.st.startRec % p)
  }

  lemma GoodInside(v: View)
    requires Good(v)
    ensures v.e.numPlots > 0 && 0 <= v.st.startRec <= |v.e.traces|
  {
    FollowedShows(v.e, v.st);
  }

  lemma ActKeepsGood(v: View, a: Action)
    requires Good(v)
    requires v.e.numPlots > 0 && 0 <= v.st.startRec && Allowed(v, a)
    ensures Good(Act(v, a))
  {
    hide Freed, Resident, Press, Reached, Distinct, ShowsPage, Init;
    GoodInside(v);
    match a
    case Turn(forward) =>
      var r: nat :| Tolerable(v.e, r) && Reached(v.e, r, v.st);
      PressReached(v.e, r, v.st, forward);
      Redrawn(v.(st := Press(v.e, v.st, forward)), r);
    case Restart(s) =>
      InitReached(v.e, s);
      Redrawn(v.(st := Init(v.e, s)), s % v.e.numPlots);
    case SetPlots(p) =>
      var e := v.e.(numPlots := p);
      InitReached(e, v.st.startRec);
      Redrawn(v.(e := e, st := Init(e, v.st.startRec)), v.st.startRec % p);
  }

  lemma Redrawn(v: View, r: nat)
    requires Sane(v.e) && v.e.mode == TraceMode && Distinct(v.e.traces) && Tracked(v)
    requires Tolerable(v.e, r) && Reached(v.e, r, v.st)
    ensures Good(Load(v))
  {
    hide Freed, Resident, Reached, Distinct, ShowsPage;
    FollowedShows(v.e, v.st);
    LoadHolds(v);
  }

  ghost predicate AllAllowed(v: View, actions: seq<Action>)
    requires Good(v)
    decreases |actions|
  {
    GoodInside(v);
    actions == [] || (Allowed(v, actions[0]) && (ActKeepsGood(v, actions[0]); AllAllowed(Act(v, actions[0]), actions[1..])))
  }

  /** After every run of page turns and of tolerable restarts and page sizes memory holds the current page. */
  lemma {:induction false} MemoryHoldsPage(v: View, actions: seq<Action>)
    requires Good(v) && AllAllowed(v, actions)
    ensures Good(Acts(v, actions))
    decreases |actions|
  {
    hide Act, Resident, Distinct, Followed, Allowed;
    if actions != [] {
      GoodInside(v);
      ActKeepsGood(v, actions[0]);
      MemoryHoldsPage(Act(v, actions[0]), actions[1..]);
    }
  }

  // ----- which starts are good

  function Turns(presses: seq<bool>): (a: seq<Action>)
    ensures |a| == |presses|
  {
    seq(|presses|, i requires 0 <= i < |presses| => Turn(presses[i]))
  }

  lemma {:induction false} TurnsRun(v: View, presses: seq<bool>)
    requires Sane(v.e) && v.e.mode == TraceMode && 0 <= v.st.startRec
    ensures var w := Acts(v, Turns(presses)); w.e == v.e && w.st == Run(v.e, v.st, presses)
    decreases |presses|
  {
    hide Freed, Next, Prev;
    if presses != [] {
      assert Turns(presses)[1..] == Turns(presses[1..]);
      TurnsRun(Act(v, Turn(presses[0])), presses[1..]);
    }
  }

  lemma {:induction false} TurnsAppend(v: View, presses: seq<bool>, forward: bool)
    requires v.e.mode == TraceMode
    ensures Acts(v, Turns(presses + [forward])) == Act(Acts(v, Turns(presses)), Turn(forward))
    decreases |presses|
  {
    hide Act;
    var all := presses + [forward];
    assert Turns(all)[1..] == Turns(all[1..]);
    if presses == [] {
      assert all[1..] == [];
    } else {
      assert all[1..] == presses[1..] + [forward] && Turns(presses)[1..] == Turns(presses[1..]);
      assert Act(v, Turn(presses[0])).e.mode == TraceMode by { ActMode(v, Turn(presses[0])); }
      TurnsAppend(Act(v, Turn(presses[0])), presses[1..], forward);
    }
  }

  lemma ActMode(v: View, a: Action)
    requires v.e.mode == TraceMode
    ensures Act(v, a).e.mode == TraceMode
  {}

  /** A restart inside the list, or a new page size, from any view whose memory was tracked. */
  ghost predicate Starts(v: View, a: Action)
  {
    && Sane(v.e) && v.e.mode == TraceMode && Distinct(v.e.traces) && Tracked(v)
    && match a
       case Turn(_) => false
       case Restart(s) => s <= |v.e.traces|
       case SetPlots(p) => p > 0 && 0 <= v.st.startRec <= |v.e.traces|
  }

  /** From whatever was in memory before, after a restart or a new page size memory follows the page
      through every run of the buttons exactly when the start is tolerable: page aligned, or off by an
      amount for which all the traces that are shown wrong are sticky. */
  lemma ResidencySafety(v: View, a: Action)
    requires Starts(v, a)
    ensures var w := Act(v, a);
      && w.e.numPlots > 0 && 0 <= w.st.startRec
      && ((forall presses: seq<bool> :: HoldsPage(Acts(w, Turns(presses))))
          <==> Tolerable(w.e, w.st.startRec % w.e.numPlots))
  {
    hide HoldsPage, Acts, Act, Tolerable, Reached, OnPage, OffPage;
    StartLoads(v, a);
    var w := Act(v, a);
    if Tolerable(w.e, w.st.startRec % w.e.numPlots) {
      forall presses: seq<bool>
        ensures HoldsPage(Acts(w, Turns(presses)))
      {
        TurnsAllowed(w, presses);
        MemoryHoldsPage(w, Turns(presses));
      }
    } else {
      TolerableZero(w.e);
      var presses := Misses(w);
    }
  }

  /** The view after a start: the groups of INITGROUP, and the current page in memory. */
  lemma StartLoads(v: View, a: Action)
    requires Starts(v, a)
    ensures var w := Act(v, a);
      && Sane(w.e) && w.e.mode == TraceMode && Distinct(w.e.traces) && 0 <= w.st.startRec <= |w.e.traces|
      && HoldsPage(w) && Tracked(w) && Reached(w.e, w.st.startRec % w.e.numPlots, w.st)
      && (w.st.startRec % w.e.numPlots != 0 ==> OffPage(w.e, w.st.startRec % w.e.numPlots, w.st))
  {
    hide Page, Resident, Freed, Reached, Distinct, ShowsPage;
    var e := if a.SetPlots? then v.e.(numPlots := a.p) else v.e;
    var s := if a.Restart? then a.s else v.st.startRec;
    InitReached(e, s);
    InitShows(e, s);
    LoadHolds(v.(e := e, st := Init(e, s)));
  }

  lemma InitShows(e: Env, s: nat)
    requires Sane(e) && e.mode == TraceMode && Distinct(e.traces) && s <= |e.traces|
    ensures ShowsPage(e, Init(e, s))
  {
    hide Page, Distinct;
    forall i | 0 <= i < |e.traces|
      ensures e.traces[i] in Init(e, s).cur <==> s <= i < s + e.numPlots
    {
      PageContains(e.traces, e.numPlots, s, i);
    }
  }

  lemma {:induction false} TurnsAllowed(v: View, presses: seq<bool>)
    requires Good(v)
    ensures AllAllowed(v, Turns(presses))
    decreases |presses|
  {
    hide Act, Resident, Distinct, Followed;
    if presses != [] {
      assert Turns(presses)[1..] == Turns(presses[1..]);
      GoodInside(v);
      ActKeepsGood(v, Turn(presses[0]));
      TurnsAllowed(Act(v, Turn(presses[0])), presses[1..]);
    }
  }

  /** From a start that is not tolerable a run of the buttons leads to a view without its page. */
  lemma Misses(v: View) returns (presses: seq<bool>)
    requires Sane(v.e) && v.e.mode == TraceMode && Distinct(v.e.traces) && 0 <= v.st.startRec
    requires var r := v.st.startRec % v.e.numPlots; OffPage(v.e, r, v.st) && !Tolerable(v.e, r)
    ensures !HoldsPage(Acts(v, Turns(presses)))
  {
    hide Acts, Run, Act, OffPage, Tolerable, FirstPage, HoldsPage;
    var r := v.st.startRec % v.e.numPlots;
    assert r > 0 by { TolerableZero(v.e); }
    presses := OffBack(v.e, r, v.st);
    TurnsRun(v, presses);
    var first := Acts(v, Turns(presses));
    if HoldsPage(first) {
      TurnsAppend(v, presses, true);
      presses := presses + [true];
      StaleMisses(first, r);
    }
  }

  lemma TolerableZero(e: Env)
    ensures Tolerable(e, 0)
  {}

  /** The step forward from the first page shows the stale group. */
  lemma StaleMisses(v: View, r: nat)
    requires Sane(v.e) && v.e.mode == TraceMode && Distinct(v.e.traces) && 0 < r < v.e.numPlots
    requires FirstPage(v.e, r, v.st) && HoldsPage(v) && !Tolerable(v.e, r)
    ensures !HoldsPage(Act(v, Turn(true)))
  {
    hide Page, Press, Distinct, Freed;
    var w := Act(v, Turn(true));
    var p := v.e.numPlots;
    var i :| 0 <= i < |v.e.traces| && (r <= i < p || r + p <= i < p + p) && !v.e.traces[i].sticky;
    FirstPagePress(v.e, r, v.st, true);
    PageContains(v.e.traces, p, r, i);
    assert v.e.traces[i] in v.resident <==> 0 <= i < p;
    assert v.e.traces[i] in w.resident <==> i < p;
  }
}
