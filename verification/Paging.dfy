/** The paging of the trace list on values: what INITGROUP, NEXTGROUP and PREVGROUP make of the
    previous, current and next groups, and what every run of the two buttons keeps. */
module Paging {
  import opened Arithmetic

  /** A trace of the list: start time, sensor id, and whether its samples stay in memory. */
  datatype Trace = Trace(id: nat, epochs: real, sensor: string, sticky: bool)

  datatype Mode = TraceMode | GatherMode

  /** What stays fixed while the buttons are pressed; instSort sorts a group by instrument. */
  datatype Env = Env(mode: Mode, traces: seq<Trace>, numPlots: nat, spread: real,
                     instSort: seq<Trace> -> seq<Trace>)

  /** The screen: position of the current group, the three groups, and the history of gather mode. */
  datatype State = State(startRec: int, prev: seq<Trace>, cur: seq<Trace>, next: seq<Trace>,
                         hist: seq<seq<Trace>>)

  datatype Slot = PrevGrp | CurGrp | NextGrp

  /** The order of strings: strcmp. */
  predicate StringLeq(a: string, b: string)
  {
    a == "" || (b != "" && (a[0] < b[0] || (a[0] == b[0] && StringLeq(a[1..], b[1..]))))
  }

  ghost predicate SensorSorted(traces: seq<Trace>)
  {
    forall i, j :: 0 <= i < j < |traces| ==> StringLeq(traces[i].sensor, traces[j].sensor)
  }

  /** The group sort permutes, and sorts by sensor. */
  ghost predicate SortsSensors(f: seq<Trace> -> seq<Trace>)
  {
    forall s: seq<Trace> {:trigger f(s)} :: multiset(f(s)) == multiset(s) && SensorSorted(f(s))
  }

  /** Pages hold at least one trace, the spread is not negative, the instrument sort sorts. */
  ghost predicate Sane(e: Env)
  {
    e.numPlots > 0 && e.spread >= 0.0 && SortsSensors(e.instSort)
  }

  // ----- the groups

  /** Up to p traces from position s; a position outside the list gives none. */
  function Page(traces: seq<Trace>, p: nat, s: int): (r: seq<Trace>)
    ensures |r| <= p
  {
    if s < 0 || s >= |traces| then []
    else if s + p <= |traces| then traces[s..s + p] else traces[s..]
  }

  /** How many of the traces from i on start within `spread` of `epoch`, up to the first that does not. */
  function GroupLength(traces: seq<Trace>, i: nat, epoch: real, spread: real): (k: nat)
    requires i <= |traces|
    ensures i + k <= |traces|
    ensures forall j :: i <= j < i + k ==> traces[j].epochs - epoch <= spread
    ensures i + k < |traces| ==> traces[i + k].epochs - epoch > spread
    decreases |traces| - i
  {
    if i == |traces| || traces[i].epochs - epoch > spread then 0
    else 1 + GroupLength(traces, i + 1, epoch, spread)
  }

  /** Where the gather that starts at position i ends. */
  function GatherEnd(e: Env, i: nat): (k: nat)
    requires i < |e.traces|
    ensures i <= k <= |e.traces|
    ensures e.spread >= 0.0 ==> i < k
  {
    i + GroupLength(e.traces, i, e.traces[i].epochs, e.spread)
  }

  function Gather(e: Env, i: nat): seq<Trace>
    requires i < |e.traces|
  {
    e.instSort(e.traces[i..GatherEnd(e, i)])
  }

  // ----- the commands

  /** Gather mode reads the first trace of the list without looking whether there is one. */
  predicate Pageable(e: Env) { e.mode == GatherMode ==> |e.traces| > 0 }

  function Fill(e: Env, st: State, which: Slot): State
    requires Pageable(e) && (e.mode == GatherMode ==> 0 <= st.startRec)
  {
    match e.mode
    case TraceMode =>
      (match which
       case CurGrp => st.(cur := Page(e.traces, e.numPlots, st.startRec))
       case PrevGrp =>
         st.(prev := if st.startRec == 0 then []
                     else Page(e.traces, e.numPlots, if st.startRec - e.numPlots > 0 then st.startRec - e.numPlots else 0))
       case NextGrp =>
         st.(next := if st.startRec + e.numPlots > |e.traces| then []
                     else Page(e.traces, e.numPlots, st.startRec + e.numPlots)))
    case GatherMode =>
      (match which
       case CurGrp => st.(cur := Gather(e, 0))
       case PrevGrp => if st.hist == [] then st.(prev := []) else st.(prev := st.hist[0], hist := st.hist[1..])
       case NextGrp =>
         st.(next := if st.startRec + |st.cur| >= |e.traces| then [] else Gather(e, st.startRec + |st.cur|)))
  }

  function Init(e: Env, startRec: int): State
    requires Pageable(e) && (e.mode == GatherMode ==> 0 <= startRec)
  {
    Fill(e, Fill(e, Fill(e, State(startRec, [], [], [], []), CurGrp), PrevGrp), NextGrp)
  }

  function Next(e: Env, st: State): State
    requires Pageable(e) && (e.mode == GatherMode ==> 0 <= st.startRec)
  {
    Fill(e, st.(startRec := st.startRec + |st.cur|, prev := st.cur, cur := st.next,
                hist := if e.mode == GatherMode then [st.prev] + st.hist else st.hist), NextGrp)
  }

  function Prev(e: Env, st: State): State
    requires Pageable(e)
  {
    var s := st.startRec - |st.prev|;
    Fill(e, st.(startRec := if s < 0 then 0 else s, next := st.cur, cur := st.prev), PrevGrp)
  }

  /** A button: NEXT for true, PREVIOUS for false; nothing happens without a group to go to. */
  function Press(e: Env, st: State, forward: bool): State
    requires Pageable(e) && (e.mode == GatherMode ==> 0 <= st.startRec)
    ensures 0 <= st.startRec ==> 0 <= Press(e, st, forward).startRec
  {
    if forward then (if st.next == [] then st else Next(e, st))
    else (if st.prev == [] then st else Prev(e, st))
  }

  function Run(e: Env, st: State, presses: seq<bool>): State
    requires Sane(e) && Pageable(e) && 0 <= st.startRec
    ensures 0 <= Run(e, st, presses).startRec
    decreases |presses|
  {
    if presses == [] then st else Run(e, Press(e, st, presses[0]), presses[1..])
  }

  // ----- trace mode

  /** The three groups are adjacent stretches of the list around startRec. */
  ghost predicate Adjacent(e: Env, st: State)
  {
    && 0 <= st.startRec <= |e.traces|
    && st.cur == Page(e.traces, e.numPlots, st.startRec)
    && st.next == Page(e.traces, e.numPlots, st.startRec + e.numPlots)
    && st.prev == e.traces[if st.startRec > e.numPlots then st.startRec - e.numPlots else 0..st.startRec]
  }

  /** The state of trace mode at page boundary s. */
  function PageState(e: Env, s: nat): State
  {
    State(s, if s == 0 then [] else Page(e.traces, e.numPlots, s - e.numPlots),
          Page(e.traces, e.numPlots, s), Page(e.traces, e.numPlots, s + e.numPlots), [])
  }

  ghost predicate AtBoundary(e: Env, s: nat)
    requires e.numPlots > 0
  {
    s <= |e.traces| && s % e.numPlots == 0
  }

  lemma BoundaryStep(e: Env, s: nat)
    requires e.numPlots > 0
    ensures (s + e.numPlots) % e.numPlots == s % e.numPlots
    ensures s % e.numPlots == 0 && s > 0 ==> e.numPlots <= s
  {
    ModShift(s, e.numPlots);
    if 0 < s < e.numPlots { DivModUnique(s, e.numPlots, 0, s); }
  }

  /** At a page boundary INITGROUP makes three adjacent groups. */
  lemma InitAtBoundary(e: Env, s: nat)
    requires Sane(e) && e.mode == TraceMode && AtBoundary(e, s)
    ensures Init(e, s) == PageState(e, s) && Adjacent(e, PageState(e, s))
  {
    hide Page;
    BoundaryStep(e, s);
    PageBefore(e, s);
  }

  lemma PageBefore(e: Env, s: nat)
    requires Sane(e) && AtBoundary(e, s)
    ensures PageState(e, s).prev == e.traces[if s > e.numPlots then s - e.numPlots else 0..s]
    ensures s + e.numPlots > |e.traces| ==> PageState(e, s).next == []
  {
    BoundaryStep(e, s);
  }

  lemma NextAtBoundary(e: Env, s: nat)
    requires Sane(e) && e.mode == TraceMode && AtBoundary(e, s) && PageState(e, s).next != []
    ensures AtBoundary(e, s + e.numPlots) && Next(e, PageState(e, s)) == PageState(e, s + e.numPlots)
  {
    BoundaryStep(e, s);
    var st, p := PageState(e, s), e.numPlots;
    assert |st.cur| == p;
    assert Next(e, st).startRec == s + p;
  }

  lemma PrevAtBoundary(e: Env, s: nat)
    requires Sane(e) && e.mode == TraceMode && AtBoundary(e, s) && PageState(e, s).prev != []
    ensures e.numPlots <= s && AtBoundary(e, s - e.numPlots)
    ensures Prev(e, PageState(e, s)) == PageState(e, s - e.numPlots)
  {
    BoundaryStep(e, s);
    BoundaryStep(e, s - e.numPlots);
    var st, p := PageState(e, s), e.numPlots;
    assert |st.prev| == p;
    assert Prev(e, st).startRec == s - p;
  }

  /** Every run from a page boundary stays at page boundaries. */
  lemma {:induction false} RunAtBoundary(e: Env, s: nat, presses: seq<bool>)
    requires Sane(e) && e.mode == TraceMode && AtBoundary(e, s)
    ensures exists q: nat :: AtBoundary(e, q) && Run(e, PageState(e, s), presses) == PageState(e, q)
    decreases |presses|
  {
    hide Page, SortsSensors;
    var st := PageState(e, s);
    if presses == [] {
      assert Run(e, st, presses) == PageState(e, s);
    } else if presses[0] && st.next != [] {
      NextAtBoundary(e, s);
      RunAtBoundary(e, s + e.numPlots, presses[1..]);
    } else if !presses[0] && st.prev != [] {
      PrevAtBoundary(e, s);
      RunAtBoundary(e, s - e.numPlots, presses[1..]);
    } else {
      RunAtBoundary(e, s, presses[1..]);
    }
  }

  /** A step back from behind the first page. */
  lemma StepBack(e: Env, st: State)
    requires Sane(e) && e.mode == TraceMode && e.numPlots < st.startRec < |e.traces| && st == Fill(e, st, PrevGrp)
    ensures var back := Press(e, st, false);
      && back.startRec == st.startRec - e.numPlots && back == Fill(e, back, PrevGrp)
      && back.cur == Page(e.traces, e.numPlots, back.startRec)
  {
    assert |st.prev| == e.numPlots;
  }

  /** In front of the first page boundary the previous group overlaps the current one. */
  lemma FirstOverlap(e: Env, st: State)
    requires Sane(e) && e.mode == TraceMode && 0 < st.startRec < e.numPlots && st.startRec < |e.traces|
    requires st == Fill(e, st, PrevGrp)
    ensures st.prev == Page(e.traces, e.numPlots, 0) && !Adjacent(e, st)
  {}

  /** Stepping back from an unaligned position ends with a previous group that overlaps the current one. */
  lemma {:induction false} UnalignedRun(e: Env, st: State) returns (presses: seq<bool>)
    requires Sane(e) && e.mode == TraceMode && 0 < st.startRec < |e.traces| && st.startRec % e.numPlots != 0
    requires st == Fill(e, st, PrevGrp) && st.cur == Page(e.traces, e.numPlots, st.startRec)
    ensures var end := Run(e, st, presses);
      && 0 < end.startRec == st.startRec % e.numPlots < e.numPlots && end.startRec < |e.traces|
      && end.cur == Page(e.traces, e.numPlots, end.startRec) && end.prev == Page(e.traces, e.numPlots, 0)
    ensures !Adjacent(e, Run(e, st, presses))
    decreases st.startRec
  {
    hide Page, Fill, Press, Adjacent;
    var s, p := st.startRec, e.numPlots;
    presses := [];
    if s < p {
      DivModUnique(s, p, 0, s);
      FirstOverlap(e, st);
    } else {
      BoundaryStep(e, s - p);
      if s == p { DivModUnique(s, p, 1, 0); }
      StepBack(e, st);
      var rest := UnalignedRun(e, Press(e, st, false));
      presses := [false] + rest;
      assert presses[1..] == rest;
    }
  }

  /** In trace mode the groups stay adjacent in every run exactly when the start is page aligned. */
  lemma TraceModeSafety(e: Env, s: nat)
    requires Sane(e) && e.mode == TraceMode && s < |e.traces|
    ensures (forall presses: seq<bool> :: Adjacent(e, Run(e, Init(e, s), presses))) <==> s % e.numPlots == 0
  {
    if s % e.numPlots == 0 {
      InitAtBoundary(e, s);
      forall presses: seq<bool>
        ensures Adjacent(e, Run(e, Init(e, s), presses))
      {
        RunAtBoundary(e, s, presses);
        var q: nat :| AtBoundary(e, q) && Run(e, PageState(e, s), presses) == PageState(e, q);
        InitAtBoundary(e, q);
      }
    } else {
      DivModUnique(0, e.numPlots, 0, 0);
      var presses := UnalignedRun(e, Init(e, s));
      assert !Adjacent(e, Run(e, Init(e, s), presses));
    }
  }

  lemma NextIsPressed(e: Env, s: nat)
    requires Sane(e) && e.mode == TraceMode && AtBoundary(e, s) && PageState(e, s).next != []
    ensures Press(e, PageState(e, s), true) == PageState(e, s + e.numPlots)
  {
    NextAtBoundary(e, s);
  }

  lemma PrevIsPressed(e: Env, s: nat)
    requires Sane(e) && e.mode == TraceMode && AtBoundary(e, s) && PageState(e, s).prev != []
    ensures e.numPlots <= s && AtBoundary(e, s - e.numPlots)
    ensures Press(e, PageState(e, s), false) == PageState(e, s - e.numPlots)
  {
    PrevAtBoundary(e, s);
  }

  /** A page that has a next or a current page shows a full page before it. */
  lemma Neighbours(e: Env, s: nat)
    requires Sane(e) && AtBoundary(e, s)
    ensures PageState(e, s).next != [] ==> PageState(e, s + e.numPlots).prev != []
    ensures e.numPlots <= s && PageState(e, s).cur != [] ==> PageState(e, s - e.numPlots).next != []
  {}

  /** NEXT and then PREVIOUS restores the whole state, and the other way round. */
  lemma NextPrevRestores(e: Env, s: nat)
    requires Sane(e) && e.mode == TraceMode && AtBoundary(e, s)
    ensures PageState(e, s).next != [] ==> Press(e, Press(e, PageState(e, s), true), false) == PageState(e, s)
    ensures PageState(e, s).prev != [] && PageState(e, s).cur != [] ==>
      Press(e, Press(e, PageState(e, s), false), true) == PageState(e, s)
  {
    hide Page, Press, PageState;
    Neighbours(e, s);
    if PageState(e, s).next != [] {
      NextIsPressed(e, s);
      NextAtBoundary(e, s);
      PrevIsPressed(e, s + e.numPlots);
    }
    if PageState(e, s).prev != [] && PageState(e, s).cur != [] {
      PrevIsPressed(e, s);
      NextIsPressed(e, s - e.numPlots);
    }
  }

  /** The traces shown by pressing NEXT until the end, page after page. */
  ghost function Shown(e: Env, s: nat): seq<Trace>
    requires Sane(e) && e.mode == TraceMode && AtBoundary(e, s)
    decreases |e.traces| - s
  {
    var st := PageState(e, s);
    if st.next == [] then st.cur else NextAtBoundary(e, s); st.cur + Shown(e, Press(e, st, true).startRec)
  }

  /** Paging to the end shows every remaining trace exactly once, in list order. */
  lemma {:induction false} PagingShowsAll(e: Env, s: nat)
    requires Sane(e) && e.mode == TraceMode && AtBoundary(e, s)
    ensures Shown(e, s) == e.traces[s..]
    decreases |e.traces| - s
  {
    hide Page, Press;
    PageOrRest(e, s);
    if PageState(e, s).next != [] {
      NextAtBoundary(e, s);
      NextIsPressed(e, s);
      PagingShowsAll(e, s + e.numPlots);
    }
  }

  /** A page with none after it is the rest of the list, any other page is followed by the rest. */
  lemma PageOrRest(e: Env, s: nat)
    requires Sane(e) && s <= |e.traces|
    ensures var cur, next := Page(e.traces, e.numPlots, s), Page(e.traces, e.numPlots, s + e.numPlots);
            if next == [] then cur == e.traces[s..]
            else s + e.numPlots < |e.traces| && cur + e.traces[s + e.numPlots..] == e.traces[s..]
  {}
}
