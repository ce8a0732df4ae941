/** What the buttons reach in trace mode from any start, page aligned or not: pages in step with the
    start, and behind the first page a group that is not the page of its position. */
module Overlaps {
  import opened Arithmetic
  import opened Paging

  /** The groups at a position that is off the page boundaries by r. */
  predicate OffPage(e: Env, r: nat, st: State)
    requires e.numPlots > 0
  {
    var s, p := st.startRec, e.numPlots;
    && 0 < s <= |e.traces| && s % p == r
    && st == State(s, Page(e.traces, p, if s > p then s - p else 0), Page(e.traces, p, s), Page(e.traces, p, s + p), [])
  }

  /** The first page, reached by stepping back: next is still the group the step came from. */
  predicate FirstPage(e: Env, r: nat, st: State)
  {
    st == State(0, [], Page(e.traces, e.numPlots, 0), Page(e.traces, e.numPlots, r), [])
  }

  /** That group, now at the position of the second page. */
  predicate Stale(e: Env, r: nat, st: State)
  {
    var s := if e.numPlots <= |e.traces| then e.numPlots else |e.traces|;
    st == State(s, Page(e.traces, e.numPlots, 0), Page(e.traces, e.numPlots, r), Page(e.traces, e.numPlots, s + e.numPlots), [])
  }

  /** The third page, with that group before it. */
  predicate BehindStale(e: Env, r: nat, st: State)
  {
    var p := e.numPlots;
    p + p < |e.traces|
    && st == State(p + p, Page(e.traces, p, r), Page(e.traces, p, p + p), Page(e.traces, p, p + p + p), [])
  }

  predicate OnPage(e: Env, st: State)
    requires e.numPlots > 0
  {
    0 <= st.startRec <= |e.traces| && st.startRec % e.numPlots == 0 && st == PageState(e, st.startRec)
  }

  /** Where the buttons lead from a start that is off the page boundaries by r. */
  predicate Reached(e: Env, r: nat, st: State)
    requires e.numPlots > 0
  {
    OnPage(e, st) || (0 < r < e.numPlots && (OffPage(e, r, st) || FirstPage(e, r, st) || Stale(e, r, st) || BehindStale(e, r, st)))
  }

  lemma PageLength(traces: seq<Trace>, p: nat, s: nat)
    ensures |Page(traces, p, s)| == if s >= |traces| then 0 else if s + p <= |traces| then p else |traces| - s
  {}

  lemma OnPagePress(e: Env, st: State, forward: bool)
    requires Sane(e) && e.mode == TraceMode && OnPage(e, st)
    ensures OnPage(e, Press(e, st, forward))
  {
    hide Page, Next, Prev;
    if forward && st.next != [] { NextAtBoundary(e, st.startRec); }
    if !forward && st.prev != [] { PrevAtBoundary(e, st.startRec); }
  }

  lemma OffPagePress(e: Env, r: nat, st: State, forward: bool)
    requires Sane(e) && e.mode == TraceMode && 0 < r < e.numPlots && OffPage(e, r, st)
    ensures var to := Press(e, st, forward); OffPage(e, r, to) || FirstPage(e, r, to)
    ensures !forward ==> Press(e, st, false).startRec < st.startRec
  {
    hide Page;
    var s, p := st.startRec, e.numPlots;
    PageLength(e.traces, p, s);
    PageLength(e.traces, p, s + p);
    PageLength(e.traces, p, s + p + p);
    BoundaryStep(e, s);
    if s > p {
      BoundaryStep(e, s - p);
      PageLength(e.traces, p, s - p);
    } else {
      PageLength(e.traces, p, 0);
      if s == p { DivModUnique(s, p, 1, 0); } else { DivModUnique(s, p, 0, s); }
    }
  }

  lemma FirstPagePress(e: Env, r: nat, st: State, forward: bool)
    requires Sane(e) && e.mode == TraceMode && 0 < r < e.numPlots && FirstPage(e, r, st)
    ensures var to := Press(e, st, forward); FirstPage(e, r, to) || Stale(e, r, to)
    ensures forward && r < |e.traces| ==> Stale(e, r, Press(e, st, forward)) && st.next != []
  {
    hide Page;
    var p := e.numPlots;
    PageLength(e.traces, p, 0);
    PageLength(e.traces, p, r);
    PageLength(e.traces, p, p + p);
    PageLength(e.traces, p, |e.traces| + p);
  }

  lemma StalePress(e: Env, r: nat, st: State, forward: bool)
    requires Sane(e) && e.mode == TraceMode && 0 < r < e.numPlots && Stale(e, r, st)
    ensures var to := Press(e, st, forward); Stale(e, r, to) || FirstPage(e, r, to) || BehindStale(e, r, to)
  {
    hide Page;
    var p := e.numPlots;
    PageLength(e.traces, p, 0);
    PageLength(e.traces, p, r);
    PageLength(e.traces, p, st.startRec + p);
    PageLength(e.traces, p, p + p + p);
  }

  lemma BehindStalePress(e: Env, r: nat, st: State, forward: bool)
    requires Sane(e) && e.mode == TraceMode && 0 < r < e.numPlots && BehindStale(e, r, st)
    ensures var to := Press(e, st, forward); BehindStale(e, r, to) || Stale(e, r, to) || OnPage(e, to)
  {
    hide Page;
    var p := e.numPlots;
    PageLength(e.traces, p, r);
    PageLength(e.traces, p, p + p);
    PageLength(e.traces, p, p + p + p);
    PageLength(e.traces, p, p + p + p + p);
    DivModUnique(p + p + p, p, 3, 0);
  }

  lemma PressReached(e: Env, r: nat, st: State, forward: bool)
    requires Sane(e) && e.mode == TraceMode && Reached(e, r, st)
    ensures Reached(e, r, Press(e, st, forward))
  {
    hide OnPage, OffPage, FirstPage, Stale, BehindStale, Press;
    if OnPage(e, st) {
      OnPagePress(e, st, forward);
    } else if OffPage(e, r, st) {
      OffPagePress(e, r, st, forward);
    } else if FirstPage(e, r, st) {
      FirstPagePress(e, r, st, forward);
    } else if Stale(e, r, st) {
      StalePress(e, r, st, forward);
    } else {
      BehindStalePress(e, r, st, forward);
    }
  }

  /** Stepping back off the page boundaries ends on the first page. */
  lemma {:induction false} OffBack(e: Env, r: nat, st: State) returns (presses: seq<bool>)
    requires Sane(e) && e.mode == TraceMode && 0 < r < e.numPlots && OffPage(e, r, st)
    ensures FirstPage(e, r, Run(e, st, presses))
    decreases st.startRec
  {
    hide Page, Press;
    OffPagePress(e, r, st, false);
    var back, rest := Press(e, st, false), [];
    if !FirstPage(e, r, back) { rest := OffBack(e, r, back); }
    presses := [false] + rest;
    assert presses[1..] == rest;
  }

  /** INITGROUP at a position of the list. */
  lemma InitReached(e: Env, s: nat)
    requires Sane(e) && e.mode == TraceMode && s <= |e.traces|
    ensures Reached(e, s % e.numPlots, Init(e, s)) && Init(e, s).startRec == s
    ensures s % e.numPlots == 0 ==> OnPage(e, Init(e, s))
    ensures s % e.numPlots != 0 ==> OffPage(e, s % e.numPlots, Init(e, s))
  {
    hide Page;
    PageLength(e.traces, e.numPlots, s + e.numPlots);
    if s % e.numPlots == 0 {
      InitAtBoundary(e, s);
    } else {
      DivModUnique(0, e.numPlots, 0, 0);
    }
  }

  /** From every start, every run of the buttons ends in one of the states above. */
  lemma {:induction false} RunReached(e: Env, r: nat, st: State, presses: seq<bool>)
    requires Sane(e) && e.mode == TraceMode && Reached(e, r, st)
    ensures Reached(e, r, Run(e, st, presses))
    decreases |presses|
  {
    hide Reached, Press;
    assert 0 <= st.startRec by { ReachedInside(e, r, st); }
    if presses != [] {
      PressReached(e, r, st, presses[0]);
      ReachedInside(e, r, Press(e, st, presses[0]));
      RunReached(e, r, Press(e, st, presses[0]), presses[1..]);
    }
  }

  lemma ReachedInside(e: Env, r: nat, st: State)
    requires e.numPlots > 0 && Reached(e, r, st)
    ensures 0 <= st.startRec <= |e.traces|
  {}
}
