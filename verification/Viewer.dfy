/** The trace viewer as the object the buttons work on: the global position, groups, history and
    memory, updated in place. Its methods are tied to the functions of Paging and Residency. */
module Viewer {
  import opened Paging
  import opened Gathers
  import opened Residency

  datatype Command = InitGroup | PrevGroup | NextGroup

  /** grp holds the p traces of the list from position s on, or as many as there are. */
  ghost predicate Shows(traces: seq<Trace>, s: int, p: nat, grp: seq<Trace>)
  {
    if 0 <= s < |traces| then grp == traces[s..if s + p <= |traces| then s + p else |traces|] else grp == []
  }

  /** The three groups of trace mode around position s. */
  ghost predicate ShowsAround(traces: seq<Trace>, s: nat, p: nat, prev: seq<Trace>, cur: seq<Trace>, next: seq<Trace>)
  {
    && Shows(traces, s, p, cur) && Shows(traces, s + p, p, next)
    && if s == 0 then prev == [] else Shows(traces, if s > p then s - p else 0, p, prev)
  }

  /** A list sorted by start time. */
  ghost predicate SortsTimes(f: seq<Trace> -> seq<Trace>)
  {
    forall s: seq<Trace> {:trigger f(s)} :: multiset(f(s)) == multiset(s) && TimeSorted(f(s))
  }

  lemma InitShowsAround(e: Env, s: nat)
    requires e.mode == TraceMode
    ensures var st := Init(e, s); st.startRec == s && ShowsAround(e.traces, s, e.numPlots, st.prev, st.cur, st.next)
  {
    hide Page, Shows;
    PageShows(e.traces, e.numPlots, s);
    PageShows(e.traces, e.numPlots, s + e.numPlots);
    PageShows(e.traces, e.numPlots, if s > e.numPlots then s - e.numPlots else 0);
  }

  lemma PageShows(traces: seq<Trace>, p: nat, s: int)
    ensures Shows(traces, s, p, Page(traces, p, s))
    ensures s + p > |traces| ==> Shows(traces, s + p, p, [])
  {}

  /** INITGROUP stays where it is. */
  lemma InitStart(e: Env, s: int)
    requires Pageable(e) && (e.mode == GatherMode ==> 0 <= s)
    ensures Init(e, s).startRec == s
  {
    hide Page, Gather;
  }

  /** What a button does to the fields. */
  lemma PressMoves(e: Env, st: State, forward: bool)
    requires Pageable(e) && 0 <= st.startRec && (if forward then st.next else st.prev) != []
    ensures var to := Press(e, st, forward);
      && (forward ==> to.startRec == st.startRec + |st.cur| && to.prev == st.cur && to.cur == st.next)
      && (!forward ==> to.startRec == (if st.startRec >= |st.prev| then st.startRec - |st.prev| else 0)
                       && to.cur == st.prev && to.next == st.cur)
      && (e.mode == TraceMode && forward ==> Shows(e.traces, to.startRec + e.numPlots, e.numPlots, to.next))
      && (e.mode == TraceMode && !forward ==>
            if to.startRec == 0 then to.prev == []
            else Shows(e.traces, if to.startRec > e.numPlots then to.startRec - e.numPlots else 0, e.numPlots, to.prev))
      && (e.mode == GatherMode && forward ==> to.hist == [st.prev] + st.hist)
      && (e.mode == GatherMode && !forward ==> [to.prev] + to.hist == if st.hist == [] then [[]] else st.hist)
  {
    hide Page, Shows, Gather;
    var to := Press(e, st, forward);
    PageShows(e.traces, e.numPlots, to.startRec);
    PageShows(e.traces, e.numPlots, to.startRec + e.numPlots);
    PageShows(e.traces, e.numPlots, if to.startRec > e.numPlots then to.startRec - e.numPlots else 0);
  }

  class TraceViewer {
    const instSort: seq<Trace> -> seq<Trace>
    const timeSort: seq<Trace> -> seq<Trace>
    var mode: Mode
    var traces: seq<Trace>
    var numPlots: nat
    var spread: real
    var startRec: int
    var prevGrp: seq<Trace>
    var curGrp: seq<Trace>
    var nextGrp: seq<Trace>
    var prevList: seq<seq<Trace>>
    var resident: set<Trace>
    var prevStartRec: int
    var prevNumPlots: nat

    constructor (mode: Mode, traces: seq<Trace>, numPlots: nat, spread: real,
                 instSort: seq<Trace> -> seq<Trace>, timeSort: seq<Trace> -> seq<Trace>)
      ensures Settings() == Env(mode, traces, numPlots, spread, instSort) && this.timeSort == timeSort
      ensures resident == {} && prevStartRec == 0 && prevNumPlots == 0
    {
      this.mode, this.traces, this.numPlots, this.spread := mode, traces, numPlots, spread;
      this.instSort, this.timeSort := instSort, timeSort;
      startRec, prevGrp, curGrp, nextGrp, prevList := 0, [], [], [], [];
      resident, prevStartRec, prevNumPlots := {}, 0, 0;
    }

    function Settings(): Env
      reads this
    {
      Env(mode, traces, numPlots, spread, instSort)
    }

    function Screen(): State
      reads this
    {
      State(startRec, prevGrp, curGrp, nextGrp, prevList)
    }

    function Whole(): View
      reads this
    {
      View(Settings(), Screen(), resident, prevStartRec, prevNumPlots)
    }

    /** Up to numPlots traces from a position of the list. */
    method CollectPage(s: int) returns (grp: seq<Trace>)
      ensures grp == Page(traces, numPlots, s)
    {
      grp := [];
      if s < 0 { return; }
      var k, i := s, 0;
      while k < |traces| && i < numPlots
        invariant k == s + i && 0 <= i <= numPlots
        invariant s <= |traces| ==> k <= |traces| && grp == traces[s..k]
        invariant s > |traces| ==> i == 0 && grp == []
      {
        grp := grp + [traces[k]];
        k, i := k + 1, i + 1;
      }
    }

    /** The gather that starts at a position of the list, sorted by instrument. */
    method CollectGather(s: nat) returns (grp: seq<Trace>)
      requires s < |traces|
      ensures grp == Gather(Settings(), s)
    {
      hide Page, GroupLength;
      grp := [];
      var epochS := traces[s].epochs;
      ghost var list, end := traces, GatherEnd(Settings(), s);
      var k := s;
      while k < |traces|
        invariant s <= k <= |list| && grp == list[s..k]
        invariant k + GroupLength(list, k, epochS, spread) == end
      {
        GroupStep(list, k, epochS, spread);
        if traces[k].epochs - epochS > spread { break; }
        SliceNext(list, s, k);
        grp := grp + [traces[k]];
        k := k + 1;
      }
      GroupStep(list, k, epochS, spread);
      grp := instSort(grp);
    }

    /** Refill one of the three groups. */
    method DispList(which: Slot)
      requires Pageable(Settings()) && (mode == GatherMode ==> 0 <= startRec)
      requires mode == GatherMode && which == CurGrp ==> |timeSort(traces)| > 0
      modifies this`prevGrp, this`curGrp, this`nextGrp, this`prevList, this`traces
      ensures traces == if mode == GatherMode && which == CurGrp then timeSort(old(traces)) else old(traces)
      ensures Screen() == Fill(Settings(), old(Screen()), which)
    {
      hide Page, Gather;
      match mode {
        case TraceMode =>
          match which {
            case CurGrp =>
              curGrp := CollectPage(startRec);
            case PrevGrp =>
              prevGrp := [];
              if startRec != 0 {
                prevGrp := CollectPage(if startRec - numPlots > 0 then startRec - numPlots else 0);
              }
            case NextGrp =>
              nextGrp := [];
              if startRec + numPlots <= |traces| {
                nextGrp := CollectPage(startRec + numPlots);
              }
          }
        case GatherMode =>
          match which {
            case CurGrp =>
              traces := timeSort(traces);
              curGrp := CollectGather(0);
            case NextGrp =>
              nextGrp := [];
              if startRec + |curGrp| < |traces| {
                nextGrp := CollectGather(startRec + |curGrp|);
              }
            case PrevGrp =>
              prevGrp := [];
              if |prevList| > 0 {
                prevGrp, prevList := prevList[0], prevList[1..];
              }
          }
      }
    }

    /** The list INITGROUP pages through. */
    function Ordered(): seq<Trace>
      reads this
    {
      if mode == GatherMode then timeSort(traces) else traces
    }

    method MakeDispList(cmd: Command)
      requires Pageable(Settings()) && (mode == GatherMode ==> 0 <= startRec)
      requires mode == GatherMode && cmd == InitGroup ==> |Ordered()| > 0
      modifies this`startRec, this`prevGrp, this`curGrp, this`nextGrp, this`prevList, this`traces
      ensures traces == if cmd == InitGroup then old(Ordered()) else old(traces)
      ensures cmd == InitGroup ==> Screen() == Init(Settings(), old(startRec))
      ensures cmd == NextGroup ==> Screen() == Next(Settings(), old(Screen()))
      ensures cmd == PrevGroup ==> Screen() == Prev(Settings(), old(Screen()))
    {
      hide Fill;
      match cmd {
        case InitGroup =>
          prevList := [];
          prevGrp, curGrp, nextGrp := [], [], [];
          DispList(CurGrp);
          DispList(PrevGrp);
          DispList(NextGrp);
        case PrevGroup =>
          startRec := startRec - |prevGrp|;
          if startRec < 0 { startRec := 0; }
          nextGrp := curGrp;
          curGrp := prevGrp;
          DispList(PrevGrp);
        case NextGroup =>
          startRec := startRec + |curGrp|;
          if mode == GatherMode { prevList := [prevGrp] + prevList; }
          prevGrp := curGrp;
          curGrp := nextGrp;
          DispList(NextGrp);
      }
    }

    /** The NEXT and PREVIOUS buttons, guarded at both ends of the list. */
    method NextTrace(forward: bool) returns (moved: bool)
      requires Pageable(Settings()) && (mode == GatherMode ==> 0 <= startRec)
      modifies this`startRec, this`prevGrp, this`curGrp, this`nextGrp, this`prevList, this`traces
      ensures Settings() == old(Settings())
      ensures Screen() == Press(Settings(), old(Screen()), forward)
      ensures moved <==> old(if forward then nextGrp else prevGrp) != []
      ensures !moved ==> Screen() == old(Screen())
      ensures moved && forward && old(startRec) >= 0 ==>
        startRec == old(startRec + |curGrp|) && prevGrp == old(curGrp) && curGrp == old(nextGrp)
      ensures moved && !forward && old(startRec) >= 0 ==>
        && startRec == old(if startRec >= |prevGrp| then startRec - |prevGrp| else 0)
        && curGrp == old(prevGrp) && nextGrp == old(curGrp)
      ensures moved && mode == TraceMode && old(startRec) >= 0 ==>
        if forward then Shows(traces, startRec + numPlots, numPlots, nextGrp)
        else if startRec == 0 then prevGrp == []
        else Shows(traces, if startRec > numPlots then startRec - numPlots else 0, numPlots, prevGrp)
      ensures moved && mode == GatherMode ==>
        if forward then prevList == old([prevGrp] + prevList)
        else [prevGrp] + prevList == old(if prevList == [] then [[]] else prevList)
    {
      hide Shows, Page, Gather, Fill, Press;
      ghost var st := Screen();
      PressStays(Settings(), st, forward);
      if startRec >= 0 && (if forward then nextGrp else prevGrp) != [] { PressMoves(Settings(), st, forward); }
      if forward && nextGrp == [] { return false; }
      if !forward && prevGrp == [] { return false; }
      MakeDispList(if forward then NextGroup else PrevGroup);
      moved := true;
    }

    /** Free the samples of the last page that the new page does not show. */
    method MakeList()
      requires mode == TraceMode
      modifies this`resident
      ensures resident == old(resident) - Freed(old(Whole()))
    {
      var i := prevStartRec;
      ghost var v := Whole();
      ghost var gone: set<Trace> := {};
      while i < prevNumPlots + prevStartRec && i < |traces|
        invariant prevStartRec <= i
        invariant resident == old(resident) - gone
        invariant gone == FreedBelow(v, i)
      {
        if (i < startRec || i > startRec + numPlots - 1) && 0 <= i && !traces[i].sticky {
          resident := resident - {traces[i]};
        }
        gone := FreedBelow(v, i + 1);
        FreedStep(v, i);
        i := i + 1;
      }
      assert FreedBelow(v, i) == Freed(v);
    }

    /** Read the samples of the current group that are not in memory. */
    method ReadMissing()
      modifies this`resident
      ensures resident == old(resident) + set t | t in curGrp
    {
      var i := 0;
      while i < |curGrp|
        invariant 0 <= i <= |curGrp|
        invariant resident == old(resident) + set t | t in curGrp[..i]
      {
        if curGrp[i] !in resident {
          resident := resident + {curGrp[i]};
        }
        assert curGrp[..i + 1] == curGrp[..i] + [curGrp[i]];
        i := i + 1;
      }
      assert curGrp[..i] == curGrp;
    }

    /** The redraw: free, read what is missing of the current group, remember the page. */
    method ReadData()
      requires mode == TraceMode
      modifies this`resident, this`prevStartRec, this`prevNumPlots
      ensures Whole() == Load(old(Whole()))
      ensures forall t :: t in curGrp || (t in old(resident) && t.sticky) ==> t in resident
      ensures forall t :: t in resident ==> t in old(resident) || t in curGrp
      ensures forall t :: t in old(resident) && t !in resident ==>
        exists i: int :: 0 <= i < |traces| && traces[i] == t && !(startRec <= i < startRec + numPlots)
                         && old(prevStartRec) <= i < old(prevStartRec) + old(prevNumPlots)
    {
      FreedMeaning(Whole());
      hide Freed;
      MakeList();
      ReadMissing();
      prevNumPlots, prevStartRec := numPlots, startRec;
    }

    /** A button, and the redraw it asks for when it moves: a good view stays good. */
    method TurnPage(forward: bool)
      requires mode == TraceMode
      modifies this
      ensures Whole() == Act(old(Whole()), Turn(forward))
      ensures old(Good(Whole())) ==> Good(Whole())
    {
      ghost var v := Whole();
      var moved := NextTrace(forward);
      if moved { ReadData(); }
      if Good(v) {
        GoodInside(v);
        ActKeepsGood(v, Turn(forward));
      }
    }

    /** Restart from a position, with its redraw. */
    method RestartTrace(s: nat)
      requires mode == TraceMode
      modifies this
      ensures Whole() == Act(old(Whole()), Restart(s))
      ensures startRec == s && numPlots == old(numPlots) && traces == old(traces)
      ensures ShowsAround(traces, s, numPlots, prevGrp, curGrp, nextGrp)
    {
      hide Page, Fill, ShowsAround;
      InitShowsAround(Settings(), s);
      startRec := s;
      MakeDispList(InitGroup);
      ReadData();
    }

    /** Restart in gather mode: the list is sorted by start time, and the screen shows its first two
        gathers, each sorted by sensor. */
    method RestartGathers()
      requires mode == GatherMode && Sane(Settings()) && SortsTimes(timeSort) && traces != []
      modifies this`startRec, this`prevGrp, this`curGrp, this`nextGrp, this`prevList, this`traces
      ensures multiset(traces) == multiset(old(traces))
      ensures forall i, j :: 0 <= i < j < |traces| ==> traces[i].epochs <= traces[j].epochs
      ensures startRec == 0 && prevGrp == [] && IsGather(traces, spread, 0, |curGrp|, curGrp)
      ensures if |curGrp| == |traces| then nextGrp == []
              else IsGather(traces, spread, |curGrp|, |curGrp| + |nextGrp|, nextGrp)
      ensures GatherScreen(Settings(), Screen())
    {
      hide Init, Run, IsGather, SortsSensors;
      ghost var list := timeSort(traces);
      assert multiset(list) == multiset(traces) && TimeSorted(list);
      assert list != [] by { assert traces[0] in multiset(list); }
      startRec := 0;
      MakeDispList(InitGroup);
      InitStart(Settings(), 0);
      RunShowsGathers(Settings(), []);
      RunNothing(Settings(), Init(Settings(), 0));
    }

    /** A new number of traces per page, with its redraw. */
    method ChangePlots(p: nat)
      requires mode == TraceMode
      modifies this
      ensures Whole() == Act(old(Whole()), SetPlots(p))
      ensures startRec == old(startRec) && numPlots == p && traces == old(traces)
      ensures 0 <= startRec ==> ShowsAround(traces, startRec, p, prevGrp, curGrp, nextGrp)
    {
      hide Page, Fill, ShowsAround, Init;
      InitStart(Settings().(numPlots := p), startRec);
      if 0 <= startRec { InitShowsAround(Settings().(numPlots := p), startRec); }
      numPlots := p;
      MakeDispList(InitGroup);
      ReadData();
    }
  }

  lemma FreedMeaning(v: View)
    ensures forall t :: t in Freed(v) ==> !t.sticky
    ensures forall t :: t in Freed(v) ==>
      exists i: int :: 0 <= i < |v.e.traces| && v.e.traces[i] == t && !(v.st.startRec <= i < v.st.startRec + v.e.numPlots)
                       && v.prevStart <= i < v.prevStart + v.prevPlots
  {}

  lemma RunNothing(e: Env, st: State)
    requires Sane(e) && Pageable(e) && 0 <= st.startRec
    ensures Run(e, st, []) == st
  {}

  lemma PressStays(e: Env, st: State, forward: bool)
    requires Pageable(e) && (e.mode == GatherMode ==> 0 <= st.startRec)
    ensures (if forward then st.next else st.prev) == [] ==> Press(e, st, forward) == st
    ensures (if forward then st.next else st.prev) != [] ==>
      Press(e, st, forward) == if forward then Next(e, st) else Prev(e, st)
  {}

  lemma SliceNext(traces: seq<Trace>, s: nat, k: nat)
    requires s <= k < |traces|
    ensures traces[s..k] + [traces[k]] == traces[s..k + 1]
  {}

  lemma GroupStep(traces: seq<Trace>, k: nat, epoch: real, spread: real)
    requires k <= |traces|
    ensures GroupLength(traces, k, epoch, spread)
         == if k == |traces| || traces[k].epochs - epoch > spread then 0 else 1 + GroupLength(traces, k + 1, epoch, spread)
  {}

  /** What MakeList has freed before it looks at position i. */
  ghost function FreedBelow(v: View, i: int): set<Trace>
  {
    set k | 0 <= k < |v.e.traces| && v.prevStart <= k < v.prevPlots + v.prevStart && k < i
            && (k < v.st.startRec || k > v.st.startRec + v.e.numPlots - 1) && !v.e.traces[k].sticky :: v.e.traces[k]
  }

  lemma FreedStep(v: View, i: int)
    requires v.prevStart <= i < v.prevPlots + v.prevStart && i < |v.e.traces|
    ensures FreedBelow(v, i + 1)
         == FreedBelow(v, i) + (if 0 <= i && (i < v.st.startRec || i > v.st.startRec + v.e.numPlots - 1)
                                   && !v.e.traces[i].sticky then {v.e.traces[i]} else {})
  {}
}
