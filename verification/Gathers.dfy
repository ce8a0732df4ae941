/** Gather mode: the greedy groups partition the time-sorted list, and the buttons move a zipper
    over them. */
module Gathers {
  import opened Paging

  ghost predicate TimeSorted(traces: seq<Trace>)
  {
    forall i, j :: 0 <= i < j < |traces| ==> traces[i].epochs <= traces[j].epochs
  }

  /** In a sorted list a gather is exactly the traces from its first on that start within the spread. */
  lemma GatherExact(e: Env, i: nat, j: nat)
    requires Sane(e) && TimeSorted(e.traces) && i <= j < |e.traces|
    ensures j < GatherEnd(e, i) <==> e.traces[j].epochs - e.traces[i].epochs <= e.spread
  {
    var k := GatherEnd(e, i);
    if k < j { assert e.traces[k].epochs <= e.traces[j].epochs; }
  }

  lemma GatherSize(e: Env, i: nat)
    requires Sane(e) && i < |e.traces|
    ensures |Gather(e, i)| == GatherEnd(e, i) - i > 0
    ensures multiset(Gather(e, i)) == multiset(e.traces[i..GatherEnd(e, i)]) && SensorSorted(Gather(e, i))
  {
    var s := e.traces[i..GatherEnd(e, i)];
    assert multiset(e.instSort(s)) == multiset(s);
    assert |e.instSort(s)| == |multiset(e.instSort(s))| == |s|;
  }

  // ----- the sequence of groups

  /** Position of the k-th gather, the length of the list when there are fewer. */
  function Cut(e: Env, k: nat): (c: nat)
    ensures c <= |e.traces|
  {
    if k == 0 then 0
    else if Cut(e, k - 1) < |e.traces| then GatherEnd(e, Cut(e, k - 1)) else |e.traces|
  }

  function GroupAt(e: Env, k: nat): seq<Trace>
  {
    if Cut(e, k) < |e.traces| then Gather(e, Cut(e, k)) else []
  }

  /** All gathers from position i on. */
  ghost function Gathered(e: Env, i: nat): seq<seq<Trace>>
    requires Sane(e) && i <= |e.traces|
    decreases |e.traces| - i
  {
    if i == |e.traces| then [] else [Gather(e, i)] + Gathered(e, GatherEnd(e, i))
  }

  ghost function Flat(groups: seq<seq<Trace>>): seq<Trace>
  {
    if groups == [] then [] else groups[0] + Flat(groups[1..])
  }

  /** Nothing is lost or repeated. */
  lemma {:induction false} GathersPartition(e: Env, i: nat)
    requires Sane(e) && i <= |e.traces|
    ensures multiset(Flat(Gathered(e, i))) == multiset(e.traces[i..])
    decreases |e.traces| - i
  {
    hide SortsSensors, Gather;
    if i < |e.traces| {
      var k := GatherEnd(e, i);
      GatherSize(e, i);
      GathersPartition(e, k);
      assert e.traces[i..] == e.traces[i..k] + e.traces[k..];
      assert Gathered(e, i)[1..] == Gathered(e, k);
    }
  }

  /** The k-th gather is the k-th group of the list of all gathers. */
  lemma {:induction false} CutsEnumerate(e: Env, k: nat)
    requires Sane(e)
    ensures Cut(e, k) < |e.traces| ==> k < |Gathered(e, 0)| && Gathered(e, 0)[k] == GroupAt(e, k)
    ensures k <= |Gathered(e, 0)| ==> Gathered(e, 0)[k..] == Gathered(e, Cut(e, k))
    ensures k > |Gathered(e, 0)| ==> Cut(e, k) == |e.traces|
  {
    if k > 0 {
      CutsEnumerate(e, k - 1);
      var g, c := Gathered(e, 0), Cut(e, k - 1);
      if c < |e.traces| {
        assert g[k - 1..][1..] == g[k..];
        assert Gathered(e, c)[1..] == Gathered(e, Cut(e, k));
      }
    }
  }

  // ----- the zipper

  function Before(e: Env, k: nat): seq<Trace> { if k == 0 then [] else GroupAt(e, k - 1) }

  /** The history: the previous groups of all earlier states, latest first. */
  function History(e: Env, k: nat): (h: seq<seq<Trace>>)
    ensures |h| == k
  {
    if k == 0 then [] else [Before(e, k - 1)] + History(e, k - 1)
  }

  /** The state in which the k-th gather is the current group. */
  function Zipper(e: Env, k: nat): State
  {
    State(Cut(e, k), Before(e, k), GroupAt(e, k), GroupAt(e, k + 1), History(e, k))
  }

  /** startRec is the number of traces in the groups before the current one. */
  lemma {:induction false} CutIsSum(e: Env, k: nat)
    requires Sane(e) && Cut(e, k) < |e.traces|
    ensures k < |Gathered(e, 0)| && Cut(e, k) == |Flat(Gathered(e, 0)[..k])|
    decreases k
  {
    hide Gather, GatherEnd, Gathered;
    CutsEnumerate(e, k);
    if k > 0 {
      CutIsSum(e, k - 1);
      CutsEnumerate(e, k - 1);
      GatherSize(e, Cut(e, k - 1));
      var g := Gathered(e, 0);
      assert g[..k] == g[..k - 1] + [g[k - 1]];
      FlatSnoc(g[..k - 1], g[k - 1]);
    }
  }

  lemma {:induction false} FlatSnoc(a: seq<seq<Trace>>, b: seq<Trace>)
    ensures Flat(a + [b]) == Flat(a) + b
  {
    if a == [] {
      assert Flat([b]) == b + Flat([b][1..]);
    } else {
      assert (a + [b])[1..] == a[1..] + [b];
      FlatSnoc(a[1..], b);
    }
  }

  lemma ZipperInit(e: Env)
    requires Sane(e) && e.mode == GatherMode && |e.traces| > 0
    ensures Init(e, 0) == Zipper(e, 0)
  {
    GatherSize(e, 0);
  }

  lemma ZipperNext(e: Env, k: nat)
    requires Sane(e) && e.mode == GatherMode && Cut(e, k) < |e.traces|
    ensures Zipper(e, k).next == [] <==> Cut(e, k + 1) == |e.traces|
    ensures Cut(e, k + 1) < |e.traces| ==> Next(e, Zipper(e, k)) == Zipper(e, k + 1)
  {
    hide GatherEnd, Gather;
    GatherSize(e, Cut(e, k));
    if Cut(e, k + 1) < |e.traces| {
      GatherSize(e, Cut(e, k + 1));
    }
  }

  lemma ZipperPrev(e: Env, k: nat)
    requires Sane(e) && e.mode == GatherMode && Cut(e, k) < |e.traces|
    ensures Zipper(e, k).prev == [] <==> k == 0
    ensures k > 0 ==> Cut(e, k - 1) < |e.traces| && Prev(e, Zipper(e, k)) == Zipper(e, k - 1)
  {
    hide GatherEnd, Gather;
    if k > 0 {
      GatherSize(e, Cut(e, k - 1));
    }
  }

  /** The group a button leads to. */
  function Step(e: Env, k: nat, forward: bool): nat
  {
    if forward then (if Cut(e, k + 1) < |e.traces| then k + 1 else k) else if k > 0 then k - 1 else 0
  }

  /** Position after a run of buttons from the k-th gather. */
  function Moved(e: Env, k: nat, presses: seq<bool>): nat
    decreases |presses|
  {
    if presses == [] then k else Moved(e, Step(e, k, presses[0]), presses[1..])
  }

  lemma ZipperPress(e: Env, k: nat, forward: bool)
    requires Sane(e) && e.mode == GatherMode && Cut(e, k) < |e.traces|
    ensures Cut(e, Step(e, k, forward)) < |e.traces|
    ensures Press(e, Zipper(e, k), forward) == Zipper(e, Step(e, k, forward))
  {
    hide Zipper, Cut, Next, Prev;
    ZipperNext(e, k);
    ZipperPrev(e, k);
  }

  /** Every run of buttons from INITGROUP keeps the zipper. */
  lemma {:induction false} GatherRun(e: Env, k: nat, presses: seq<bool>)
    requires Sane(e) && e.mode == GatherMode && Cut(e, k) < |e.traces|
    ensures Cut(e, Moved(e, k, presses)) < |e.traces|
    ensures Run(e, Zipper(e, k), presses) == Zipper(e, Moved(e, k, presses))
    decreases |presses|
  {
    hide Zipper, Cut, Step, Press;
    if presses != [] {
      ZipperPress(e, k, presses[0]);
      GatherRun(e, Step(e, k, presses[0]), presses[1..]);
    }
  }

  // ----- what the screen shows

  /** grp holds the traces i, ..., k - 1 of the list by sensor: those that start within the spread of
      trace i, up to the first that does not. */
  ghost predicate IsGather(traces: seq<Trace>, spread: real, i: int, k: int, grp: seq<Trace>)
  {
    && 0 <= i < k <= |traces| && multiset(grp) == multiset(traces[i..k])
    && (forall m, n :: 0 <= m < n < |grp| ==> StringLeq(grp[m].sensor, grp[n].sensor))
    && (forall j :: i <= j < k ==> traces[j].epochs - traces[i].epochs <= spread)
    && (k < |traces| ==> traces[k].epochs - traces[i].epochs > spread)
  }

  /** The groups left and right of the current one are the gathers before and behind it, empty only at
      the ends of the list. */
  ghost predicate GatherScreen(e: Env, st: State)
  {
    && IsGather(e.traces, e.spread, st.startRec, st.startRec + |st.cur|, st.cur)
    && (if st.startRec == 0 then st.prev == []
        else IsGather(e.traces, e.spread, st.startRec - |st.prev|, st.startRec, st.prev))
    && var k := st.startRec + |st.cur|;
       if k == |e.traces| then st.next == [] else IsGather(e.traces, e.spread, k, k + |st.next|, st.next)
  }

  lemma GatherIs(e: Env, i: nat)
    requires Sane(e) && i < |e.traces|
    ensures IsGather(e.traces, e.spread, i, i + |Gather(e, i)|, Gather(e, i)) && GatherEnd(e, i) == i + |Gather(e, i)|
  {
    GatherSize(e, i);
  }

  lemma GroupAtIs(e: Env, k: nat)
    requires Sane(e)
    ensures Cut(e, k) == |e.traces| ==> GroupAt(e, k) == []
    ensures Cut(e, k) < |e.traces| ==> IsGather(e.traces, e.spread, Cut(e, k), Cut(e, k) + |GroupAt(e, k)|, GroupAt(e, k))
                                       && Cut(e, k + 1) == Cut(e, k) + |GroupAt(e, k)|
  {
    hide Gather, GatherEnd, IsGather, SortsSensors;
    if Cut(e, k) < |e.traces| { GatherIs(e, Cut(e, k)); }
  }

  lemma ZipperShows(e: Env, k: nat)
    requires Sane(e) && Cut(e, k) < |e.traces|
    ensures GatherScreen(e, Zipper(e, k))
  {
    hide GroupAt, Cut, IsGather, SortsSensors, History;
    assert Cut(e, 0) == 0 by { CutZero(e); }
    GroupAtIs(e, k);
    GroupAtIs(e, k + 1);
    if k > 0 {
      CutsIncrease(e, k - 1, k);
      GroupAtIs(e, k - 1);
    }
  }

  lemma CutZero(e: Env)
    ensures Cut(e, 0) == 0
  {}

  /** Every run of the buttons from INITGROUP shows three consecutive gathers, each sorted by sensor. */
  lemma RunShowsGathers(e: Env, presses: seq<bool>)
    requires Sane(e) && e.mode == GatherMode && |e.traces| > 0
    ensures GatherScreen(e, Run(e, Init(e, 0), presses))
  {
    hide Zipper;
    ZipperInit(e);
    GatherRun(e, 0, presses);
    ZipperShows(e, Moved(e, 0, presses));
  }

  /** k times NEXT */
  function Nexts(k: nat): (p: seq<bool>)
    ensures |p| == k
  {
    seq(k, _ => true)
  }

  lemma NextsStep(k: nat)
    requires k > 0
    ensures Nexts(k)[0] && Nexts(k)[1..] == Nexts(k - 1)
  {}

  lemma {:induction false} NextsMove(e: Env, j: nat, k: nat)
    requires Sane(e) && Cut(e, j + k) < |e.traces|
    ensures Moved(e, j, Nexts(k)) == j + k
    decreases k
  {
    hide Cut, SortsSensors, Nexts;
    if k > 0 {
      CutsIncrease(e, j + 1, j + k);
      NextsStep(k);
      NextsMove(e, j + 1, k - 1);
    }
  }

  lemma {:induction false} CutsIncrease(e: Env, j: nat, k: nat)
    requires Sane(e) && j <= k && Cut(e, k) < |e.traces|
    ensures Cut(e, j) < |e.traces|
  {
    hide GatherEnd, SortsSensors;
    if j < k { CutsIncrease(e, j, k - 1); }
  }

  lemma {:induction false} CutInside(e: Env, k: nat)
    requires Sane(e) && k < |Gathered(e, 0)|
    ensures Cut(e, k) < |e.traces|
  {
    CutsEnumerate(e, k);
    assert Gathered(e, 0)[k..] != [];
  }

  /** Pressing NEXT shows one gather after the other, until every trace was shown once. */
  lemma NextShowsAll(e: Env, k: nat)
    requires Sane(e) && e.mode == GatherMode && |e.traces| > 0 && k < |Gathered(e, 0)|
    ensures Run(e, Init(e, 0), Nexts(k)).cur == Gathered(e, 0)[k]
    ensures multiset(Flat(Gathered(e, 0))) == multiset(e.traces)
  {
    hide Cut, SortsSensors, Nexts, Moved, Gathered, Flat, Init, Run, GroupAt;
    CutInside(e, k);
    CutsEnumerate(e, k);
    CutsIncrease(e, 0, k);
    ZipperInit(e);
    GatherRun(e, 0, Nexts(k));
    NextsMove(e, 0, k);
    GathersPartition(e, 0);
    assert e.traces[0..] == e.traces;
  }

  /** INITGROUP starts the zipper exactly when startRec is 0. */
  lemma GatherModeSafety(e: Env, s: nat)
    requires Sane(e) && e.mode == GatherMode && |e.traces| > 0
    ensures (forall presses: seq<bool> ::
               exists k :: 0 <= k && Cut(e, k) < |e.traces| && Run(e, Init(e, s), presses) == Zipper(e, k))
       <==> s == 0
  {
    if s == 0 {
      ZipperInit(e);
      forall presses: seq<bool>
        ensures exists k :: 0 <= k && Cut(e, k) < |e.traces| && Run(e, Init(e, s), presses) == Zipper(e, k)
      {
        GatherRun(e, 0, presses);
      }
    } else {
      assert Run(e, Init(e, s), []) == Init(e, s);
      assert Init(e, s).hist == [] && Init(e, s).startRec == s;
      assert forall k: nat :: Zipper(e, k).startRec == s ==> |Zipper(e, k).hist| == k > 0;
    }
  }
}
