/** The simulator's sliding-window oscillation detector (_detect_oscillations in mode_simulator.py). */
module Oscillations {
  import opened Modes
  import opened ModeFlips

  datatype OscillationEvent = OscillationEvent(
    windowStart: real, windowEnd: real, flipCount: nat, modesVisited: ModeList, chainDepth: nat)

  /** The directions of the transitions from i up to j that move at all. */
  function Moves(ts: seq<Transition>, i: nat, j: nat): (ds: seq<int>)
    requires j <= |ts|
    ensures |ds| <= if i <= j then j - i else 0
    ensures forall k :: 0 <= k < |ds| ==> ds[k] != 0
  {
    if j <= i then []
    else Moves(ts, i, j - 1) + if Dir(ts[j - 1]) == 0 then [] else [Dir(ts[j - 1])]
  }

  /** The detector's flips: adjacent moves that differ, in sign or merely in size. */
  function RawFlips(ds: seq<int>): nat {
    if |ds| < 2 then 0
    else RawFlips(ds[..|ds| - 1]) + if ds[|ds| - 2] != ds[|ds| - 1] then 1 else 0
  }

  /** Adjacent moves in the same direction but of different size. */
  function SizeChanges(ds: seq<int>): nat {
    if |ds| < 2 then 0
    else
      var a, b := ds[|ds| - 2], ds[|ds| - 1];
      SizeChanges(ds[..|ds| - 1]) + if a != b && !Opposite(a, b) then 1 else 0
  }

  /** The detector counts every true reversal, and besides those exactly the changes of size. */
  lemma {:induction false} RawFlipsDecompose(ds: seq<int>)
    ensures RawFlips(ds) == SignFlips(ds) + SizeChanges(ds)
  {
    if |ds| >= 2 {
      RawFlipsDecompose(ds[..|ds| - 1]);
    }
  }

  lemma {:induction false} RawFlipsNeedPairs(ds: seq<int>)
    ensures ds != [] ==> RawFlips(ds) < |ds|
  {
    if |ds| >= 2 {
      RawFlipsNeedPairs(ds[..|ds| - 1]);
    }
  }

  /** The list of visited modes, the latest one last; a datatype, since membership in a sequence that grows at its
      end costs the verifier far more. */
  datatype ModeList = Empty | Snoc(init: ModeList, last: SystemMode) {
    predicate Has(m: SystemMode) {
      Snoc? && (last == m || init.Has(m))
    }

    predicate Distinct() {
      Snoc? ==> !init.Has(last) && init.Distinct()
    }

    function Add(m: SystemMode): ModeList {
      if Has(m) then this else Snoc(this, m)
    }
  }

  function ModesSeen(ts: seq<Transition>, i: nat, j: nat): ModeList
    requires j <= |ts|
  {
    if j <= i then Empty
    else ModesSeen(ts, i, j - 1).Add(ts[j - 1].fromMode).Add(ts[j - 1].toMode)
  }

  ghost predicate Touches(t: Transition, m: SystemMode) {
    t.fromMode == m || t.toMode == m
  }

  /** The modes reported as visited are exactly those the window's transitions touch, each once. */
  lemma {:induction false} ModesSeenExact(ts: seq<Transition>, i: nat, j: nat, m: SystemMode)
    requires i <= j <= |ts|
    ensures ModesSeen(ts, i, j).Has(m) <==> exists k :: i <= k < j && Touches(ts[k], m)
    ensures ModesSeen(ts, i, j).Distinct()
    decreases j
  {
    if i < j {
      ModesSeenExact(ts, i, j - 1, m);
    }
  }

  /** Where the scan from index j stops: at the first transition later than limit. */
  function Stop(ts: seq<Transition>, limit: real, j: nat): (stop: nat)
    requires j <= |ts|
    ensures j <= stop <= |ts|
    ensures forall k :: j <= k < stop ==> ts[k].simTime <= limit
    ensures stop < |ts| ==> ts[stop].simTime > limit
    decreases |ts| - j
  {
    if j == |ts| || ts[j].simTime > limit then j else Stop(ts, limit, j + 1)
  }

  ghost predicate Sorted(ts: seq<Transition>) {
    forall i, j :: 0 <= i < j < |ts| ==> ts[i].simTime <= ts[j].simTime
  }

  /** Where the window that starts at transition i ends. */
  function WindowStop(ts: seq<Transition>, window: real, i: nat): (stop: nat)
    requires i < |ts|
    ensures i <= stop <= |ts|
  {
    Stop(ts, ts[i].simTime + window, i)
  }

  /** On time-sorted transitions the early break loses nothing: the scan covers exactly the
      transitions from i on that lie within the window. */
  lemma EarlyBreakIsExact(ts: seq<Transition>, window: real, i: nat, k: nat)
    requires Sorted(ts) && i <= k < |ts|
    ensures k < WindowStop(ts, window, i) <==> ts[k].simTime <= ts[i].simTime + window
  {
    var stop := WindowStop(ts, window, i);
    if stop < |ts| && stop <= k {
      assert ts[stop].simTime <= ts[k].simTime;
    }
  }

  // ----- the one-pass scan

  /** What the scan of a window accumulates. */
  datatype Scan = Scan(flips: nat, modesSeen: ModeList, chainDepth: nat, prevDir: int)

  function Advance(scan: Scan, t: Transition): Scan {
    var modes, dir := scan.modesSeen.Add(t.fromMode).Add(t.toMode), Dir(t);
    if dir == 0 then scan.(modesSeen := modes)
    else Scan(scan.flips + (if scan.prevDir != 0 && dir != scan.prevDir then 1 else 0),
              modes, if dir > 0 then scan.chainDepth + 1 else 0, dir)
  }

  function ScanOf(ts: seq<Transition>, i: nat, j: nat): Scan
    requires j <= |ts|
  {
    if j <= i then Scan(0, Empty, 0, 0) else Advance(ScanOf(ts, i, j - 1), ts[j - 1])
  }

  function LastMove(ds: seq<int>): int {
    if ds == [] then 0 else ds[|ds| - 1]
  }

  lemma AdvanceIsExact(ds: seq<int>, modes: ModeList, t: Transition)
    requires forall i :: 0 <= i < |ds| ==> ds[i] != 0
    ensures var ds' := ds + if Dir(t) == 0 then [] else [Dir(t)];
      Advance(Scan(RawFlips(ds), modes, CurrentChain(ds), LastMove(ds)), t)
      == Scan(RawFlips(ds'), modes.Add(t.fromMode).Add(t.toMode), CurrentChain(ds'), LastMove(ds'))
  {
    if Dir(t) == 0 {
      assert ds + [] == ds;
    } else {
      assert (ds + [Dir(t)])[..|ds|] == ds;
    }
  }

  /** The one-pass scan computes the flips, the modes and the chain of what it has scanned. */
  lemma {:induction false} ScanIsExact(ts: seq<Transition>, i: nat, j: nat)
    requires j <= |ts|
    ensures var ds := Moves(ts, i, j);
      ScanOf(ts, i, j) == Scan(RawFlips(ds), ModesSeen(ts, i, j), CurrentChain(ds), LastMove(ds))
    decreases j
  {
    if i < j {
      var ds, modes, t := Moves(ts, i, j - 1), ModesSeen(ts, i, j - 1), ts[j - 1];
      ScanIsExact(ts, i, j - 1);
      AdvanceIsExact(ds, modes, t);
      assert Moves(ts, i, j) == ds + if Dir(t) == 0 then [] else [Dir(t)];
      assert ModesSeen(ts, i, j) == modes.Add(t.fromMode).Add(t.toMode);
      assert ScanOf(ts, i, j) == Advance(Scan(RawFlips(ds), modes, CurrentChain(ds), LastMove(ds)), t);
    }
  }

  // ----- which windows are reported

  predicate Oscillates(scan: Scan) {
    scan.flips >= 2 || (scan.flips >= 1 && scan.chainDepth >= 2)
  }

  /** What the scan of the window that starts at transition i finds. */
  function WindowScan(ts: seq<Transition>, window: real, i: nat): Scan
    requires i < |ts|
  {
    ScanOf(ts, i, WindowStop(ts, window, i))
  }

  function Event(start: real, window: real, scan: Scan): OscillationEvent {
    OscillationEvent(start, start + window, scan.flips, scan.modesSeen, scan.chainDepth)
  }

  /** The report on the window that starts at transition i: one event, or none. */
  function Report(ts: seq<Transition>, window: real, i: nat): (events: seq<OscillationEvent>)
    requires i < |ts|
    ensures |events| <= 1
  {
    var scan := WindowScan(ts, window, i);
    if Oscillates(scan) then [Event(ts[i].simTime, window, scan)] else []
  }

  /** The reports on the windows that start below n. */
  function Reports(ts: seq<Transition>, window: real, n: nat): (reports: seq<seq<OscillationEvent>>)
    requires n <= |ts|
    ensures |reports| == n
  {
    if n == 0 then [] else Reports(ts, window, n - 1) + [Report(ts, window, n - 1)]
  }

  function Flatten<E>(lists: seq<seq<E>>): seq<E> {
    if lists == [] then [] else Flatten(lists[..|lists| - 1]) + lists[|lists| - 1]
  }

  /** The places of the lists that are not empty. */
  function Places<E>(lists: seq<seq<E>>): seq<nat> {
    if lists == [] then []
    else
      var before, n := Places(lists[..|lists| - 1]), |lists| - 1;
      if |lists[n]| == 0 then before else before + [n]
  }

  /** The starts below n whose windows are reported, in order. */
  function Starts(ts: seq<Transition>, window: real, n: nat): seq<nat>
    requires n <= |ts|
  {
    Places(Reports(ts, window, n))
  }

  /** The detector's result: the reports on all windows, one after the other. */
  function Events(ts: seq<Transition>, window: real, n: nat): (events: seq<OscillationEvent>)
    requires n <= |ts|
  {
    Flatten(Reports(ts, window, n))
  }

  lemma EventsOneMore(ts: seq<Transition>, window: real, n: nat)
    requires n < |ts|
    ensures Events(ts, window, n + 1) == Events(ts, window, n) + Report(ts, window, n)
  {
    var before := Reports(ts, window, n);
    assert Reports(ts, window, n + 1)[..n] == before;
  }

  ghost predicate Increasing(starts: seq<nat>) {
    forall a, b :: 0 <= a < b < |starts| ==> starts[a] < starts[b]
  }

  /** Lists of at most one element: the places increase and hold the elements of the flattened list. */
  lemma {:induction false} PlacesFollow<E>(lists: seq<seq<E>>)
    requires forall i :: 0 <= i < |lists| ==> |lists[i]| <= 1
    ensures var places, flat := Places(lists), Flatten(lists);
      && |places| == |flat| && Increasing(places)
      && forall k :: 0 <= k < |places| ==> places[k] < |lists| && lists[places[k]] == [flat[k]]
  {
    if lists != [] {
      var init, last := lists[..|lists| - 1], lists[|lists| - 1];
      PlacesFollow(init);
      assert |last| == 1 ==> last == [last[0]];
    }
  }

  lemma {:induction false} PlacesComplete<E>(lists: seq<seq<E>>, i: nat)
    ensures i in Places(lists) <==> i < |lists| && |lists[i]| > 0
  {
    if lists != [] {
      PlacesComplete(lists[..|lists| - 1], i);
    }
  }

  lemma {:induction false} ReportsAt(ts: seq<Transition>, window: real, n: nat, i: nat)
    requires i < n <= |ts|
    ensures Reports(ts, window, n)[i] == Report(ts, window, i)
  {
    if i < n - 1 {
      ReportsAt(ts, window, n - 1, i);
    }
  }

  lemma StartsComplete(ts: seq<Transition>, window: real, n: nat, i: nat)
    requires n <= |ts|
    ensures i in Starts(ts, window, n) <==> i < n && Oscillates(WindowScan(ts, window, i))
  {
    PlacesComplete(Reports(ts, window, n), i);
    if i < n {
      ReportsAt(ts, window, n, i);
    }
  }

  /** The moves the window of transition i scans. */
  function WindowMoves(ts: seq<Transition>, window: real, i: nat): seq<int>
    requires i < |ts|
  {
    Moves(ts, i, WindowStop(ts, window, i))
  }

  /** Every start whose window oscillates is reported, once and in order, and no other. */
  lemma ReportsAreComplete(ts: seq<Transition>, window: real)
    ensures var starts, events := Starts(ts, window, |ts|), Events(ts, window, |ts|);
      && |events| == |starts|
      && (forall i: nat :: i in starts <==> i < |ts| && Oscillates(WindowScan(ts, window, i)))
      && Increasing(starts)
      && (forall k :: 0 <= k < |starts| ==>
            starts[k] < |ts| && events[k] == Event(ts[starts[k]].simTime, window, WindowScan(ts, window, starts[k])))
  {
    var reports := Reports(ts, window, |ts|);
    forall i: nat
      ensures i in Starts(ts, window, |ts|) <==> i < |ts| && Oscillates(WindowScan(ts, window, i))
    {
      StartsComplete(ts, window, |ts|, i);
    }
    forall i | 0 <= i < |ts| ensures reports[i] == Report(ts, window, i) {
      ReportsAt(ts, window, |ts|, i);
    }
    PlacesFollow(reports);
  }

  /** Detection is complete: two true reversals within a window are always reported, in an event that
      counts no fewer. */
  lemma TwoReversalsAreReported(ts: seq<Transition>, window: real, i: nat)
    requires i < |ts| && SignFlips(WindowMoves(ts, window, i)) >= 2
    ensures i in Starts(ts, window, |ts|)
    ensures ReportedAs(Starts(ts, window, |ts|), Events(ts, window, |ts|), i, SignFlips(WindowMoves(ts, window, i)))
  {
    RawFlipsDecompose(WindowMoves(ts, window, i));
    ReportedIff(ts, window, i);
    ReportsAreComplete(ts, window);
    var starts := Starts(ts, window, |ts|);
    var k :| 0 <= k < |starts| && starts[k] == i;
    EventsDescribe(ts, window, k);
  }

  /** There is an event for the start that counts no fewer flips. */
  ghost predicate ReportedAs(starts: seq<nat>, events: seq<OscillationEvent>, i: nat, flips: nat) {
    exists k :: 0 <= k < |starts| && k < |events| && starts[k] == i && events[k].flipCount >= flips
  }

  /** A start is reported if and only if its window has two flips, or one and ends in two escalations. */
  lemma ReportedIff(ts: seq<Transition>, window: real, i: nat)
    requires i < |ts|
    ensures var ds := WindowMoves(ts, window, i);
      i in Starts(ts, window, |ts|) <==> RawFlips(ds) >= 2 || (RawFlips(ds) == 1 && CurrentChain(ds) >= 2)
  {
    ScanIsExact(ts, i, WindowStop(ts, window, i));
    StartsComplete(ts, window, |ts|, i);
  }

  /** The detector's rule applied to true reversals only. */
  predicate SignRule(ds: seq<int>) {
    SignFlips(ds) >= 2 || (SignFlips(ds) >= 1 && CurrentChain(ds) >= 2)
  }

  /** When a start is reported that the rule on true reversals would not report: for one reversal, when the
      size changes too and the window does not end in a chain of escalations; for no reversal at all, when
      the size changes twice, or once in a window that ends in such a chain. */
  lemma ReportedWithoutReversalsIff(ts: seq<Transition>, window: real, i: nat)
    requires i < |ts|
    ensures var ds := WindowMoves(ts, window, i);
      i in Starts(ts, window, |ts|) && !SignRule(ds) <==>
        || (SignFlips(ds) == 1 && SizeChanges(ds) >= 1 && CurrentChain(ds) < 2)
        || (SignFlips(ds) == 0 && (SizeChanges(ds) >= 2 || (SizeChanges(ds) == 1 && CurrentChain(ds) >= 2)))
  {
    ScanIsExact(ts, i, WindowStop(ts, window, i));
    RawFlipsDecompose(WindowMoves(ts, window, i));
    StartsComplete(ts, window, |ts|, i);
  }

  /** The event describes the window of transition i: its bounds, its flips, no fewer than its true reversals,
      its modes and its chain. */
  ghost predicate Describes(e: OscillationEvent, ts: seq<Transition>, window: real, i: nat)
    requires i < |ts|
  {
    var ds := WindowMoves(ts, window, i);
    && e.windowStart == ts[i].simTime && e.windowEnd == ts[i].simTime + window
    && e.flipCount == RawFlips(ds) && e.flipCount >= SignFlips(ds)
    && e.chainDepth == CurrentChain(ds)
    && e.modesVisited.Distinct()
    && forall m :: e.modesVisited.Has(m) <==> Touched(ts, i, WindowStop(ts, window, i), m)
  }

  ghost predicate Touched(ts: seq<Transition>, i: nat, j: nat, m: SystemMode)
    requires j <= |ts|
  {
    exists k :: i <= k < j && Touches(ts[k], m)
  }

  lemma ReportDescribes(ts: seq<Transition>, window: real, i: nat)
    requires i < |ts| && Report(ts, window, i) != []
    ensures Describes(Report(ts, window, i)[0], ts, window, i)
  {
    var stop := WindowStop(ts, window, i);
    ScanIsExact(ts, i, stop);
    RawFlipsDecompose(WindowMoves(ts, window, i));
    forall m ensures ModesSeen(ts, i, stop).Has(m) <==> Touched(ts, i, stop, m) {
      ModesSeenExact(ts, i, stop, m);
    }
    ModesSeenExact(ts, i, stop, Normal);
  }

  /** Event k of the result describes the window of start k. */
  lemma EventsDescribe(ts: seq<Transition>, window: real, k: nat)
    requires k < |Events(ts, window, |ts|)|
    ensures var starts := Starts(ts, window, |ts|);
      k < |starts| && starts[k] < |ts| && Describes(Events(ts, window, |ts|)[k], ts, window, starts[k])
  {
    ReportsAreComplete(ts, window);
    var i := Starts(ts, window, |ts|)[k];
    StartsComplete(ts, window, |ts|, i);
    ReportDescribes(ts, window, i);
  }

  /** The scanned moves of adjoining stretches follow one another; a single transition is a move unless it goes
      nowhere. */
  lemma {:induction false} MovesFollow(ts: seq<Transition>, i: nat, j: nat, k: nat)
    requires i <= j <= k <= |ts|
    ensures Moves(ts, i, k) == Moves(ts, i, j) + Moves(ts, j, k)
    ensures i < |ts| ==> Moves(ts, i, i + 1) == if ts[i].fromMode == ts[i].toMode then [] else [Dir(ts[i])]
    decreases k
  {
    if j < k {
      MovesFollow(ts, i, j, k - 1);
    }
  }

  lemma LoneTransitionIsNotReported(ts: seq<Transition>, window: real)
    requires |ts| < 2
    ensures Events(ts, window, |ts|) == []
  {
    if |ts| == 1 {
      ScanIsExact(ts, 0, WindowStop(ts, window, 0));
      RawFlipsNeedPairs(WindowMoves(ts, window, 0));
      EventsOneMore(ts, window, 0);
    }
  }

  /** The inner loop: the scan of one window, from transition i to the early break. */
  method ScanWindow(transitions: seq<Transition>, windowEnd: real, i: nat)
    returns (flips: nat, modesSeen: ModeList, chainDepth: nat, prevDir: int)
    requires i < |transitions|
    ensures Scan(flips, modesSeen, chainDepth, prevDir) == ScanOf(transitions, i, Stop(transitions, windowEnd, i))
  {
    flips, chainDepth, modesSeen, prevDir := 0, 0, Empty, 0;
    var j := i;
    while j < |transitions| && transitions[j].simTime <= windowEnd
      invariant i <= j <= |transitions|
      invariant Stop(transitions, windowEnd, j) == Stop(transitions, windowEnd, i)
      invariant Scan(flips, modesSeen, chainDepth, prevDir) == ScanOf(transitions, i, j)
    {
      var t := transitions[j];
      ghost var before := ScanOf(transitions, i, j);
      assert ScanOf(transitions, i, j + 1) == Advance(before, t);
      modesSeen := modesSeen.Add(t.fromMode).Add(t.toMode);
      var dir := Dir(t);
      if dir != 0 {
        if prevDir != 0 && dir != prevDir {
          flips := flips + 1;
        }
        prevDir := dir;
        chainDepth := if dir > 0 then chainDepth + 1 else 0;
      }
      assert Scan(flips, modesSeen, chainDepth, prevDir) == Advance(before, t);
      j := j + 1;
    }
  }

  /** The report on one window. */
  method ReportWindow(transitions: seq<Transition>, windowSeconds: real, i: nat) returns (events: seq<OscillationEvent>)
    requires i < |transitions|
    ensures events == Report(transitions, windowSeconds, i)
  {
    var windowEnd := transitions[i].simTime + windowSeconds;
    var flips, modesSeen, chainDepth, prevDir := ScanWindow(transitions, windowEnd, i);
    assert WindowScan(transitions, windowSeconds, i) == Scan(flips, modesSeen, chainDepth, prevDir);
    if flips >= 2 || (flips >= 1 && chainDepth >= 2) {
      return [OscillationEvent(transitions[i].simTime, windowEnd, flips, modesSeen, chainDepth)];
    }
    return [];
  }

  method DetectOscillations(transitions: seq<Transition>, windowSeconds: real) returns (events: seq<OscillationEvent>)
    ensures events == Events(transitions, windowSeconds, |transitions|)
    ensures var starts := Starts(transitions, windowSeconds, |transitions|);
      && |events| == |starts|
      && forall k :: 0 <= k < |events| ==>
           starts[k] < |transitions| && Describes(events[k], transitions, windowSeconds, starts[k])
  {
    ReportsAreComplete(transitions, windowSeconds);
    forall k: nat | k < |Events(transitions, windowSeconds, |transitions|)|
      ensures var starts := Starts(transitions, windowSeconds, |transitions|);
        && k < |starts| && starts[k] < |transitions|
        && Describes(Events(transitions, windowSeconds, |transitions|)[k], transitions, windowSeconds, starts[k])
    {
      EventsDescribe(transitions, windowSeconds, k);
    }
    if |transitions| < 2 {
      LoneTransitionIsNotReported(transitions, windowSeconds);
      return [];
    }
    events := [];
    for i := 0 to |transitions|
      invariant events == Events(transitions, windowSeconds, i)
    {
      var report := ReportWindow(transitions, windowSeconds, i);
      EventsOneMore(transitions, windowSeconds, i);
      events := events + report;
    }
  }
}
