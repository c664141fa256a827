/** What the oscillation detector reports on the transitions of a simulation (_detect_oscillations on the
    result of run_simulation in mode_simulator.py). */
module ModeReports {
  import opened Modes
  import opened ModeFlips
  import opened ModeTraces
  import opened Oscillations
  import opened ModeSimulator
  import ModeRuns

  const WINDOW := 120.0

  function Transitions(snapshots: seq<Metrics>, startMode: SystemMode): seq<Transition> {
    Changes(ModesOf(snapshots, startMode))
  }

  lemma MovesAreProposable(s: ModeState, m: Metrics, now: real)
    ensures var s' := Evaluated(s, Propose(s.mode, m), now, now);
      s'.mode == s.mode || Proposable(s'.mode)
  {
    ProposeRange(s.mode, m);
  }

  /** Every transition goes to a mode that can be proposed. */
  lemma {:induction false} ChangesAreProposable(snapshots: seq<Metrics>, startMode: SystemMode)
    ensures var ts := Transitions(snapshots, startMode);
      forall i :: 0 <= i < |ts| ==> Proposable(ts[i].toMode)
  {
    if snapshots != [] {
      var init, k := snapshots[..|snapshots| - 1], |snapshots|;
      var modes, next := ModesOf(init, startMode), Replay(snapshots, startMode).mode;
      ChangesAreProposable(init, startMode);
      MovesAreProposable(Replay(init, startMode), snapshots[k - 1], SimTime(k));
      assert ModesOf(snapshots, startMode) == modes + [next];
      ChangesOneMore(modes, next);
      assert next == modes[|modes| - 1] || Proposable(next);
      var before, after := Transitions(init, startMode), Transitions(snapshots, startMode);
      assert after == before || after == before + [Transition(k - 1, SimTime(k), modes[k - 1], next)];
    }
  }

  /** Two moves in a row between modes that can be proposed are never of the same size and direction. */
  lemma NeighboursDiffer(a: Transition, b: Transition)
    requires Proposable(a.fromMode) && Proposable(a.toMode) && Proposable(b.toMode)
    requires a.toMode == b.fromMode && Dir(a) != 0 && Dir(b) != 0
    ensures Dir(a) != Dir(b)
  {
  }

  /** The first two transitions from i on are moves of the same size and direction. */
  predicate Twins(ts: seq<Transition>, i: nat) {
    i + 2 <= |ts| && Dir(ts[i]) == Dir(ts[i + 1])
  }

  /** From transition i on, every transition moves, and but for twins, moves otherwise than the one before. */
  ghost predicate Restless(ts: seq<Transition>, i: nat) {
    && (forall k :: i <= k < |ts| ==> Dir(ts[k]) != 0)
    && (forall k :: i + 1 < k < |ts| ==> Dir(ts[k - 1]) != Dir(ts[k]))
  }

  /** Only a simulation that starts in SHADOW or READ_ONLY can have twins, and only at its first transition. */
  lemma TracesAreRestless(snapshots: seq<Metrics>, startMode: SystemMode, i: nat)
    ensures var ts := Transitions(snapshots, startMode);
      Restless(ts, i) && (Twins(ts, i) ==> i == 0 && !Proposable(startMode))
  {
    var ts := Transitions(snapshots, startMode);
    ChangesAreProposable(snapshots, startMode);
    ChangesAreConnected(ModesOf(snapshots, startMode));
    forall k | 0 < k < |ts| && (k > 1 || Proposable(startMode)) ensures Dir(ts[k - 1]) != Dir(ts[k]) {
      assert Proposable(ts[k - 1].fromMode) by {
        if k > 1 {
          assert ts[k - 1].fromMode == ts[k - 2].toMode;
        }
      }
      NeighboursDiffer(ts[k - 1], ts[k]);
    }
  }

  lemma {:induction false} RestlessMoves(ts: seq<Transition>, i: nat, j: nat)
    requires Restless(ts, i) && i < j <= |ts|
    ensures var ds := Moves(ts, i, j);
      && |ds| == j - i && ds[|ds| - 1] == Dir(ts[j - 1])
      && RawFlips(ds) == j - i - 1 - if j >= i + 2 && Twins(ts, i) then 1 else 0
    decreases j
  {
    if i < j - 1 {
      RestlessMoves(ts, i, j - 1);
      var ds := Moves(ts, i, j - 1);
      assert (ds + [Dir(ts[j - 1])])[..|ds|] == ds;
    }
  }

  /** The last two transitions before j both escalate. */
  predicate EndsRising(ts: seq<Transition>, j: nat)
    requires 2 <= j <= |ts|
  {
    Dir(ts[j - 2]) > 0 && Dir(ts[j - 1]) > 0
  }

  lemma ChainIffEndsRising(ts: seq<Transition>, i: nat, j: nat)
    requires i + 2 <= j <= |ts| && Restless(ts, i)
    ensures CurrentChain(Moves(ts, i, j)) >= 2 <==> EndsRising(ts, j)
  {
    var ds, a, b := Moves(ts, i, j - 2), Dir(ts[j - 2]), Dir(ts[j - 1]);
    assert Moves(ts, i, j - 1) == ds + [a];
    assert Moves(ts, i, j) == ds + [a] + [b];
    OneMoreDir(ds, a);
    OneMoreDir(ds + [a], b);
  }

  lemma TwoMoves(ts: seq<Transition>, i: nat)
    requires i + 2 <= |ts| && Restless(ts, i)
    ensures SignFlips(Moves(ts, i, i + 2)) == if Opposite(Dir(ts[i]), Dir(ts[i + 1])) then 1 else 0
  {
    var a, b := Dir(ts[i]), Dir(ts[i + 1]);
    assert Moves(ts, i, i + 1) == [] + [a];
    assert Moves(ts, i, i + 2) == [a] + [b];
    OneMoreDir([], a);
    OneMoreDir([a], b);
  }

  lemma TwinsThenRise(ts: seq<Transition>, i: nat)
    requires i + 3 <= |ts| && Restless(ts, i) && Twins(ts, i) && EndsRising(ts, i + 3)
    ensures SignFlips(Moves(ts, i, i + 3)) == 0
  {
    var ds, c := Moves(ts, i, i + 2), Dir(ts[i + 2]);
    TwoMoves(ts, i);
    assert Moves(ts, i, i + 1) == [Dir(ts[i])];
    assert ds == [Dir(ts[i])] + [Dir(ts[i + 1])];
    assert Moves(ts, i, i + 3) == ds + [c];
    OneMoreDir(ds, c);
  }

  /** How many transitions lie in the window that starts at transition i. */
  function InWindow(ts: seq<Transition>, i: nat): nat
    requires i < |ts|
  {
    WindowStop(ts, WINDOW, i) - i
  }

  /** The transitions in the window, twins counted once. */
  function Counted(ts: seq<Transition>, i: nat): (n: int)
    requires i < |ts|
  {
    InWindow(ts, i) - if InWindow(ts, i) >= 2 && Twins(ts, i) then 1 else 0
  }

  /** On a simulation the detector counts transitions, not flips: its flip count is the number of transitions
      in the window, twins counted once, less one. Twins are found only at the first transition out of SHADOW
      or READ_ONLY. */
  lemma FlipsAreTransitions(snapshots: seq<Metrics>, startMode: SystemMode, i: nat)
    requires i < |Transitions(snapshots, startMode)|
    ensures var ts := Transitions(snapshots, startMode);
      && WindowScan(ts, WINDOW, i).flips == Counted(ts, i) - 1
      && WindowScan(ts, WINDOW, i).chainDepth == CurrentChain(WindowMoves(ts, WINDOW, i))
      && (Twins(ts, i) ==> i == 0 && !Proposable(startMode))
  {
    var ts := Transitions(snapshots, startMode);
    var stop := WindowStop(ts, WINDOW, i);
    TracesAreRestless(snapshots, startMode, i);
    ScanIsExact(ts, i, stop);
    RestlessMoves(ts, i, stop);
  }

  /** A window with three different transitions, or with two and a rising end. */
  predicate Crowded(ts: seq<Transition>, i: nat)
    requires i < |ts|
  {
    Counted(ts, i) >= 3 || (Counted(ts, i) == 2 && EndsRising(ts, WindowStop(ts, WINDOW, i)))
  }

  /** So, for every start mode, a start is reported if and only if its window holds three transitions, or two
      that both escalate, twins counted once. */
  lemma ReportsCountTransitions(snapshots: seq<Metrics>, startMode: SystemMode, i: nat)
    requires i < |Transitions(snapshots, startMode)|
    ensures var ts := Transitions(snapshots, startMode);
      i in Starts(ts, WINDOW, |ts|) <==> Crowded(ts, i)
  {
    var ts := Transitions(snapshots, startMode);
    var stop := WindowStop(ts, WINDOW, i);
    FlipsAreTransitions(snapshots, startMode, i);
    TracesAreRestless(snapshots, startMode, i);
    StartsComplete(ts, WINDOW, |ts|, i);
    if stop >= i + 2 {
      ChainIffEndsRising(ts, i, stop);
    }
  }

  lemma RisingPairHasNoReversal(ts: seq<Transition>, i: nat)
    requires i < |ts| && Restless(ts, i) && Counted(ts, i) == 2 && EndsRising(ts, WindowStop(ts, WINDOW, i))
    ensures SignFlips(WindowMoves(ts, WINDOW, i)) == 0
  {
    if Twins(ts, i) {
      TwinsThenRise(ts, i);
    } else {
      TwoMoves(ts, i);
    }
  }

  /** So it reports a start that the rule on true reversals would not report if and only if the window holds
      two transitions with a rising end, or three and at most one reversal, not followed by two escalations. */
  lemma SimulationReportedWithoutReversalsIff(snapshots: seq<Metrics>, startMode: SystemMode, i: nat)
    requires i < |Transitions(snapshots, startMode)|
    ensures var ts := Transitions(snapshots, startMode);
      i in Starts(ts, WINDOW, |ts|) && !SignRule(WindowMoves(ts, WINDOW, i)) <==> CrowdedWithoutReversals(ts, i)
  {
    var ts := Transitions(snapshots, startMode);
    ReportsCountTransitions(snapshots, startMode, i);
    TracesAreRestless(snapshots, startMode, i);
    CrowdedIff(ts, i);
  }

  predicate CrowdedWithoutReversals(ts: seq<Transition>, i: nat)
    requires i < |ts|
  {
    var ds := WindowMoves(ts, WINDOW, i);
    || (Counted(ts, i) == 2 && EndsRising(ts, WindowStop(ts, WINDOW, i)))
    || (Counted(ts, i) >= 3 && (SignFlips(ds) == 0 || (SignFlips(ds) == 1 && CurrentChain(ds) < 2)))
  }

  lemma CrowdedIff(ts: seq<Transition>, i: nat)
    requires i < |ts| && Restless(ts, i)
    ensures Crowded(ts, i) && !SignRule(WindowMoves(ts, WINDOW, i)) <==> CrowdedWithoutReversals(ts, i)
  {
    if Counted(ts, i) == 2 && EndsRising(ts, WindowStop(ts, WINDOW, i)) {
      RisingPairHasNoReversal(ts, i);
    }
  }

  // ----- a purely rising run that is reported

  lemma OneMoreSnapshot(done: seq<Metrics>, m: Metrics, startMode: SystemMode)
    ensures var s := Replay(done, startMode);
      var s' := Evaluated(s, Propose(s.mode, m), SimTime(|done| + 1), SimTime(|done| + 1));
      && Replay(done + [m], startMode) == s'
      && Transitions(done + [m], startMode) ==
           if s'.mode == s.mode then Transitions(done, startMode)
           else Transitions(done, startMode) + [Transition(|done|, SimTime(|done| + 1), s.mode, s'.mode)]
  {
    assert (done + [m])[..|done|] == done;
    var modes := ModesOf(done, startMode);
    assert ModesOf(done + [m], startMode) == modes + [Replay(done + [m], startMode).mode];
    ChangesOneMore(modes, Replay(done + [m], startMode).mode);
  }

  /** n snapshots with a warning. */
  function Warnings(n: nat): seq<Metrics> {
    if n == 0 then [] else Warnings(n - 1) + [ModeRuns.WARNED]
  }

  lemma {:induction false} WarningsDegrade(n: nat)
    requires n > 0
    ensures |Warnings(n)| == n
    ensures Replay(Warnings(n), Normal) == ModeState(Degraded, map[Normal := 0.0, Degraded := 15.0])
    ensures Transitions(Warnings(n), Normal) == [Transition(0, 15.0, Normal, Degraded)]
  {
    OneMoreSnapshot(Warnings(n - 1), ModeRuns.WARNED, Normal);
    if n > 1 {
      WarningsDegrade(n - 1);
    } else {
      assert Replay([], Normal) == ModeState(Normal, map[Normal := 0.0]);
      assert Warnings(0) == [];
    }
  }

  /** Warnings, an open circuit breaker, an emergency. */
  function Rising(n: nat): seq<Metrics> {
    Warnings(n) + [ModeRuns.PRESSED] + [ModeRuns.EMERGENCY]
  }

  function Rises(n: nat): (ts: seq<Transition>) {
    [Transition(0, 15.0, Normal, Degraded), Transition(n, SimTime(n + 1), Degraded, Protected),
     Transition(n + 1, SimTime(n + 2), Protected, EmergencyStop)]
  }

  lemma RisingTransitions(n: nat)
    requires n >= 4
    ensures Transitions(Rising(n), Normal) == Rises(n)
  {
    WarningsDegrade(n);
    assert SimTime(n + 1) - 15.0 >= 60.0;
    OneMoreSnapshot(Warnings(n), ModeRuns.PRESSED, Normal);
    OneMoreSnapshot(Warnings(n) + [ModeRuns.PRESSED], ModeRuns.EMERGENCY, Normal);
  }

  lemma ThreeRises()
    ensures SignFlips([2, 1, 2]) == 0 && MaxChain([2, 1, 2]) == 3
  {
    assert [2, 1, 2][..2] == [2, 1] && [2, 1][..1] == [2];
    OneMoreDir([], 2);
    OneMoreDir([2], 1);
    OneMoreDir([2, 1], 2);
    assert [] + [2] == [2] && [2] + [1] == [2, 1] && [2, 1] + [2] == [2, 1, 2];
  }

  lemma RisesAreReported(snapshots: seq<Metrics>, n: nat)
    requires 4 <= n <= 7 && Transitions(snapshots, Normal) == Rises(n)
    ensures 0 in Starts(Rises(n), WINDOW, 3)
  {
    ReportsCountTransitions(snapshots, Normal, 0);
    assert WindowStop(Rises(n), WINDOW, 0) == 3;
  }

  /** A simulation that only ever escalates, and so has no reversal at all, is reported as an oscillation from
      its first transition on. */
  lemma RisingRunIsReported(n: nat)
    requires 4 <= n <= 7
    ensures var ts := Transitions(Rising(n), Normal);
      SignFlips(Dirs(ts)) == 0 && MaxChain(Dirs(ts)) == |ts| == 3 && 0 in Starts(ts, WINDOW, |ts|)
  {
    RisingTransitions(n);
    RisesAreReported(Rising(n), n);
    assert Dirs(Rises(n)) == [2, 1, 2];
    ThreeRises();
  }
}
