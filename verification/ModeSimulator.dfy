/** The replay of recorded metrics through a copy of the controller (run_simulation in
    mode_simulator.py): an inlined step, and a report derived from its transitions. */
module ModeSimulator {
  import opened Options
  import opened Modes
  import opened ModeManagers
  import opened ModeFlips
  import opened ModeTraces
  import opened Oscillations
  import opened ModeStability
  import ModeRuns

  datatype SimulationReport = SimulationReport(
    totalSteps: nat, transitions: seq<Transition>, oscillationEvents: seq<OscillationEvent>,
    timeInMode: map<SystemMode, real>, totalDuration: real, transitionCount: nat,
    flipCountTotal: nat, maxEscalationChain: nat,
    modeProposedButRejected: int, rejectedByHysteresis: nat, rejectedByHold: nat)

  // ----- the reference: the live controller's evaluate, folded over the snapshots

  /** The controller after evaluations of the snapshots at times 15, 30, ..., in startMode since time 0. */
  function Replay(snapshots: seq<Metrics>, startMode: SystemMode): ModeState {
    if snapshots == [] then ModeState(startMode, map[startMode := 0.0])
    else
      var k := |snapshots|;
      var s := Replay(snapshots[..k - 1], startMode);
      Evaluated(s, Propose(s.mode, snapshots[k - 1]), SimTime(k), SimTime(k))
  }

  /** The start mode and the mode after every step. */
  function ModesOf(snapshots: seq<Metrics>, startMode: SystemMode): (modes: seq<SystemMode>)
    ensures |modes| == |snapshots| + 1 && modes[0] == startMode
    ensures modes[|snapshots|] == Replay(snapshots, startMode).mode
  {
    if snapshots == [] then [startMode]
    else ModesOf(snapshots[..|snapshots| - 1], startMode) + [Replay(snapshots, startMode).mode]
  }

  datatype Verdict = Agreed | Moved | HeldUp | HeldDown

  /** What becomes of a proposal made in state s at time now. */
  function Judge(s: ModeState, proposed: SystemMode, now: real): Verdict {
    if proposed == s.mode then Agreed
    else if Evaluated(s, proposed, now, now).mode != s.mode then Moved
    else if Index(proposed) > Index(s.mode) then HeldUp
    else HeldDown
  }

  /** The verdicts on all steps. */
  function Verdicts(snapshots: seq<Metrics>, startMode: SystemMode): (vs: seq<Verdict>)
    ensures |vs| == |snapshots|
  {
    if snapshots == [] then []
    else
      var k := |snapshots|;
      var s := Replay(snapshots[..k - 1], startMode);
      Verdicts(snapshots[..k - 1], startMode) + [Judge(s, Propose(s.mode, snapshots[k - 1]), SimTime(k))]
  }

  function Tally(vs: seq<Verdict>, v: Verdict): nat {
    if vs == [] then 0 else Tally(vs[..|vs| - 1], v) + if vs[|vs| - 1] == v then 1 else 0
  }

  lemma TallyOneMore(vs: seq<Verdict>, w: Verdict, v: Verdict)
    ensures Tally(vs + [w], v) == Tally(vs, v) + if w == v then 1 else 0
  {
    assert (vs + [w])[..|vs|] == vs;
  }

  /** Every step gets exactly one verdict. */
  lemma {:induction false} TalliesSumUp(vs: seq<Verdict>)
    ensures Tally(vs, Agreed) + Tally(vs, Moved) + Tally(vs, HeldUp) + Tally(vs, HeldDown) == |vs|
  {
    if vs != [] {
      TalliesSumUp(vs[..|vs| - 1]);
    }
  }

  /** The step keeps its mode although a more severe one, or a milder one, is proposed. */
  predicate KeepsAgainst(before: SystemMode, after: SystemMode, m: Metrics, up: bool) {
    var p := Index(Propose(before, m));
    after == before && if up then p > Index(before) else p < Index(before)
  }

  /** How many steps do. */
  function Kept(modes: seq<SystemMode>, snapshots: seq<Metrics>, up: bool): nat
    requires |modes| == |snapshots| + 1
  {
    if snapshots == [] then 0
    else
      var k := |snapshots| - 1;
      Kept(modes[..k + 1], snapshots[..k], up) + if KeepsAgainst(modes[k], modes[k + 1], snapshots[k], up) then 1 else 0
  }

  lemma VerdictIsKept(s: ModeState, m: Metrics, now: real)
    ensures var p, after := Propose(s.mode, m), Evaluated(s, Propose(s.mode, m), now, now).mode;
      && (Judge(s, p, now) == HeldUp <==> KeepsAgainst(s.mode, after, m, true))
      && (Judge(s, p, now) == HeldDown <==> KeepsAgainst(s.mode, after, m, false))
  {
  }

  lemma {:induction false} TalliesAreKept(snapshots: seq<Metrics>, startMode: SystemMode)
    ensures var modes, vs := ModesOf(snapshots, startMode), Verdicts(snapshots, startMode);
      Tally(vs, HeldUp) == Kept(modes, snapshots, true) && Tally(vs, HeldDown) == Kept(modes, snapshots, false)
  {
    if snapshots != [] {
      var k := |snapshots| - 1;
      var init, modes := snapshots[..k], ModesOf(snapshots, startMode);
      TalliesAreKept(init, startMode);
      assert modes[..k + 1] == ModesOf(init, startMode);
      var s := Replay(init, startMode);
      var v := Judge(s, Propose(s.mode, snapshots[k]), SimTime(k + 1));
      VerdictIsKept(s, snapshots[k], SimTime(k + 1));
      TallyOneMore(Verdicts(init, startMode), v, HeldUp);
      TallyOneMore(Verdicts(init, startMode), v, HeldDown);
    }
  }

  // ----- the inlined step

  /** One step of the replay loop, written out: its verdict, and the mode it moves to. */
  method Step(mgr: ModeManager, metrics: Metrics, now: real) returns (verdict: Verdict, target: SystemMode)
    requires mgr.mode in mgr.entryTime
    modifies mgr
    ensures mgr.override == old(mgr.override)
    ensures var s := old(mgr.View()).state;
      && mgr.View().state == Evaluated(s, Propose(s.mode, metrics), now, now)
      && verdict == Judge(s, Propose(s.mode, metrics), now)
    ensures mgr.mode in mgr.entryTime
    ensures verdict == Moved ==> target == mgr.mode
    ensures var from, p := old(mgr.mode), Propose(old(mgr.mode), metrics);
      && (verdict == Agreed <==> p == from) && (verdict == Moved <==> mgr.mode != from)
      && (verdict == HeldUp <==> mgr.mode == from && Index(p) > Index(from))
      && (verdict == HeldDown <==> mgr.mode == from && Index(p) < Index(from))
  {
    var proposed := Propose(mgr.mode, metrics);
    target := proposed;
    var targetIdx, currentIdx := Index(target), Index(mgr.mode);
    if target != mgr.mode {
      if targetIdx > currentIdx {
        if target != EmergencyStop {
          var elapsed := now - mgr.entryTime[mgr.mode];
          if elapsed < HoldTime(mgr.mode) {
            return HeldUp, target;
          }
        }
      } else {
        if mgr.mode in mgr.entryTime {
          var elapsed := now - mgr.entryTime[mgr.mode];
          if elapsed < MinimumDuration(mgr.mode) {
            return HeldDown, target;
          }
        }
        var downgrade := map[Protected := Degraded, Degraded := Normal];
        if mgr.mode in downgrade && target != downgrade[mgr.mode] {
          target := downgrade[mgr.mode];
        }
      }
    }
    if target != mgr.mode {
      mgr.mode := target;
      mgr.entryTime := mgr.entryTime[target := now];
      return Moved, target;
    }
    return Agreed, target;
  }

  /** What the replay loop keeps: the controller's state, the transitions and the three counters. */
  datatype Ledger = Ledger(state: ModeState, transitions: seq<Transition>, proposed: nat, hold: nat, hysteresis: nat)

  function Enter(l: Ledger, k: nat, verdict: Verdict, after: ModeState): Ledger {
    Ledger(after,
      if verdict == Moved then l.transitions + [Transition(k, SimTime(k + 1), l.state.mode, after.mode)]
      else l.transitions,
      l.proposed + (if verdict == Agreed then 0 else 1),
      l.hold + (if verdict == HeldUp then 1 else 0),
      l.hysteresis + (if verdict == HeldDown then 1 else 0))
  }

  /** The ledger of the first k snapshots. */
  function LedgerOf(snapshots: seq<Metrics>, startMode: SystemMode, k: nat): Ledger
    requires k <= |snapshots|
  {
    if k == 0 then Ledger(ModeState(startMode, map[startMode := 0.0]), [], 0, 0, 0)
    else
      var l := LedgerOf(snapshots, startMode, k - 1);
      var p := Propose(l.state.mode, snapshots[k - 1]);
      Enter(l, k - 1, Judge(l.state, p, SimTime(k)), Evaluated(l.state, p, SimTime(k), SimTime(k)))
  }

  /** A ledger is exact: its state is that of the live controller's evaluate, its transitions are the
      mode changes, and every step that does not agree is counted once. */
  ghost predicate Exact(l: Ledger, done: seq<Metrics>, startMode: SystemMode) {
    var vs := Verdicts(done, startMode);
    && l.state == Replay(done, startMode)
    && l.transitions == Changes(ModesOf(done, startMode))
    && |l.transitions| == Tally(vs, Moved)
    && l.proposed == Tally(vs, Moved) + Tally(vs, HeldUp) + Tally(vs, HeldDown)
    && l.hold == Tally(vs, HeldUp) && l.hysteresis == Tally(vs, HeldDown)
  }

  lemma EnterKeepsExact(l: Ledger, done: seq<Metrics>, m: Metrics, startMode: SystemMode)
    requires Exact(l, done, startMode)
    ensures var p, now := Propose(l.state.mode, m), SimTime(|done| + 1);
      Exact(Enter(l, |done|, Judge(l.state, p, now), Evaluated(l.state, p, now, now)), done + [m], startMode)
  {
    var more, now := done + [m], SimTime(|done| + 1);
    assert more[..|done|] == done;
    var p := Propose(l.state.mode, m);
    var v, after := Judge(l.state, p, now), Evaluated(l.state, p, now, now);
    assert Replay(more, startMode) == after;
    var modes := ModesOf(done, startMode);
    assert ModesOf(more, startMode) == modes + [after.mode];
    assert (modes + [after.mode])[..|modes|] == modes;
    var vs := Verdicts(done, startMode);
    assert Verdicts(more, startMode) == vs + [v];
    TallyOneMore(vs, v, Moved);
    TallyOneMore(vs, v, HeldUp);
    TallyOneMore(vs, v, HeldDown);
  }

  lemma {:induction false} LedgerIsExact(snapshots: seq<Metrics>, startMode: SystemMode, k: nat)
    requires k <= |snapshots|
    ensures Exact(LedgerOf(snapshots, startMode, k), snapshots[..k], startMode)
  {
    if k > 0 {
      LedgerIsExact(snapshots, startMode, k - 1);
      EnterKeepsExact(LedgerOf(snapshots, startMode, k - 1), snapshots[..k - 1], snapshots[k - 1], startMode);
      assert snapshots[..k - 1] + [snapshots[k - 1]] == snapshots[..k];
    }
  }

  lemma LedgerOneMore(snapshots: seq<Metrics>, startMode: SystemMode, k: nat, verdict: Verdict, after: ModeState)
    requires k < |snapshots|
    requires var s := LedgerOf(snapshots, startMode, k).state; var p := Propose(s.mode, snapshots[k]);
      verdict == Judge(s, p, SimTime(k + 1)) && after == Evaluated(s, p, SimTime(k + 1), SimTime(k + 1))
    ensures LedgerOf(snapshots, startMode, k + 1) == Enter(LedgerOf(snapshots, startMode, k), k, verdict, after)
  {
  }

  /** Enters the verdict on step k into the counters and the transitions. */
  method Record(ghost before: ModeState, transitions: seq<Transition>, proposedCount: nat, rejectedHold: nat,
                rejectedHysteresis: nat, k: nat, modeBefore: SystemMode, verdict: Verdict, target: SystemMode,
                ghost after: ModeState)
    returns (transitions': seq<Transition>, proposedCount': nat, rejectedHold': nat, rejectedHysteresis': nat)
    requires modeBefore == before.mode && (verdict == Moved ==> target == after.mode)
    ensures Ledger(after, transitions', proposedCount', rejectedHold', rejectedHysteresis')
      == Enter(Ledger(before, transitions, proposedCount, rejectedHold, rejectedHysteresis), k, verdict, after)
  {
    transitions', proposedCount', rejectedHold', rejectedHysteresis' :=
      transitions, proposedCount, rejectedHold, rejectedHysteresis;
    if verdict != Agreed {
      proposedCount' := proposedCount' + 1;
    }
    match verdict {
      case HeldUp => rejectedHold' := rejectedHold' + 1;
      case HeldDown => rejectedHysteresis' := rejectedHysteresis' + 1;
      case Moved => transitions' := transitions' + [Transition(k, SimTime(k + 1), modeBefore, target)];
      case Agreed =>
    }
  }

  /** The body of the replay loop. */
  method ReplayStep(mgr: ModeManager, snapshots: seq<Metrics>, ghost startMode: SystemMode, k: nat, now: real,
                    transitions: seq<Transition>, proposedCount: nat, rejectedHold: nat, rejectedHysteresis: nat)
    returns (transitions': seq<Transition>, proposedCount': nat, rejectedHold': nat, rejectedHysteresis': nat)
    requires k < |snapshots| && now == SimTime(k + 1) && mgr.mode in mgr.entryTime
    requires Ledger(mgr.View().state, transitions, proposedCount, rejectedHold, rejectedHysteresis)
      == LedgerOf(snapshots, startMode, k)
    modifies mgr
    ensures mgr.mode in mgr.entryTime
    ensures Ledger(mgr.View().state, transitions', proposedCount', rejectedHold', rejectedHysteresis')
      == LedgerOf(snapshots, startMode, k + 1)
  {
    var modeBefore := mgr.mode;
    ghost var before := mgr.View().state;
    var verdict, target := Step(mgr, snapshots[k], now);
    LedgerOneMore(snapshots, startMode, k, verdict, mgr.View().state);
    transitions', proposedCount', rejectedHold', rejectedHysteresis' :=
      Record(before, transitions, proposedCount, rejectedHold, rejectedHysteresis,
             k, modeBefore, verdict, target, mgr.View().state);
  }

  /** The replay loop. */
  method ReplayLoop(snapshots: seq<Metrics>, startMode: SystemMode)
    returns (now: real, transitions: seq<Transition>, proposedCount: nat, rejectedHold: nat, rejectedHysteresis: nat,
             ghost state: ModeState)
    ensures now == SimTime(|snapshots|)
    ensures Ledger(state, transitions, proposedCount, rejectedHold, rejectedHysteresis)
      == LedgerOf(snapshots, startMode, |snapshots|)
  {
    var mgr := new ModeManager();
    mgr.mode := startMode;
    mgr.entryTime := map[startMode := 0.0];
    now, transitions := 0.0, [];
    rejectedHysteresis, rejectedHold, proposedCount := 0, 0, 0;
    for idx := 0 to |snapshots|
      invariant fresh(mgr) && mgr.mode in mgr.entryTime && now == SimTime(idx)
      invariant Ledger(mgr.View().state, transitions, proposedCount, rejectedHold, rejectedHysteresis)
        == LedgerOf(snapshots, startMode, idx)
    {
      now := (idx + 1) as real * 15.0;
      transitions, proposedCount, rejectedHold, rejectedHysteresis :=
        ReplayStep(mgr, snapshots, startMode, idx, now, transitions, proposedCount, rejectedHold, rejectedHysteresis);
    }
    state := mgr.View().state;
  }

  /** The report accounts for every step exactly. */
  method RunSimulation(snapshots: seq<Metrics>, startMode: SystemMode) returns (report: SimulationReport)
    ensures var modes := ModesOf(snapshots, startMode); var vs := Verdicts(snapshots, startMode);
      && report.totalSteps == |snapshots| && report.totalDuration == SimTime(|snapshots|)
      && report.transitions == Changes(modes) && report.transitionCount == |Changes(modes)| == Tally(vs, Moved)
      && (forall m :: Lookup(report.timeInMode, m) == 15.0 * Steps(modes, m) as real)
      && TotalTime(report.timeInMode) == report.totalDuration
      && report.rejectedByHold == Tally(vs, HeldUp) == Kept(modes, snapshots, true)
      && report.rejectedByHysteresis == Tally(vs, HeldDown) == Kept(modes, snapshots, false)
      && report.modeProposedButRejected == report.rejectedByHold + report.rejectedByHysteresis
    ensures var ds := Dirs(report.transitions);
      && report.flipCountTotal == SignFlips(ds) && report.maxEscalationChain == MaxChain(ds)
      && report.oscillationEvents == Events(report.transitions, 120.0, |report.transitions|)
  {
    var now, transitions, proposedCount, rejectedHold, rejectedHysteresis, state := ReplayLoop(snapshots, startMode);
    LedgerIsExact(snapshots, startMode, |snapshots|);
    assert snapshots[..|snapshots|] == snapshots;
    var timeInMode := TimeInMode(transitions, startMode, now);
    forall m ensures Lookup(timeInMode, m) == 15.0 * Steps(ModesOf(snapshots, startMode), m) as real {
      SpentIsSteps(ModesOf(snapshots, startMode), m);
    }
    TimesSumUp(ModesOf(snapshots, startMode), timeInMode);
    TalliesAreKept(snapshots, startMode);
    var oscillations := DetectOscillations(transitions, 120.0);
    var flips := CountFlips(transitions);
    var chain := LongestChain(transitions);
    report := SimulationReport(|snapshots|, transitions, oscillations, timeInMode, now, |transitions|,
      flips, chain, proposedCount - |transitions|, rejectedHysteresis, rejectedHold);
  }

  // ----- the replay is the live controller

  /** Evaluations of the snapshots at 15, 30, ... seconds. */
  function EvaluateCalls(snapshots: seq<Metrics>): seq<Call> {
    if snapshots == [] then []
    else
      var k := |snapshots|;
      var t := 15.0 * k as real;
      EvaluateCalls(snapshots[..k - 1]) + [Call.Evaluate(snapshots[k - 1], t, t, t)]
  }

  lemma {:induction false} RunOneMore(c: Controller, calls: seq<Call>, call: Call)
    ensures ModeRuns.Run(c, calls + [call]) == Apply(ModeRuns.Run(c, calls), call)
    decreases |calls|
  {
    if calls == [] {
      assert calls + [call] == [call];
    } else {
      RunOneMore(Apply(c, calls[0]), calls[1..], call);
      assert (calls + [call])[1..] == calls[1..] + [call];
    }
  }

  /** The replay is the run of the live controller, without an override and in its start mode since time 0, over
      the evaluations of the snapshots. */
  lemma {:induction false} ReplayIsEvaluate(snapshots: seq<Metrics>, startMode: SystemMode)
    ensures ModeRuns.Run(Controller(ModeState(startMode, map[startMode := 0.0]), None), EvaluateCalls(snapshots))
      == Controller(Replay(snapshots, startMode), None)
  {
    if snapshots != [] {
      var k := |snapshots|;
      var init, t := snapshots[..k - 1], 15.0 * k as real;
      ReplayIsEvaluate(init, startMode);
      RunOneMore(Controller(ModeState(startMode, map[startMode := 0.0]), None), EvaluateCalls(init),
        Call.Evaluate(snapshots[k - 1], t, t, t));
    }
  }

  /** The modes of the trace are those after every prefix. */
  lemma {:induction false} ModesOfPrefixes(snapshots: seq<Metrics>, startMode: SystemMode, k: nat)
    requires k <= |snapshots|
    ensures ModesOf(snapshots, startMode)[k] == Replay(snapshots[..k], startMode).mode
    decreases |snapshots|
  {
    if k < |snapshots| {
      var init := snapshots[..|snapshots| - 1];
      ModesOfPrefixes(init, startMode, k);
      assert init[..k] == snapshots[..k];
    } else {
      assert snapshots[..k] == snapshots;
    }
  }

  // ----- constant metrics

  function Constant(m: Metrics, n: nat): (ms: seq<Metrics>)
    ensures |ms| == n && forall i :: 0 <= i < n ==> ms[i] == m
  {
    seq(n, _ => m)
  }

  /** The clock readings of the first n steps. */
  function SimTicks(n: nat): (ticks: seq<Tick>)
    ensures |ticks| == n
    ensures n > 0 ==> ticks[n - 1] == Tick(SimTime(n), SimTime(n))
  {
    if n == 0 then [] else SimTicks(n - 1) + [Tick(SimTime(n), SimTime(n))]
  }

  lemma {:induction false} ConstantReplay(m: Metrics, startMode: SystemMode, n: nat)
    ensures var start := ModeState(startMode, map[startMode := 0.0]);
      && Spaced(0.0, SimTicks(n))
      && Replay(Constant(m, n), startMode) == Run(start, RawTable(m), SimTicks(n))
      && |Changes(ModesOf(Constant(m, n), startMode))| == MoveCount(start, RawTable(m), SimTicks(n))
  {
    if n > 0 {
      var start, t := ModeState(startMode, map[startMode := 0.0]), Tick(SimTime(n), SimTime(n));
      ConstantReplay(m, startMode, n - 1);
      assert Constant(m, n)[..n - 1] == Constant(m, n - 1);
      OneMoreTick(start, RawTable(m), SimTicks(n - 1), t);
      SpacedOneMore(0.0, SimTicks(n - 1), t);
      var modes := ModesOf(Constant(m, n - 1), startMode);
      var after := Replay(Constant(m, n), startMode).mode;
      assert ModesOf(Constant(m, n), startMode) == modes + [after];
      assert (modes + [after])[..n] == modes;
    }
  }

  lemma {:induction false} SimTicksPrefix(n: nat, k: nat)
    ensures SimTicks(n + k)[..n] == SimTicks(n)
    decreases k
  {
    if k > 0 {
      SimTicksPrefix(n, k - 1);
    }
  }

  /** A simulation of constant metrics that settle: from every start mode it is in the mode where they settle
      after eight snapshots and ever after. */
  lemma SimulationConverges(m: Metrics, startMode: SystemMode, n: nat)
    requires ReplaySettles(m).Some? && n >= 8
    ensures Replay(Constant(m, n), startMode).mode == ReplaySettles(m).value
  {
    ConstantReplay(m, startMode, n);
    ReplayConverges(ModeState(startMode, map[startMode := 0.0]), m, 0.0, SimTicks(n));
  }

  lemma MovesGrow(s: ModeState, m: Metrics, n: nat)
    requires ReplaySettles(m).None? && Timely(s, 0.0) && Spaced(0.0, SimTicks(n + 4))
    ensures MoveCount(s, RawTable(m), SimTicks(n + 4)) > MoveCount(s, RawTable(m), SimTicks(n))
  {
    var ticks := SimTicks(n + 4);
    SimTicksPrefix(n, 4);
    assert ticks[..n + 4] == ticks;
    ReplayFlaps(s, m, 0.0, ticks, n);
  }

  /** How often a simulation of n equal snapshots changes the mode. */
  function TransitionCount(m: Metrics, startMode: SystemMode, n: nat): nat {
    |Changes(ModesOf(Constant(m, n), startMode))|
  }

  lemma TransitionsAreMoves(m: Metrics, startMode: SystemMode, n: nat)
    ensures TransitionCount(m, startMode, n)
      == MoveCount(ModeState(startMode, map[startMode := 0.0]), RawTable(m), SimTicks(n))
    ensures Spaced(0.0, SimTicks(n))
  {
    ConstantReplay(m, startMode, n);
  }

  /** A simulation of constant metrics that settle nowhere: any four more snapshots bring another transition. */
  lemma SimulationFlaps(m: Metrics, startMode: SystemMode, n: nat)
    requires ReplaySettles(m).None?
    ensures TransitionCount(m, startMode, n + 4) > TransitionCount(m, startMode, n)
  {
    TransitionsAreMoves(m, startMode, n);
    TransitionsAreMoves(m, startMode, n + 4);
    MovesGrow(ModeState(startMode, map[startMode := 0.0]), m, n);
  }
}
