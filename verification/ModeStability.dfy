/** Where constant metrics lead the controller: to the one stable mode within eight evaluations, or,
    when there is none, nowhere (mode_simulator.py's replay and main.py's live loop). */
module ModeStability {
  import opened Modes
  import opened Options

  /** The two clock readings of one evaluation. */
  datatype Tick = Tick(now: real, later: real)

  /** Evaluations at least 15 seconds apart, the first one at least 15 seconds after last. */
  ghost predicate Spaced(last: real, ticks: seq<Tick>)
    decreases |ticks|
  {
    ticks != [] ==>
      && last + 15.0 <= ticks[0].now <= ticks[0].later
      && Spaced(ticks[0].later, ticks[1..])
  }

  function Run(s: ModeState, p: Table, ticks: seq<Tick>): ModeState
    decreases |ticks|
  {
    if ticks == [] then s else Run(Evaluated(s, p(s.mode), ticks[0].now, ticks[0].later), p, ticks[1..])
  }

  /** How many of the evaluations change the mode. */
  function MoveCount(s: ModeState, p: Table, ticks: seq<Tick>): nat
    decreases |ticks|
  {
    if ticks == [] then 0
    else
      var s' := Evaluated(s, p(s.mode), ticks[0].now, ticks[0].later);
      (if s'.mode != s.mode then 1 else 0) + MoveCount(s', p, ticks[1..])
  }

  lemma {:induction false} OneMoreTick(s: ModeState, p: Table, ticks: seq<Tick>, t: Tick)
    ensures var before := Run(s, p, ticks); var after := Evaluated(before, p(before.mode), t.now, t.later);
      && Run(s, p, ticks + [t]) == after
      && MoveCount(s, p, ticks + [t]) == MoveCount(s, p, ticks) + if after.mode != before.mode then 1 else 0
    decreases |ticks|
  {
    if ticks == [] {
      assert ticks + [t] == [t];
    } else {
      var s' := Evaluated(s, p(s.mode), ticks[0].now, ticks[0].later);
      OneMoreTick(s', p, ticks[1..], t);
      assert (ticks + [t])[1..] == ticks[1..] + [t];
    }
  }

  lemma {:induction false} SpacedOneMore(last: real, ticks: seq<Tick>, t: Tick)
    requires Spaced(last, ticks) && t.now <= t.later
    requires (if ticks == [] then last else ticks[|ticks| - 1].later) + 15.0 <= t.now
    ensures Spaced(last, ticks + [t])
    decreases |ticks|
  {
    if ticks == [] {
      assert ticks + [t] == [t];
    } else {
      SpacedOneMore(ticks[0].later, ticks[1..], t);
      assert (ticks + [t])[1..] == ticks[1..] + [t];
    }
  }

  /** The mode an evaluation moves to once the current mode has been held long enough. */
  function Next(current: SystemMode, target: SystemMode): SystemMode {
    if Index(target) > Index(current) then target else StepDown(current, target)
  }

  /** Evaluations after which a mode has certainly been left, when the metrics ask for target. */
  function Need(current: SystemMode, target: SystemMode): nat {
    if target == EmergencyStop then 1
    else if Index(target) > Index(current) then (if current == Degraded then 4 else 1)
    else match current
      case ReadOnly => 2
      case EmergencyStop => 1
      case _ => 4
  }

  /** Evaluations that certainly suffice from the entry into mode to the stable mode. */
  function Travel(stable: SystemMode, mode: SystemMode): nat {
    if mode == stable then 0
    else match stable
      case EmergencyStop => 1
      case Protected => (match mode case Degraded => 4 case ReadOnly => 6 case EmergencyStop => 5 case _ => 1)
      case Degraded => (match mode case Protected => 4 case ReadOnly => 7 case EmergencyStop => 6 case _ => 5)
      case _ => (match mode case Protected => 8 case ReadOnly => 2 case EmergencyStop => 1 case _ => 4)
  }

  /** The same, when the mode has already been held for waited - 1 evaluations. */
  function Remaining(stable: SystemMode, mode: SystemMode, target: SystemMode, waited: nat): int {
    if mode == stable then 0
    else Travel(stable, mode) - (if waited < Need(mode, target) then waited else Need(mode, target)) + 1
  }

  /** The current mode was entered at least 15 * (waited - 1) seconds before last. */
  ghost predicate Held(s: ModeState, last: real, waited: nat) {
    waited >= 1 && s.mode in s.entry && s.entry[s.mode] + 15.0 * (waited - 1) as real <= last
  }

  lemma HysteresisGivesWay(current: SystemMode, entry: real, target: SystemMode, now: real, waited: nat)
    requires target != current && Proposable(target)
    requires now - entry >= 15.0 * waited as real && waited >= 1
    ensures var h := Hysteresis(current, Some(entry), target, now);
      h == Next(current, target) != current || (h == current && waited < Need(current, target))
  {
    assert waited >= 2 ==> now - entry >= 30.0;
    assert waited >= 4 ==> now - entry >= 60.0;
  }

  lemma LeavesWhenDue(s: ModeState, p: Table, waited: nat, last: real, t: Tick)
    requires Proposable(p(s.mode)) && p(s.mode) != s.mode
    requires Held(s, last, waited) && last + 15.0 <= t.now <= t.later
    ensures var s' := Evaluated(s, p(s.mode), t.now, t.later);
      || (s' == s && waited < Need(s.mode, p(s.mode)) && Held(s', t.later, waited + 1))
      || (s'.mode == Next(s.mode, p(s.mode)) != s.mode && Held(s', t.later, 1))
  {
    HysteresisGivesWay(s.mode, s.entry[s.mode], p(s.mode), t.now, waited);
  }

  /** How the proposal of a mode that is not stable relates to the stable mode. */
  ghost predicate PointsTo(stable: SystemMode, mode: SystemMode, target: SystemMode) {
    && Proposable(stable) && Proposable(target) && mode != target
    && (Index(mode) <= Index(stable) ==> Index(stable) <= Index(target))
    && (Index(stable) <= Index(mode) ==> Index(target) <= Index(stable))
    && (target == EmergencyStop <==> stable == EmergencyStop)
  }

  lemma ProposalPointsTo(p: Table, stable: SystemMode, mode: SystemMode)
    requires IsProposalTable(p) && p(stable) == stable && mode != stable
    ensures PointsTo(stable, mode, p(mode))
  {
    AtMostOneForces(p, stable, mode);
    assert Proposable(p(stable)) && Proposable(p(mode));
    assert Index(mode) <= Index(stable) ==> Index(p(stable)) <= Index(p(mode));
    assert Index(stable) <= Index(mode) ==> Index(p(mode)) <= Index(p(stable));
  }

  /** Every move away from a mode that is not stable leads closer to the stable one. */
  lemma NextMoveIsCloser(stable: SystemMode, mode: SystemMode, target: SystemMode)
    requires PointsTo(stable, mode, target) && mode != stable
    ensures Travel(stable, Next(mode, target)) + Need(mode, target) <= Travel(stable, mode) <= 8
  {
  }

  lemma AtMostOneForces(p: Table, stable: SystemMode, mode: SystemMode)
    requires IsProposalTable(p) && p(stable) == stable && mode != stable
    ensures p(mode) != mode
  {
    if p(mode) == mode {
      AtMostOneStableMode(p, mode, stable);
    }
  }

  lemma LessRemains(stable: SystemMode, mode: SystemMode, target: SystemMode, waited: nat, target': SystemMode)
    requires PointsTo(stable, mode, target) && mode != stable && waited >= 1
    ensures waited < Need(mode, target) ==>
      Remaining(stable, mode, target, waited + 1) < Remaining(stable, mode, target, waited)
    ensures Remaining(stable, Next(mode, target), target', 1) < Remaining(stable, mode, target, waited)
  {
    NextMoveIsCloser(stable, mode, target);
  }

  /** One evaluation away from the stable mode: less remains than before. */
  lemma OneEvaluation(s: ModeState, p: Table, stable: SystemMode, last: real, waited: nat, t: Tick)
    returns (waited': nat)
    requires IsProposalTable(p) && p(stable) == stable && s.mode != stable
    requires Held(s, last, waited) && last + 15.0 <= t.now <= t.later
    ensures var s' := Evaluated(s, p(s.mode), t.now, t.later);
      Held(s', t.later, waited')
      && Remaining(stable, s'.mode, p(s'.mode), waited') < Remaining(stable, s.mode, p(s.mode), waited)
  {
    ProposalPointsTo(p, stable, s.mode);
    LeavesWhenDue(s, p, waited, last, t);
    var s' := Evaluated(s, p(s.mode), t.now, t.later);
    waited' := if s'.mode == s.mode then waited + 1 else 1;
    LessRemains(stable, s.mode, p(s.mode), waited, p(s'.mode));
  }

  lemma SomethingRemains(stable: SystemMode, mode: SystemMode, target: SystemMode, waited: nat)
    requires PointsTo(stable, mode, target) && mode != stable
    ensures 1 <= Remaining(stable, mode, target, waited)
  {
    NextMoveIsCloser(stable, mode, target);
  }

  lemma StableStays(s: ModeState, p: Table, last: real, waited: nat, t: Tick)
    requires p(s.mode) == s.mode && Held(s, last, waited) && last + 15.0 <= t.now <= t.later
    ensures Evaluated(s, p(s.mode), t.now, t.later) == s && Held(s, t.later, 1)
  {
  }

  lemma {:induction false} ConvergesFrom(s: ModeState, p: Table, stable: SystemMode,
                                         last: real, waited: nat, ticks: seq<Tick>)
    requires IsProposalTable(p) && p(stable) == stable
    requires Held(s, last, waited) && Spaced(last, ticks)
    requires Remaining(stable, s.mode, p(s.mode), waited) <= |ticks|
    ensures Run(s, p, ticks).mode == stable
    decreases |ticks|
  {
    if ticks == [] {
      if s.mode != stable {
        ProposalPointsTo(p, stable, s.mode);
        SomethingRemains(stable, s.mode, p(s.mode), waited);
      }
    } else if s.mode != stable {
      var waited' := OneEvaluation(s, p, stable, last, waited, ticks[0]);
      ConvergesFrom(Evaluated(s, p(s.mode), ticks[0].now, ticks[0].later),
                    p, stable, ticks[0].later, waited', ticks[1..]);
    } else {
      StableStays(s, p, last, waited, ticks[0]);
      ConvergesFrom(s, p, stable, ticks[0].later, 1, ticks[1..]);
    }
  }

  // ----- where constant metrics lead

  /** The current mode was not entered after last. It may have no entry time at all, as in a fresh
      controller or after a mode was restored. */
  ghost predicate Timely(s: ModeState, last: real) {
    s.mode in s.entry ==> s.entry[s.mode] <= last
  }

  lemma {:induction false} StableForever(s: ModeState, p: Table, ticks: seq<Tick>)
    requires p(s.mode) == s.mode
    ensures Run(s, p, ticks) == s
    decreases |ticks|
  {
    if ticks != [] {
      StableForever(s, p, ticks[1..]);
    }
  }

  /** Without an entry time the first proposal is followed at once and all the way. */
  lemma FirstJump(s: ModeState, p: Table, t: Tick)
    requires s.mode !in s.entry && p(s.mode) != s.mode
    ensures var s' := Evaluated(s, p(s.mode), t.now, t.later);
      s'.mode == p(s.mode) && Held(s', t.later, 1)
  {
  }

  /** And it leads to where seven more evaluations suffice. */
  lemma JumpIsCloser(stable: SystemMode, mode: SystemMode, target: SystemMode, next: SystemMode)
    requires PointsTo(stable, mode, target) && mode != stable
    ensures Remaining(stable, target, next, 1) <= 7
  {
  }

  /** Constant metrics with a stable mode: whatever the mode and whenever it was entered, if ever, any run of
      at least eight evaluations ends in the stable mode. */
  lemma Convergence(s: ModeState, p: Table, stable: SystemMode, last: real, ticks: seq<Tick>)
    requires IsProposalTable(p) && p(stable) == stable
    requires Timely(s, last) && Spaced(last, ticks) && |ticks| >= 8
    ensures Run(s, p, ticks).mode == stable
  {
    if s.mode == stable {
      StableForever(s, p, ticks);
    } else {
      ProposalPointsTo(p, stable, s.mode);
      if s.mode in s.entry {
        TravelIsBounded(stable, s.mode, p(s.mode));
        ConvergesFrom(s, p, stable, last, 1, ticks);
      } else {
        ConvergesUnentered(s, p, stable, last, ticks);
      }
    }
  }

  lemma TravelIsBounded(stable: SystemMode, mode: SystemMode, target: SystemMode)
    requires PointsTo(stable, mode, target) && mode != stable
    ensures Remaining(stable, mode, target, 1) <= 8
  {
    NextMoveIsCloser(stable, mode, target);
  }

  lemma ConvergesUnentered(s: ModeState, p: Table, stable: SystemMode, last: real, ticks: seq<Tick>)
    requires IsProposalTable(p) && p(stable) == stable
    requires s.mode !in s.entry && PointsTo(stable, s.mode, p(s.mode)) && s.mode != stable
    requires Spaced(last, ticks) && |ticks| >= 8
    ensures Run(s, p, ticks).mode == stable
  {
    var s' := Evaluated(s, p(s.mode), ticks[0].now, ticks[0].later);
    FirstJump(s, p, ticks[0]);
    JumpIsCloser(stable, s.mode, p(s.mode), p(s'.mode));
    ConvergesFrom(s', p, stable, ticks[0].later, 1, ticks[1..]);
  }

  ghost predicate Restless(p: Table) {
    forall m :: Proposable(p(m)) && p(m) != m
  }

  lemma {:induction false} FlapsFrom(s: ModeState, p: Table, last: real, waited: nat, ticks: seq<Tick>)
    requires Restless(p)
    requires Held(s, last, waited) && waited <= 4 && Spaced(last, ticks)
    ensures |ticks| + waited <= 4 * MoveCount(s, p, ticks) + 4
    decreases |ticks|
  {
    if ticks != [] {
      var t := ticks[0];
      var s' := Evaluated(s, p(s.mode), t.now, t.later);
      LeavesWhenDue(s, p, waited, last, t);
      if s'.mode == s.mode {
        FlapsFrom(s', p, t.later, waited + 1, ticks[1..]);
      } else {
        FlapsFrom(s', p, t.later, 1, ticks[1..]);
      }
    }
  }

  lemma FlapsAtLeast(s: ModeState, p: Table, last: real, ticks: seq<Tick>)
    requires Restless(p) && Timely(s, last) && Spaced(last, ticks)
    ensures MoveCount(s, p, ticks) >= |ticks| / 4
  {
    if s.mode in s.entry {
      FlapsFrom(s, p, last, 1, ticks);
    } else if ticks != [] {
      FirstJump(s, p, ticks[0]);
      FlapsFrom(Evaluated(s, p(s.mode), ticks[0].now, ticks[0].later), p, ticks[0].later, 1, ticks[1..]);
    }
  }

  lemma {:induction false} SpacedPrefix(last: real, ticks: seq<Tick>, n: nat)
    requires Spaced(last, ticks) && n <= |ticks|
    ensures Spaced(last, ticks[..n])
    decreases n
  {
    if n > 0 {
      SpacedPrefix(ticks[0].later, ticks[1..], n - 1);
      assert ticks[..n][1..] == ticks[1..][..n - 1];
    }
  }

  lemma {:induction false} ChangesInEveryFour(s: ModeState, p: Table, last: real, ticks: seq<Tick>, n: nat)
    requires Restless(p) && Timely(s, last) && Spaced(last, ticks) && n + 4 <= |ticks|
    ensures MoveCount(s, p, ticks[..n + 4]) > MoveCount(s, p, ticks[..n])
    decreases n
  {
    if n == 0 {
      SpacedPrefix(last, ticks, 4);
      FlapsAtLeast(s, p, last, ticks[..4]);
    } else {
      var s' := Evaluated(s, p(s.mode), ticks[0].now, ticks[0].later);
      ChangesInEveryFour(s', p, ticks[0].later, ticks[1..], n - 1);
      assert ticks[..n + 4][1..] == ticks[1..][..n + 3];
      assert ticks[..n][1..] == ticks[1..][..n - 1];
    }
  }

  /** Constant metrics without a stable mode: from every mode, entered whenever or never, the mode changes
      within any four consecutive evaluations, for as long as they go on. */
  lemma FlapsForever(s: ModeState, p: Table, last: real, ticks: seq<Tick>, n: nat)
    requires IsProposalTable(p) && forall m :: p(m) != m
    requires Timely(s, last) && Spaced(last, ticks) && n + 4 <= |ticks|
    ensures MoveCount(s, p, ticks[..n + 4]) > MoveCount(s, p, ticks[..n])
    ensures MoveCount(s, p, ticks) >= |ticks| / 4
  {
    ChangesInEveryFour(s, p, last, ticks, n);
    FlapsAtLeast(s, p, last, ticks);
  }

  // ----- which metrics settle, and where

  /** An alarm that damping does not touch, against limits in per cent. */
  predicate StructuralAlarm(m: Metrics, db: real, redis: real) {
    m.circuitBreakerOpen || m.dbPoolUtilizationPct >= db || m.redisMemoryPct >= redis || m.drawdown > 0.15
  }

  /** A warning from the metrics damped by a factor. */
  predicate Warns(m: Metrics, db: real, stream: real, factor: real) {
    || m.dbPoolUtilizationPct >= db
    || m.redisMaxPending * factor > 500.0
    || m.reconnectStorm * factor > 5.0
    || m.streamPressureRatio * factor >= stream
  }

  /** What metrics ask for, against limits for the pool, the memory and the damped streams. */
  function AskedFor(m: Metrics, factor: real, dbWarning: real, dbCritical: real, redisCritical: real,
                    streamWarning: real, streamCritical: real): SystemMode {
    if m.emergencyStop || m.killSwitch then EmergencyStop
    else if StructuralAlarm(m, dbCritical, redisCritical) || m.streamPressureRatio * factor >= streamCritical
      then Protected
    else if Warns(m, dbWarning, streamWarning, factor) then Degraded
    else Normal
  }

  /** The proposal of every mode, in numbers, for raw metrics. */
  lemma RawLimits(m: Metrics)
    ensures RawTable(m)(Normal) == AskedFor(m, 1.0, 70.0, 85.0, 85.0, 0.70, 0.90)
    ensures RawTable(m)(Shadow) == AskedFor(m, 1.0, 70.0, 85.0, 85.0, 0.70, 0.90)
    ensures RawTable(m)(Degraded) == AskedFor(m, 1.0, 80.0, 90.0, 90.0, 0.80, 0.95)
    ensures RawTable(m)(Protected) == AskedFor(m, 1.0, 85.0, 95.0, 95.0, 0.90, 0.98)
    ensures RawTable(m)(ReadOnly) == AskedFor(m, 1.0, 100.0, 100.0, 100.0, 1.0, 1.0)
    ensures RawTable(m)(EmergencyStop) == AskedFor(m, 1.0, 100.0, 100.0, 100.0, 1.0, 1.0)
  {
  }

  /** And for the damped ones of the live loop. */
  lemma LiveLimits(m: Metrics)
    ensures LiveTable(m)(Normal) == AskedFor(m, 1.0, 70.0, 85.0, 85.0, 0.70, 0.90)
    ensures LiveTable(m)(Shadow) == AskedFor(m, 1.0, 70.0, 85.0, 85.0, 0.70, 0.90)
    ensures LiveTable(m)(Degraded) == AskedFor(m, 0.6, 80.0, 90.0, 90.0, 0.80, 0.95)
    ensures LiveTable(m)(Protected) == AskedFor(m, 0.3, 85.0, 95.0, 95.0, 0.90, 0.98)
    ensures LiveTable(m)(ReadOnly) == AskedFor(m, 0.0, 100.0, 100.0, 100.0, 1.0, 1.0)
    ensures LiveTable(m)(EmergencyStop) == AskedFor(m, 0.0, 100.0, 100.0, 100.0, 1.0, 1.0)
  {
  }

  /** The mode in which metrics settle, if there is one, when PROTECTED and DEGRADED damp by the given factors. */
  function Settles(m: Metrics, protected: real, degraded: real): Option<SystemMode> {
    if m.emergencyStop || m.killSwitch then Some(EmergencyStop)
    else if StructuralAlarm(m, 95.0, 95.0) || m.streamPressureRatio * protected >= 0.98 then Some(Protected)
    else if !StructuralAlarm(m, 90.0, 90.0) && m.streamPressureRatio * degraded < 0.95 && Warns(m, 80.0, 0.80, degraded)
      then Some(Degraded)
    else if !StructuralAlarm(m, 85.0, 85.0) && m.streamPressureRatio < 0.90 && !Warns(m, 70.0, 0.70, 1.0)
      then Some(Normal)
    else None
  }

  /** Where the replay settles, which feeds the raw metrics. */
  function ReplaySettles(m: Metrics): Option<SystemMode> {
    Settles(m, 1.0, 1.0)
  }

  /** Where the live loop settles, which damps by the sensitivity of the current mode. */
  function LiveSettles(m: Metrics): Option<SystemMode> {
    Settles(m, 0.3, 0.6)
  }

  lemma RawStableIff(m: Metrics, mode: SystemMode)
    ensures RawTable(m)(mode) == mode <==> ReplaySettles(m) == Some(mode)
  {
  }

  lemma LiveStableIff(m: Metrics, mode: SystemMode)
    ensures LiveTable(m)(mode) == mode <==> LiveSettles(m) == Some(mode)
  {
  }

  /** For all constant metrics: evaluations of the raw metrics end in the mode where they settle, within
      eight evaluations. */
  lemma ReplayConverges(s: ModeState, m: Metrics, last: real, ticks: seq<Tick>)
    requires Timely(s, last) && Spaced(last, ticks) && |ticks| >= 8
    requires ReplaySettles(m).Some?
    ensures Run(s, RawTable(m), ticks).mode == ReplaySettles(m).value
  {
    RawTableIsProposalTable(m);
    RawStableIff(m, ReplaySettles(m).value);
    Convergence(s, RawTable(m), ReplaySettles(m).value, last, ticks);
  }

  /** Where they settle nowhere, the mode changes within any four evaluations. */
  lemma ReplayFlaps(s: ModeState, m: Metrics, last: real, ticks: seq<Tick>, n: nat)
    requires Timely(s, last) && Spaced(last, ticks) && n + 4 <= |ticks|
    requires ReplaySettles(m).None?
    ensures MoveCount(s, RawTable(m), ticks[..n + 4]) > MoveCount(s, RawTable(m), ticks[..n])
  {
    RawTableIsProposalTable(m);
    forall mode ensures RawTable(m)(mode) != mode {
      RawStableIff(m, mode);
    }
    FlapsForever(s, RawTable(m), last, ticks, n);
  }

  /** The live loop too ends where the damped metrics settle, from a fresh controller and from a restored
      mode as well. */
  lemma LiveLoopConverges(s: ModeState, m: Metrics, last: real, ticks: seq<Tick>)
    requires Timely(s, last) && Spaced(last, ticks) && |ticks| >= 8
    requires LiveSettles(m).Some?
    ensures Run(s, LiveTable(m), ticks).mode == LiveSettles(m).value
  {
    LiveTableIsProposalTable(m);
    LiveStableIff(m, LiveSettles(m).value);
    Convergence(s, LiveTable(m), LiveSettles(m).value, last, ticks);
  }

  /** And where the metrics settle nowhere, the live loop changes its mode within any four evaluations. */
  lemma LiveLoopFlaps(s: ModeState, m: Metrics, last: real, ticks: seq<Tick>, n: nat)
    requires Timely(s, last) && Spaced(last, ticks) && n + 4 <= |ticks|
    requires LiveSettles(m).None?
    ensures MoveCount(s, LiveTable(m), ticks[..n + 4]) > MoveCount(s, LiveTable(m), ticks[..n])
  {
    LiveTableIsProposalTable(m);
    forall mode ensures LiveTable(m)(mode) != mode {
      LiveStableIff(m, mode);
    }
    FlapsForever(s, LiveTable(m), last, ticks, n);
  }

  const DILEMMA := Metrics(false, false, false, 75.0, 0.0, 0.0, 0.0, 0.0, 0.0)

  /** There are metrics that settle nowhere: a pool at 75 per cent is a warning to NORMAL and healthy to every
      other mode but SHADOW, so no mode proposes itself. */
  lemma NoStableModeExample(m: SystemMode)
    ensures RawTable(DILEMMA)(m) != m && LiveTable(DILEMMA)(m) != m
    ensures RawTable(DILEMMA)(Normal) == Degraded && RawTable(DILEMMA)(Degraded) == Normal
  {
    assert Adjust(DILEMMA, Context(m).sensitivity) == DILEMMA;
  }

  // ----- the replay and the live loop

  lemma DampingLowers(mode: SystemMode, m: Metrics)
    ensures Index(LiveTable(m)(mode)) <= Index(RawTable(m)(mode))
    ensures LiveTable(m)(mode) == EmergencyStop <==> RawTable(m)(mode) == EmergencyStop
    ensures LiveTable(m)(Normal) == RawTable(m)(Normal)
  {
    var s := Context(mode).sensitivity;
    DampingIsMonotone(m.streamPressureRatio, 1.0, s);
    DampingIsMonotone(m.redisMaxPending, 1.0, s);
    DampingIsMonotone(m.reconnectStorm, 1.0, s);
    ProposeRange(mode, m);
    ProposeRange(mode, Adjust(m, s));
    assert Adjust(m, Context(Normal).sensitivity) == m;
  }

  /** Neither an emergency, nor an alarm that keeps the live loop in PROTECTED. */
  predicate LiveLeavesProtected(m: Metrics) {
    && !m.emergencyStop && !m.killSwitch && !StructuralAlarm(m, 95.0, 95.0)
    && m.streamPressureRatio * 0.3 < 0.98
  }

  /** The replay settles in PROTECTED on the undamped stream ratio alone. */
  predicate HeldByStream(m: Metrics) {
    m.streamPressureRatio >= 0.98
  }

  /** The replay settles in DEGRADED on undamped behavioural metrics alone. */
  predicate HeldByWarning(m: Metrics) {
    && !StructuralAlarm(m, 90.0, 90.0) && m.streamPressureRatio < 0.95
    && m.dbPoolUtilizationPct < 80.0
    && (m.redisMaxPending > 500.0 || m.reconnectStorm > 5.0 || m.streamPressureRatio >= 0.80)
  }

  /** Damped, the metrics no longer hold the live loop in DEGRADED. */
  predicate LiveLeavesDegraded(m: Metrics) {
    StructuralAlarm(m, 90.0, 90.0) || m.streamPressureRatio * 0.6 >= 0.95 || !Warns(m, 80.0, 0.80, 0.6)
  }

  /** For all metrics: the replay settles and the live loop never does if and only if the replay is held in
      PROTECTED or in DEGRADED by behavioural metrics alone, and these, damped, hold the live loop neither in
      PROTECTED nor in DEGRADED. */
  lemma LiveLoopUnsettledIff(m: Metrics)
    ensures ReplaySettles(m).Some? && LiveSettles(m).None?
      <==> LiveLeavesProtected(m) && LiveLeavesDegraded(m) && (HeldByStream(m) || HeldByWarning(m))
  {
  }

  const BACKLOG := Metrics(false, false, false, 0.0, 0.0, 0.0, 0.0, 600.0, 0.0)

  /** The two loops part company in every way. A backlog of 600 pending messages: the replay settles in
      DEGRADED, the live loop nowhere. With 1000 pending and full streams the replay settles in PROTECTED, the
      live loop in DEGRADED. With 1000 pending and streams at 96 per cent the replay settles nowhere, the live
      loop in DEGRADED. */
  lemma LoopsPartCompany()
    ensures ReplaySettles(BACKLOG) == Some(Degraded) && LiveSettles(BACKLOG) == None
    ensures var full := BACKLOG.(redisMaxPending := 1000.0, streamPressureRatio := 1.0);
      ReplaySettles(full) == Some(Protected) && LiveSettles(full) == Some(Degraded)
    ensures var nearly := BACKLOG.(redisMaxPending := 1000.0, streamPressureRatio := 0.96);
      ReplaySettles(nearly) == None && LiveSettles(nearly) == Some(Degraded)
  {
  }

  /** So with a constant backlog of 600 pending messages the replay settles in DEGRADED, while the live
      loop changes its mode in any four evaluations, for ever. */
  lemma ReplaySettlesWhileLiveLoopFlaps(s: ModeState, last: real, ticks: seq<Tick>, n: nat)
    requires Timely(s, last) && Spaced(last, ticks) && |ticks| >= 8 && n + 4 <= |ticks|
    ensures Run(s, RawTable(BACKLOG), ticks).mode == Degraded
    ensures MoveCount(s, LiveTable(BACKLOG), ticks[..n + 4]) > MoveCount(s, LiveTable(BACKLOG), ticks[..n])
  {
    LoopsPartCompany();
    ReplayConverges(s, BACKLOG, last, ticks);
    LiveLoopFlaps(s, BACKLOG, last, ticks, n);
  }
}
