/** Accounting over the sequence of modes a replay goes through: its first entry is the start mode and
    entry k the mode after step k, at 15 * k seconds (run_simulation in mode_simulator.py). */
module ModeTraces {
  import opened Modes
  import opened ModeFlips
  import opened Oscillations

  /** The simulated time of step k, counted from 1. */
  function SimTime(k: nat): real {
    15.0 * k as real
  }

  /** The mode changes of a trace. */
  function Changes(modes: seq<SystemMode>): seq<Transition> {
    if |modes| < 2 then []
    else
      var k := |modes| - 1;
      Changes(modes[..k]) +
        if modes[k - 1] == modes[k] then [] else [Transition(k - 1, SimTime(k), modes[k - 1], modes[k])]
  }

  lemma ChangesOneMore(modes: seq<SystemMode>, m: SystemMode)
    requires modes != []
    ensures var k := |modes|;
      Changes(modes + [m]) ==
        if modes[k - 1] == m then Changes(modes)
        else Changes(modes) + [Transition(k - 1, SimTime(k), modes[k - 1], m)]
  {
    assert (modes + [m])[..|modes|] == modes;
  }

  /** The transition is the change at its index, 15 seconds a step. */
  ghost predicate StandsFor(t: Transition, modes: seq<SystemMode>) {
    && t.index + 1 < |modes| && t.fromMode != t.toMode
    && t.fromMode == modes[t.index] && t.toMode == modes[t.index + 1]
    && t.simTime == 15.0 * (t.index + 1) as real
  }

  /** Every transition stands for a change, in order. */
  lemma {:induction false} ChangesExact(modes: seq<SystemMode>)
    ensures var ts := Changes(modes);
      && (forall i :: 0 <= i < |ts| ==> StandsFor(ts[i], modes))
      && (forall i, j :: 0 <= i < j < |ts| ==> ts[i].index < ts[j].index)
  {
    if |modes| >= 2 {
      var init, n := modes[..|modes| - 1], |modes| - 1;
      var before := Changes(init);
      ChangesExact(init);
      ChangesOneMore(init, modes[n]);
      assert init + [modes[n]] == modes;
      forall i | 0 <= i < |before| ensures StandsFor(before[i], modes) {
        assert StandsFor(before[i], init);
      }
      if modes[n - 1] != modes[n] {
        assert StandsFor(Transition(n - 1, SimTime(n), modes[n - 1], modes[n]), modes);
        assert forall i :: 0 <= i < |before| ==> before[i].index < n - 1 by {
          assert forall i :: 0 <= i < |before| ==> StandsFor(before[i], init);
        }
      }
    }
  }

  ghost predicate HasChangeAt(ts: seq<Transition>, k: nat) {
    exists i :: 0 <= i < |ts| && ts[i].index == k
  }

  /** And every change has one. */
  lemma {:induction false} ChangesComplete(modes: seq<SystemMode>, k: nat)
    requires k + 1 < |modes| && modes[k] != modes[k + 1]
    ensures HasChangeAt(Changes(modes), k)
  {
    var init, n := modes[..|modes| - 1], |modes| - 1;
    var before, ts := Changes(init), Changes(modes);
    ChangesOneMore(init, modes[n]);
    assert init + [modes[n]] == modes;
    if k < n - 1 {
      ChangesComplete(init, k);
      var i :| 0 <= i < |before| && before[i].index == k;
      assert ts[i].index == k;
    } else {
      assert ts[|before|].index == k;
    }
  }

  /** How many steps are entered in mode m. */
  function Steps(modes: seq<SystemMode>, m: SystemMode): nat {
    if |modes| < 2 then 0
    else Steps(modes[..|modes| - 1], m) + if modes[|modes| - 2] == m then 1 else 0
  }

  /** The changes lead from the first mode to the last one without a gap, lie at least 15 seconds apart, at the
      latest at until, and each one moves. */
  ghost predicate Connected(ts: seq<Transition>, first: SystemMode, last: SystemMode, until: real) {
    && (forall i :: 0 <= i < |ts| ==> Dir(ts[i]) != 0 && ts[i].simTime <= until)
    && (forall i, j :: 0 <= i < j < |ts| ==> ts[i].simTime + 15.0 <= ts[j].simTime)
    && (forall i :: 0 < i < |ts| ==> ts[i].fromMode == ts[i - 1].toMode)
    && (ts != [] ==> ts[0].fromMode == first)
    && last == (if ts == [] then first else ts[|ts| - 1].toMode)
  }

  lemma ConnectedOneMore(ts: seq<Transition>, first: SystemMode, last: SystemMode, until: real, t: Transition)
    requires Connected(ts, first, last, until)
    requires t.fromMode == last && Dir(t) != 0 && until + 15.0 <= t.simTime
    ensures Connected(ts + [t], first, t.toMode, t.simTime)
  {
  }

  lemma {:induction false} ChangesAreConnected(modes: seq<SystemMode>)
    requires modes != []
    ensures Connected(Changes(modes), modes[0], modes[|modes| - 1], SimTime(|modes| - 1))
  {
    var k := |modes| - 1;
    if k >= 1 {
      var init := modes[..k];
      ChangesAreConnected(init);
      ChangesOneMore(init, modes[k]);
      assert init + [modes[k]] == modes;
      if modes[k - 1] != modes[k] {
        ConnectedOneMore(Changes(init), modes[0], modes[k - 1], SimTime(k - 1),
          Transition(k - 1, SimTime(k), modes[k - 1], modes[k]));
      }
    }
  }

  /** So the oscillation detector's early break scans exactly the changes within the window. */
  lemma WindowsAreExact(modes: seq<SystemMode>, window: real, i: nat, k: nat)
    requires modes != [] && i < |Changes(modes)| && k < |Changes(modes)| && window >= 0.0
    ensures var ts := Changes(modes);
      i <= k < WindowStop(ts, window, i) <==> ts[i].simTime <= ts[k].simTime <= ts[i].simTime + window
  {
    ChangesAreConnected(modes);
    var ts := Changes(modes);
    if i <= k {
      EarlyBreakIsExact(ts, window, i, k);
    } else {
      assert ts[k].simTime + 15.0 <= ts[i].simTime;
    }
  }

  lemma {:induction false} ChangeDirsOfTrace(modes: seq<SystemMode>)
    ensures ChangeDirs(modes) == Dirs(Changes(modes))
  {
    if |modes| >= 2 {
      ChangeDirsOfTrace(modes[..|modes| - 1]);
    }
  }

  /** The report and the live metrics on the same trace: equal longest chains, and a flip count that is
      twice the metric's, corrected by whether the first and the last change are escalations. */
  lemma ReportMeetsLiveMetrics(modes: seq<SystemMode>)
    ensures var ds := Dirs(Changes(modes));
      && MaxChain(ds) == MaxDepth(modes)
      && SignFlips(ds) + Up(ds, 0) == 2 * Observed(modes).flips + Up(ds, |ds| - 1)
  {
    ChangeDirsOfTrace(modes);
    OnlineMeetsOffline(modes);
  }

  /** The time spent in m until until, by a run that starts in startMode and makes the transitions. */
  function Spent(ts: seq<Transition>, startMode: SystemMode, until: real, m: SystemMode): real {
    if ts == [] then (if startMode == m then until else 0.0)
    else
      var last := ts[|ts| - 1];
      Spent(ts[..|ts| - 1], startMode, last.simTime, m) + if last.toMode == m then until - last.simTime else 0.0
  }

  function ModeAfter(ts: seq<Transition>, startMode: SystemMode): SystemMode {
    if ts == [] then startMode else ts[|ts| - 1].toMode
  }

  lemma SpentGrows(ts: seq<Transition>, startMode: SystemMode, from: real, until: real, m: SystemMode)
    ensures Spent(ts, startMode, until, m)
      == Spent(ts, startMode, from, m) + if ModeAfter(ts, startMode) == m then until - from else 0.0
  {
  }

  lemma SpentOneMore(ts: seq<Transition>, t: Transition, startMode: SystemMode, m: SystemMode)
    ensures Spent(ts + [t], startMode, t.simTime, m) == Spent(ts, startMode, t.simTime, m)
  {
    assert (ts + [t])[..|ts|] == ts;
  }

  lemma StepsOneMore(modes: seq<SystemMode>, next: SystemMode, m: SystemMode)
    requires modes != []
    ensures Steps(modes + [next], m) == Steps(modes, m) + if modes[|modes| - 1] == m then 1 else 0
  {
    assert (modes + [next])[..|modes|] == modes;
  }

  /** Time in a mode is 15 seconds for every step entered in it. */
  lemma {:induction false} SpentIsSteps(modes: seq<SystemMode>, m: SystemMode)
    requires modes != []
    ensures Spent(Changes(modes), modes[0], SimTime(|modes| - 1), m) == 15.0 * Steps(modes, m) as real
  {
    var k := |modes| - 1;
    if k >= 1 {
      var init, next := modes[..k], modes[k];
      SpentIsSteps(init, m);
      ChangesAreConnected(init);
      SpentGrows(Changes(init), modes[0], SimTime(k - 1), SimTime(k), m);
      assert init + [next] == modes;
      ChangesOneMore(init, next);
      StepsOneMore(init, next, m);
      SpentOneMore(Changes(init), Transition(k - 1, SimTime(k), modes[k - 1], next), modes[0], m);
    }
  }

  lemma {:induction false} StepsSumUp(modes: seq<SystemMode>)
    requires modes != []
    ensures Steps(modes, Normal) + Steps(modes, Shadow) + Steps(modes, Degraded) + Steps(modes, Protected)
      + Steps(modes, ReadOnly) + Steps(modes, EmergencyStop) == |modes| - 1
  {
    if |modes| >= 2 {
      StepsSumUp(modes[..|modes| - 1]);
    }
  }

  function Lookup(times: map<SystemMode, real>, m: SystemMode): real {
    if m in times then times[m] else 0.0
  }

  function TotalTime(times: map<SystemMode, real>): real {
    Lookup(times, Normal) + Lookup(times, Shadow) + Lookup(times, Degraded) + Lookup(times, Protected)
      + Lookup(times, ReadOnly) + Lookup(times, EmergencyStop)
  }

  /** The times in all modes add up to the whole duration. */
  lemma TimesSumUp(modes: seq<SystemMode>, times: map<SystemMode, real>)
    requires modes != [] && forall m :: Lookup(times, m) == 15.0 * Steps(modes, m) as real
    ensures TotalTime(times) == SimTime(|modes| - 1)
  {
    StepsSumUp(modes);
  }

  /** Adds a duration to a mode's entry. */
  function Credit(times: map<SystemMode, real>, m: SystemMode, dur: real): (r: map<SystemMode, real>)
    ensures forall x :: Lookup(r, x) == Lookup(times, x) + if x == m then dur else 0.0
  {
    times[m := Lookup(times, m) + dur]
  }

  method TimeInMode(transitions: seq<Transition>, startMode: SystemMode, now: real)
    returns (times: map<SystemMode, real>)
    ensures forall m :: Lookup(times, m) == Spent(transitions, startMode, now, m)
  {
    if transitions == [] {
      return map[startMode := now];
    }
    times := map[];
    var prevTime, prevMode := 0.0, startMode;
    for i := 0 to |transitions|
      invariant prevTime == if i == 0 then 0.0 else transitions[i - 1].simTime
      invariant prevMode == ModeAfter(transitions[..i], startMode)
      invariant forall m :: Lookup(times, m) == Spent(transitions[..i], startMode, prevTime, m)
    {
      var t := transitions[i];
      assert transitions[..i + 1][..i] == transitions[..i];
      var dur := t.simTime - prevTime;
      forall m
        ensures Spent(transitions[..i + 1], startMode, t.simTime, m)
             == Spent(transitions[..i], startMode, prevTime, m) + if prevMode == m then dur else 0.0
      {
        SpentGrows(transitions[..i], startMode, prevTime, t.simTime, m);
      }
      times := Credit(times, prevMode, dur);
      prevTime, prevMode := t.simTime, t.toMode;
    }
    assert transitions[..|transitions|] == transitions;
    forall m
      ensures Spent(transitions, startMode, now, m)
           == Spent(transitions, startMode, prevTime, m) + if prevMode == m then now - prevTime else 0.0
    {
      SpentGrows(transitions, startMode, prevTime, now, m);
    }
    times := Credit(times, prevMode, now - prevTime);
  }

  method CountFlips(transitions: seq<Transition>) returns (flips: nat)
    ensures flips == SignFlips(Dirs(transitions))
  {
    ghost var ds := Dirs(transitions);
    flips := 0;
    var i := 1;
    while i < |transitions|
      invariant 1 <= i && (i <= |transitions| || |transitions| == 0)
      invariant flips == SignFlips(ds[..if i <= |ds| then i else 0])
    {
      var prevDir, currDir := Dir(transitions[i - 1]), Dir(transitions[i]);
      ProductSign(prevDir, currDir);
      assert ds[..i + 1][..i] == ds[..i];
      if prevDir * currDir < 0 {
        flips := flips + 1;
      }
      i := i + 1;
    }
    assert ds[..|ds|] == ds;
  }

  method LongestChain(transitions: seq<Transition>) returns (maxChain: nat)
    ensures maxChain == MaxChain(Dirs(transitions))
  {
    ghost var ds := Dirs(transitions);
    maxChain := 0;
    var currentChain := 0;
    for i := 0 to |transitions|
      invariant maxChain == MaxChain(ds[..i]) && currentChain == CurrentChain(ds[..i])
    {
      assert ds[..i + 1][..i] == ds[..i];
      if Dir(transitions[i]) > 0 {
        currentChain := currentChain + 1;
        maxChain := Max(maxChain, currentChain);
      } else {
        currentChain := 0;
      }
    }
    assert ds[..|ds|] == ds;
  }
}
