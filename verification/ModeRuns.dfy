/** What holds over every run of a fresh controller, whatever the metrics and however evaluations,
    overrides and reads interleave (system_mode.py). */
module ModeRuns {
  import opened Options
  import opened Modes
  import opened ModeManagers

  function Run(c: Controller, calls: seq<Call>): Controller
    decreases |calls|
  {
    if calls == [] then c else Run(Apply(c, calls[0]), calls[1..])
  }

  /** How many of the calls change the mode. */
  function Transitions(c: Controller, calls: seq<Call>): nat
    decreases |calls|
  {
    if calls == [] then 0
    else
      var c' := Apply(c, calls[0]);
      (if c'.state.mode != c.state.mode then 1 else 0) + Transitions(c', calls[1..])
  }

  /** The clock after a call, last being the clock before it. */
  function Clock(last: real, call: Call): real {
    match call
    case Evaluate(_, _, _, later) => later
    case SetOverride(_, _, at) => at
    case ClearOverride => last
    case GetMode(at) => at
  }

  ghost predicate Ticks(last: real, call: Call) {
    match call
    case Evaluate(_, check, now, later) => last <= check <= now <= later
    case SetOverride(_, _, at) => last <= at
    case ClearOverride => true
    case GetMode(at) => last <= at
  }

  /** The clock never runs backwards during the calls and reads at most end. */
  ghost predicate Monotone(last: real, calls: seq<Call>, end: real)
    decreases |calls|
  {
    last <= end &&
    (calls != [] ==> Ticks(last, calls[0]) && Monotone(Clock(last, calls[0]), calls[1..], end))
  }

  /** The states a fresh controller can be in: a mode that is proposed, and with an entry time unless
      it is still the first NORMAL. */
  ghost predicate Reachable(s: ModeState, last: real) {
    && Proposable(s.mode)
    && (s.mode != Normal ==> s.mode in s.entry)
    && (s.mode in s.entry ==> s.entry[s.mode] <= last)
  }

  // ----- one call

  /** The guard every departure from a mode has passed. */
  ghost predicate Dwelt(from: SystemMode, entry: Option<real>, to: SystemMode, now: real) {
    && !(from == Protected && to == Normal)
    && (Index(to) > Index(from) && to != EmergencyStop && entry.Some? ==> now - entry.value >= HoldTime(from))
    && (Index(to) < Index(from) ==> entry.Some? && now - entry.value >= MinimumDuration(from))
  }

  lemma CallKeepsReachable(c: Controller, call: Call, last: real)
    requires Reachable(c.state, last) && Ticks(last, call)
    ensures Reachable(Apply(c, call).state, Clock(last, call))
    ensures Apply(c, call).state.mode != c.state.mode ==>
      && call.Evaluate?
      && Apply(c, call).state.EntryTime() == Some(call.later)
      && Dwelt(c.state.mode, c.state.EntryTime(), Apply(c, call).state.mode, call.now)
    ensures Apply(c, call).state.mode == c.state.mode ==> Apply(c, call).state == c.state
  {
    if call.Evaluate? {
      ProposeRange(c.state.mode, call.metrics);
    }
  }

  // ----- dwell and step-down over whole runs

  lemma {:induction false} RunKeepsReachable(c: Controller, calls: seq<Call>, last: real, end: real)
    requires Reachable(c.state, last) && Monotone(last, calls, end)
    ensures Reachable(Run(c, calls).state, end)
    decreases |calls|
  {
    if calls != [] {
      CallKeepsReachable(c, calls[0], last);
      RunKeepsReachable(Apply(c, calls[0]), calls[1..], Clock(last, calls[0]), end);
    }
  }

  /** When the mode last changed: the clock read as the last transition was recorded. */
  function LastChange(c: Controller, calls: seq<Call>, before: Option<real>): Option<real>
    decreases |calls|
  {
    if calls == [] then before
    else
      var c' := Apply(c, calls[0]);
      LastChange(c', calls[1..],
        if c'.state.mode != c.state.mode && calls[0].Evaluate? then Some(calls[0].later) else before)
  }

  lemma {:induction false} EntryIsLastChange(c: Controller, calls: seq<Call>, last: real, end: real)
    requires Reachable(c.state, last) && Monotone(last, calls, end)
    ensures Run(c, calls).state.EntryTime() == LastChange(c, calls, c.state.EntryTime())
    decreases |calls|
  {
    if calls != [] {
      CallKeepsReachable(c, calls[0], last);
      EntryIsLastChange(Apply(c, calls[0]), calls[1..], Clock(last, calls[0]), end);
    }
  }

  lemma DwellAndStepDownFrom(c: Controller, calls: seq<Call>, next: Call, last: real, end: real)
    requires Reachable(c.state, last) && Monotone(last, calls, end) && Ticks(end, next)
    ensures var c' := Run(c, calls);
      && c'.state.mode != Shadow && c'.state.mode != ReadOnly
      && (Apply(c', next).state.mode != c'.state.mode ==>
            && next.Evaluate?
            && Dwelt(c'.state.mode, LastChange(c, calls, c.state.EntryTime()), Apply(c', next).state.mode, next.now))
  {
    RunKeepsReachable(c, calls, last, end);
    EntryIsLastChange(c, calls, last, end);
    CallKeepsReachable(Run(c, calls), next, end);
  }

  /** Over every run of a fresh controller: SHADOW and READ_ONLY are never reached, and a call that
      changes the mode next has respected the hold time or the minimum duration since the last change
      and never takes PROTECTED to NORMAL. */
  lemma DwellAndStepDown(calls: seq<Call>, next: Call, start: real, end: real)
    requires Monotone(start, calls, end) && Ticks(end, next)
    ensures var c := Run(FRESH_CONTROLLER, calls);
      && c.state.mode != Shadow && c.state.mode != ReadOnly
      && (Apply(c, next).state.mode != c.state.mode ==>
            && next.Evaluate?
            && Dwelt(c.state.mode, LastChange(FRESH_CONTROLLER, calls, None), Apply(c, next).state.mode, next.now))
  {
    DwellAndStepDownFrom(FRESH_CONTROLLER, calls, next, start, end);
  }

  ghost predicate NeverStops(c: Controller, calls: seq<Call>)
    decreases |calls|
  {
    c.state.mode != EmergencyStop && (calls != [] ==> NeverStops(Apply(c, calls[0]), calls[1..]))
  }

  /** On the way from PROTECTED, entered at entered, down to NORMAL. */
  ghost predicate OnTheWayDown(s: ModeState, entered: real, last: real) {
    match s.mode
    case Protected => Protected in s.entry && s.entry[Protected] >= entered
    case Degraded => Degraded in s.entry && s.entry[Degraded] >= entered + 60.0
    case Normal => last >= entered + 120.0
    case _ => false
  }

  lemma {:induction false} SlowWayDown(c: Controller, calls: seq<Call>, entered: real, last: real, end: real)
    requires Reachable(c.state, last) && Monotone(last, calls, end) && NeverStops(c, calls)
    requires OnTheWayDown(c.state, entered, last)
    ensures OnTheWayDown(Run(c, calls).state, entered, end)
    decreases |calls|
  {
    if calls != [] {
      CallKeepsReachable(c, calls[0], last);
      SlowWayDown(Apply(c, calls[0]), calls[1..], entered, Clock(last, calls[0]), end);
    }
  }

  /** Trading, which needs NORMAL, stays off for 120 seconds after PROTECTED is entered, however the
      run goes on, unless EMERGENCY_STOP intervenes. */
  lemma NoTradingAfterProtected(before: seq<Call>, after: seq<Call>, start: real, mid: real, end: real)
    requires Monotone(start, before, mid) && Monotone(mid, after, end)
    requires var c := Run(FRESH_CONTROLLER, before); c.state.mode == Protected && NeverStops(c, after)
    ensures Protected in Run(FRESH_CONTROLLER, before).state.entry
    ensures MayTrade(Run(Run(FRESH_CONTROLLER, before), after).state.mode) ==>
      end >= Run(FRESH_CONTROLLER, before).state.entry[Protected] + 120.0
  {
    var c := Run(FRESH_CONTROLLER, before);
    RunKeepsReachable(FRESH_CONTROLLER, before, start, mid);
    SlowWayDown(c, after, c.state.entry[Protected], mid, end);
  }

  /** An evaluation that sees a drawdown above 15 per cent leaves trading on if and only if the controller was
      in NORMAL and an override is in force: a live override hides the drawdown. */
  lemma DrawdownStopsTrading(c: Controller, m: Metrics, check: real, now: real, later: real)
    requires m.drawdown > 0.15 && (c.state.mode in c.state.entry ==> c.state.entry[c.state.mode] <= now)
    ensures MayTrade(Apply(c, Call.Evaluate(m, check, now, later)).state.mode)
      <==> c.state.mode == Normal && c.Pruned(check).override.Some?
  {
    assert Index(Propose(c.state.mode, m)) >= Index(Protected);
  }

  /** In every run of a fresh controller the gates close in order as the mode gets more severe: trading
      from DEGRADED on, writing from PROTECTED on, processing in EMERGENCY_STOP only. */
  lemma GatesCloseInOrder(calls: seq<Call>, start: real, end: real)
    requires Monotone(start, calls, end)
    ensures var mode := Run(FRESH_CONTROLLER, calls).state.mode;
      && (MayTrade(mode) <==> Index(mode) < Index(Degraded))
      && (MayWrite(mode) <==> Index(mode) < Index(Protected))
      && (MayProcess(mode) <==> Index(mode) < Index(EmergencyStop))
  {
    RunKeepsReachable(FRESH_CONTROLLER, calls, start, end);
  }

  /** The gates by severity, for all modes: trading closes from SHADOW on, writing from PROTECTED on, processing
      from READ_ONLY on. */
  lemma GatesByOrder(mode: SystemMode)
    ensures MayTrade(mode) <==> Index(mode) < Index(Shadow)
    ensures MayWrite(mode) <==> Index(mode) < Index(Protected)
    ensures MayProcess(mode) <==> Index(mode) < Index(ReadOnly)
  {
  }

  // ----- where an evaluation leads

  /** The seconds a mode lasts before an evaluation may raise or lower it. */
  function Seconds(from: SystemMode, raises: bool): real {
    if from == Normal then (if raises then 0.0 else 120.0)
    else if from == Shadow then (if raises then 0.0 else 60.0)
    else if from == Degraded then 60.0
    else if from == Protected then (if raises then 120.0 else 60.0)
    else if from == ReadOnly then (if raises then 300.0 else 30.0)
    else 10.0
  }

  /** An evaluation without an override in force, from every mode and entry time: it changes the mode exactly
      when another one is proposed and that is EMERGENCY_STOP, or the mode has no entry time, or has lasted.
      It then goes to the proposal itself, unless that is milder than DEGRADED and the mode is a PROTECTED that
      was entered: that goes to DEGRADED. Only the entry time of the new mode is set. */
  lemma EvaluationLeadsTo(c: Controller, m: Metrics, check: real, now: real, later: real)
    requires !InForce(c.override, check)
    ensures var s, s' := c.state, Apply(c, Call.Evaluate(m, check, now, later)).state;
      var from, to, p := s.mode, s'.mode, Propose(s.mode, m);
      && (to != from <==>
            && p != from
            && (p == EmergencyStop || from !in s.entry || now - s.entry[from] >= Seconds(from, Index(p) > Index(from))))
      && (to != from ==>
            to == if from == Protected && from in s.entry && Index(p) < Index(Degraded) then Degraded else p)
      && s'.entry == if to != from then s.entry[to := later] else s.entry
  {
    ProposeRange(c.state.mode, m);
  }

  /** No evaluation lowers the mode below what is proposed, or raises it above. */
  lemma NeverBeyondProposal(c: Controller, m: Metrics, check: real, now: real, later: real)
    ensures var from, to := c.state.mode, Apply(c, Call.Evaluate(m, check, now, later)).state.mode;
      && (Index(to) < Index(from) ==> Index(Propose(from, m)) <= Index(to))
      && (Index(to) > Index(from) ==> to == Propose(from, m))
  {
    ProposeRange(c.state.mode, m);
    if !InForce(c.override, check) {
      EvaluationLeadsTo(c, m, check, now, later);
    }
  }

  // ----- overrides

  /** Calls made while an override lives: nobody sets or clears one, and no reading is past its lifetime. */
  ghost predicate Under(o: Override, calls: seq<Call>) {
    forall i :: 0 <= i < |calls| ==>
      match calls[i]
      case Evaluate(_, check, _, _) => o.Live(check)
      case GetMode(at) => o.Live(at)
      case _ => false
  }

  /** A live override freezes the controller underneath it. */
  lemma {:induction false} OverrideFreezes(c: Controller, calls: seq<Call>)
    requires c.override.Some? && Under(c.override.value, calls)
    ensures Run(c, calls) == c && Transitions(c, calls) == 0
    decreases |calls|
  {
    if calls != [] {
      assert Apply(c, calls[0]) == c;
      forall i | 0 <= i < |calls[1..]| ensures calls[1..][i] == calls[i + 1] {
      }
      OverrideFreezes(c, calls[1..]);
    }
  }

  ghost predicate NoOverrideCalls(calls: seq<Call>) {
    forall i :: 0 <= i < |calls| ==> !calls[i].SetOverride? && !calls[i].ClearOverride?
  }

  /** The override set at t is there, or its lifetime has passed by last. */
  ghost predicate KeptOrExpired(c: Controller, target: SystemMode, ttl: int, t: real, last: real) {
    t <= last && (c.override == Some(Override(target, t, ttl))
      || (c.override.None? && ttl != 0 && last - t >= ttl as real))
  }

  lemma {:induction false} OverrideIsKeptOrExpired(c: Controller, calls: seq<Call>, target: SystemMode, ttl: int,
                                                   t: real, last: real, end: real)
    requires KeptOrExpired(c, target, ttl, t, last) && Monotone(last, calls, end) && NoOverrideCalls(calls)
    ensures KeptOrExpired(Run(c, calls), target, ttl, t, end)
    decreases |calls|
  {
    if calls != [] {
      var rest := calls[1..];
      assert forall i :: 0 <= i < |rest| ==> rest[i] == calls[i + 1];
      OverrideIsKeptOrExpired(Apply(c, calls[0]), rest, target, ttl, t, Clock(last, calls[0]), end);
    }
  }

  /** Over every run: an override set at t answers every later read, until another call sets or clears one, as
      long as it has no lifetime or this has not passed. From then on the controller's own mode answers. */
  lemma OverrideAnswersUntilExpired(c: Controller, target: SystemMode, ttl: int, t: real, calls: seq<Call>,
                                    end: real, u: real)
    requires Monotone(t, calls, end) && NoOverrideCalls(calls) && end <= u
    ensures var before := Run(Apply(c, SetOverride(target, ttl, t)), calls);
      var after := Apply(before, Call.GetMode(u));
      && after.state == before.state
      && Answer(after) == if ttl == 0 || u - t < ttl as real then target else before.state.mode
  {
    OverrideIsKeptOrExpired(Apply(c, SetOverride(target, ttl, t)), calls, target, ttl, t, t, end);
  }

  /** And an evaluation acts on its metrics exactly from then on: before, it changes nothing and answers with
      the override's mode. */
  lemma EvaluationActsOnceExpired(c: Controller, target: SystemMode, ttl: int, t: real, calls: seq<Call>,
                                  end: real, m: Metrics, check: real, now: real, later: real)
    requires Monotone(t, calls, end) && NoOverrideCalls(calls) && end <= check
    ensures var before := Run(Apply(c, SetOverride(target, ttl, t)), calls);
      var after := Apply(before, Call.Evaluate(m, check, now, later));
      if ttl == 0 || check - t < ttl as real then after == before && Answer(after) == target
      else after == Apply(Controller(before.state, None), Call.Evaluate(m, check, now, later))
  {
    OverrideIsKeptOrExpired(Apply(c, SetOverride(target, ttl, t)), calls, target, ttl, t, t, end);
  }

  // ----- flapping

  /** Transitions that can follow without any wait. */
  function Slack(m: SystemMode): nat {
    match m
    case Normal => 2
    case EmergencyStop => 0
    case _ => 1
  }

  lemma {:induction false} FlapsWithin(c: Controller, calls: seq<Call>, since: real, last: real, end: real, waits: nat)
    requires Reachable(c.state, last) && Monotone(last, calls, end)
    requires since <= last && (c.state.mode in c.state.entry ==> since <= c.state.entry[c.state.mode])
    requires end - since < 10.0 * (waits + 1) as real
    ensures Transitions(c, calls) <= Slack(c.state.mode) + 3 * waits
    decreases |calls|
  {
    if calls != [] {
      var c', clock := Apply(c, calls[0]), Clock(last, calls[0]);
      CallKeepsReachable(c, calls[0], last);
      assert clock <= end by { assert Monotone(clock, calls[1..], end); }
      if c'.state.mode == c.state.mode {
        FlapsWithin(c', calls[1..], since, clock, end, waits);
      } else if Slack(c'.state.mode) < Slack(c.state.mode) {
        FlapsWithin(c', calls[1..], clock, clock, end, waits);
      } else {
        assert clock - since >= 10.0;
        assert waits >= 1;
        FlapsWithin(c', calls[1..], clock, clock, end, waits - 1);
      }
    }
  }

  /** In T seconds a fresh controller changes its mode at most 3 * floor(T / 10) + 2 times. */
  lemma FlappingBound(calls: seq<Call>, start: real, end: real)
    requires Monotone(start, calls, end)
    ensures Transitions(FRESH_CONTROLLER, calls) <= 3 * ((end - start) / 10.0).Floor + 2
  {
    var waits := ((end - start) / 10.0).Floor;
    FlapsWithin(FRESH_CONTROLLER, calls, start, start, end, waits);
  }

  ghost predicate Calm(calls: seq<Call>) {
    forall i :: 0 <= i < |calls| && calls[i].Evaluate? ==>
      !calls[i].metrics.emergencyStop && !calls[i].metrics.killSwitch
  }

  lemma {:induction false} FlapsCalmly(c: Controller, calls: seq<Call>, since: real, last: real, end: real, waits: nat)
    requires Reachable(c.state, last) && Monotone(last, calls, end) && Calm(calls) && c.state.mode != EmergencyStop
    requires since <= last && (c.state.mode in c.state.entry ==> since <= c.state.entry[c.state.mode])
    requires end - since < 60.0 * (waits + 1) as real
    ensures Transitions(c, calls) <= (if c.state.mode == Normal then 1 else 0) + 2 * waits
    decreases |calls|
  {
    if calls != [] {
      var c', clock := Apply(c, calls[0]), Clock(last, calls[0]);
      CallKeepsReachable(c, calls[0], last);
      assert clock <= end by { assert Monotone(clock, calls[1..], end); }
      assert c'.state.mode != EmergencyStop by {
        if calls[0].Evaluate? { ProposeRange(c.state.mode, calls[0].metrics); }
      }
      assert Calm(calls[1..]);
      if c'.state.mode == c.state.mode {
        FlapsCalmly(c', calls[1..], since, clock, end, waits);
      } else if c.state.mode == Normal {
        FlapsCalmly(c', calls[1..], clock, clock, end, waits);
      } else {
        assert clock - since >= 60.0;
        assert waits >= 1;
        FlapsCalmly(c', calls[1..], clock, clock, end, waits - 1);
      }
    }
  }

  /** Without an emergency or a kill switch: at most 2 * floor(T / 60) + 1 times. */
  lemma CalmFlappingBound(calls: seq<Call>, start: real, end: real)
    requires Monotone(start, calls, end) && Calm(calls)
    ensures Transitions(FRESH_CONTROLLER, calls) <= 2 * ((end - start) / 60.0).Floor + 1
  {
    var waits := ((end - start) / 60.0).Floor;
    FlapsCalmly(FRESH_CONTROLLER, calls, start, start, end, waits);
  }

  // ----- both bounds are attained

  const HEALTHY := Metrics(false, false, false, 0.0, 0.0, 0.0, 0.0, 0.0, 0.0)
  const EMERGENCY := HEALTHY.(emergencyStop := true)
  const PRESSED := HEALTHY.(circuitBreakerOpen := true)
  const WARNED := HEALTHY.(redisMaxPending := 501.0)

  function At(m: Metrics, t: real): Call {
    Call.Evaluate(m, t, t, t)
  }

  /** From EMERGENCY_STOP entered at t: three transitions every ten seconds. */
  function Storm(t: real, rounds: nat): seq<Call>
    decreases rounds
  {
    if rounds == 0 then []
    else [At(HEALTHY, t + 10.0), At(PRESSED, t + 10.0), At(EMERGENCY, t + 10.0)] + Storm(t + 10.0, rounds - 1)
  }

  lemma {:induction false} StormFlaps(c: Controller, t: real, rounds: nat)
    requires c.override.None? && c.state.mode == EmergencyStop && c.state.EntryTime() == Some(t)
    ensures Monotone(t, Storm(t, rounds), t + 10.0 * rounds as real)
    ensures Transitions(c, Storm(t, rounds)) == 3 * rounds
    decreases rounds
  {
    if rounds > 0 {
      var u, calls, rest := t + 10.0, Storm(t, rounds), Storm(t + 10.0, rounds - 1);
      var c1 := Apply(c, calls[0]);
      assert c1.state.mode == Normal;
      var c2 := Apply(c1, calls[1]);
      assert c2.state.mode == Protected;
      var c3 := Apply(c2, calls[2]);
      StormFlaps(c3, u, rounds - 1);
      var end := u + 10.0 * (rounds - 1) as real;
      assert end == t + 10.0 * rounds as real;
      assert calls[1..] == [calls[1], calls[2]] + rest;
      assert calls[1..][1..] == [calls[2]] + rest;
      assert calls[1..][1..][1..] == rest;
      assert Transitions(c2, calls[1..][1..]) == 1 + Transitions(c3, rest);
      assert Transitions(c1, calls[1..]) == 1 + Transitions(c2, calls[1..][1..]);
      assert Monotone(u, calls[1..][1..], end);
      assert Monotone(u, calls[1..], end);
    }
  }

  function WorstRun(start: real, rounds: nat): seq<Call> {
    [At(PRESSED, start), At(EMERGENCY, start)] + Storm(start, rounds)
  }

  lemma FlappingBoundIsAttained(start: real, rounds: nat)
    ensures Monotone(start, WorstRun(start, rounds), start + 10.0 * rounds as real)
    ensures Transitions(FRESH_CONTROLLER, WorstRun(start, rounds)) == 3 * rounds + 2
  {
    WorstRunFromNormal(FRESH_CONTROLLER, start, rounds);
  }

  lemma WorstRunFromNormal(c: Controller, start: real, rounds: nat)
    requires c.state.mode == Normal && c.override.None? && (Normal in c.state.entry ==> c.state.entry[Normal] <= start)
    ensures Monotone(start, WorstRun(start, rounds), start + 10.0 * rounds as real)
    ensures Transitions(c, WorstRun(start, rounds)) == 3 * rounds + 2
  {
    var rest, calls := Storm(start, rounds), WorstRun(start, rounds);
    var c1 := Apply(c, calls[0]);
    assert c1.state.mode == Protected;
    var c2 := Apply(c1, calls[1]);
    StormFlaps(c2, start, rounds);
    assert calls[1..] == [calls[1]] + rest;
    assert calls[1..][1..] == rest;
    assert Monotone(start, calls[1..], start + 10.0 * rounds as real);
  }

  /** From DEGRADED entered at t: down and up again every sixty seconds. */
  function Swing(t: real, rounds: nat): seq<Call>
    decreases rounds
  {
    if rounds == 0 then []
    else [At(HEALTHY, t + 60.0), At(WARNED, t + 60.0)] + Swing(t + 60.0, rounds - 1)
  }

  lemma {:induction false} SwingFlaps(c: Controller, t: real, rounds: nat)
    requires c.override.None? && c.state.mode == Degraded && c.state.EntryTime() == Some(t)
    ensures Monotone(t, Swing(t, rounds), t + 60.0 * rounds as real) && Calm(Swing(t, rounds))
    ensures Transitions(c, Swing(t, rounds)) == 2 * rounds
    decreases rounds
  {
    if rounds > 0 {
      var u, calls, rest := t + 60.0, Swing(t, rounds), Swing(t + 60.0, rounds - 1);
      var c1 := Apply(c, calls[0]);
      assert c1.state.mode == Normal;
      var c2 := Apply(c1, calls[1]);
      SwingFlaps(c2, u, rounds - 1);
      var end := u + 60.0 * (rounds - 1) as real;
      assert end == t + 60.0 * rounds as real;
      assert calls[1..] == [calls[1]] + rest;
      assert calls[1..][1..] == rest;
      assert Monotone(u, calls[1..], end);
    }
  }

  function WorstCalmRun(start: real, rounds: nat): seq<Call> {
    [At(WARNED, start)] + Swing(start, rounds)
  }

  lemma CalmFlappingBoundIsAttained(start: real, rounds: nat)
    ensures Monotone(start, WorstCalmRun(start, rounds), start + 60.0 * rounds as real)
    ensures Calm(WorstCalmRun(start, rounds))
    ensures Transitions(FRESH_CONTROLLER, WorstCalmRun(start, rounds)) == 2 * rounds + 1
  {
    var rest, calls := Swing(start, rounds), WorstCalmRun(start, rounds);
    var c1 := Apply(FRESH_CONTROLLER, calls[0]);
    assert c1.state.mode == Degraded;
    SwingFlaps(c1, start, rounds);
    assert calls[1..] == rest;
  }
}
