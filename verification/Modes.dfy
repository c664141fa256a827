/** System modes, their thresholds and the mode proposed for a metric vector
    (mode_context.py and the pure part of system_mode.py). */
module Modes {
  import opened Options

  datatype SystemMode = Normal | Shadow | Degraded | Protected | ReadOnly | EmergencyStop

  /** Position in _MODE_ORDER: how severe a mode is. */
  function Index(m: SystemMode): nat {
    match m
    case Normal => 0
    case Shadow => 1
    case Degraded => 2
    case Protected => 3
    case ReadOnly => 4
    case EmergencyStop => 5
  }

  /** The thresholds of a mode; the fields no decision reads are left out. */
  datatype ModeContext = ModeContext(
    dbPoolWarning: real, dbPoolCritical: real, redisMemoryCritical: real,
    streamWarningRatio: real, streamCriticalRatio: real, sensitivity: real)

  function Context(m: SystemMode): ModeContext {
    match m
    case Normal => ModeContext(0.70, 0.85, 0.85, 0.70, 0.90, 1.0)
    case Shadow => ModeContext(0.70, 0.85, 0.85, 0.70, 0.90, 1.0)
    case Degraded => ModeContext(0.80, 0.90, 0.90, 0.80, 0.95, 0.6)
    case Protected => ModeContext(0.85, 0.95, 0.95, 0.90, 0.98, 0.3)
    case ReadOnly => ModeContext(1.0, 1.0, 1.0, 1.0, 1.0, 0.0)
    case EmergencyStop => ModeContext(1.0, 1.0, 1.0, 1.0, 1.0, 0.0)
  }

  /** Seconds a mode must be held before an escalation out of it. */
  function HoldTime(m: SystemMode): real {
    match m
    case Normal => 0.0
    case Shadow => 0.0
    case Degraded => 60.0
    case Protected => 120.0
    case ReadOnly => 300.0
    case EmergencyStop => 10.0
  }

  /** Seconds a mode must be held before a de-escalation out of it; SHADOW is not in the table
      and takes the default. */
  function MinimumDuration(m: SystemMode): real {
    match m
    case Normal => 120.0
    case Shadow => 60.0
    case Degraded => 60.0
    case Protected => 60.0
    case ReadOnly => 30.0
    case EmergencyStop => 10.0
  }

  /** A health-metric vector; a missing key is its default, 0 or false. */
  datatype Metrics = Metrics(
    emergencyStop: bool, killSwitch: bool, circuitBreakerOpen: bool,
    dbPoolUtilizationPct: real, redisMemoryPct: real, drawdown: real,
    streamPressureRatio: real, redisMaxPending: real, reconnectStorm: real)

  /** The decision chain: which mode the metrics ask for, seen with the current mode's thresholds. */
  function Propose(mode: SystemMode, m: Metrics): SystemMode {
    var ctx := Context(mode);
    if m.emergencyStop || m.killSwitch then EmergencyStop
    else if m.circuitBreakerOpen then Protected
    else if m.dbPoolUtilizationPct >= ctx.dbPoolCritical * 100.0 then Protected
    else if m.redisMemoryPct >= ctx.redisMemoryCritical * 100.0 then Protected
    else if m.drawdown > 0.15 then Protected
    else if m.streamPressureRatio >= ctx.streamCriticalRatio then Protected
    else if m.dbPoolUtilizationPct >= ctx.dbPoolWarning * 100.0 then Degraded
    else if m.redisMaxPending > 500.0 then Degraded
    else if m.reconnectStorm > 5.0 then Degraded
    else if m.streamPressureRatio >= ctx.streamWarningRatio then Degraded
    else Normal
  }

  datatype MetricKey = EmergencyStopKey | KillSwitchKey | CircuitBreakerOpenKey | DbPoolKey
                     | RedisMemoryKey | DrawdownKey | StreamPressureKey | RedisPendingKey | ReconnectKey

  datatype MetricClass = Structural | Behavioral

  function ClassifyMetric(key: MetricKey): MetricClass {
    match key
    case StreamPressureKey | RedisPendingKey | ReconnectKey => Behavioral
    case _ => Structural
  }

  function AdjustMetric(key: MetricKey, raw: real, sensitivity: real): real {
    if ClassifyMetric(key) == Behavioral then raw * sensitivity else raw
  }

  /** What the live evaluator feeds to the controller: the raw metrics, damped by a sensitivity. */
  function Adjust(m: Metrics, sensitivity: real): Metrics {
    m.(dbPoolUtilizationPct := AdjustMetric(DbPoolKey, m.dbPoolUtilizationPct, sensitivity),
       redisMemoryPct := AdjustMetric(RedisMemoryKey, m.redisMemoryPct, sensitivity),
       drawdown := AdjustMetric(DrawdownKey, m.drawdown, sensitivity),
       streamPressureRatio := AdjustMetric(StreamPressureKey, m.streamPressureRatio, sensitivity),
       redisMaxPending := AdjustMetric(RedisPendingKey, m.redisMaxPending, sensitivity),
       reconnectStorm := AdjustMetric(ReconnectKey, m.reconnectStorm, sensitivity))
  }

  /** The one-step-down map: where a de-escalation towards target really goes. */
  function StepDown(current: SystemMode, target: SystemMode): SystemMode {
    match current
    case Protected => Degraded
    case Degraded => Normal
    case _ => target
  }

  /** _apply_hysteresis: the mode to be in after an evaluation. */
  function Hysteresis(current: SystemMode, entry: Option<real>, target: SystemMode, now: real): SystemMode {
    if target == current then target
    else if Index(target) > Index(current) then
      if target == EmergencyStop then target
      else if entry.Some? && now - entry.value < HoldTime(current) then current
      else target
    else if entry.None? then target
    else if now - entry.value < MinimumDuration(current) then current
    else StepDown(current, target)
  }

  /** The controller's decision state: the mode, and when each mode was last entered. */
  datatype ModeState = ModeState(mode: SystemMode, entry: map<SystemMode, real>) {
    function EntryTime(): Option<real> {
      if mode in entry then Some(entry[mode]) else None
    }
  }

  const FRESH := ModeState(Normal, map[])

  /** One evaluation without an override: proposed was computed from the metrics, now is the clock
      read on entry, later the clock read when a transition is recorded. */
  function Evaluated(s: ModeState, proposed: SystemMode, now: real, later: real): ModeState {
    var target := Hysteresis(s.mode, s.EntryTime(), proposed, now);
    if target == s.mode then s else ModeState(target, s.entry[target := later])
  }

  /** The modes by severity. */
  lemma SeverityOrder()
    ensures Index(Normal) < Index(Shadow) < Index(Degraded) < Index(Protected) < Index(ReadOnly) < Index(EmergencyStop)
  {
  }

  // ----- what the thresholds guarantee

  /** A table of proposals, one per current mode. */
  type Table = SystemMode -> SystemMode

  function RawTable(m: Metrics): Table {
    mode => Propose(mode, m)
  }

  /** The table of the live loop, which damps the behavioural metrics by the current mode's sensitivity. */
  function LiveTable(m: Metrics): Table {
    mode => Propose(mode, Adjust(m, Context(mode).sensitivity))
  }

  predicate Proposable(m: SystemMode) {
    m == Normal || m == Degraded || m == Protected || m == EmergencyStop
  }

  /** Only four modes are ever proposed, a more severe mode never proposes a more severe one, and
      EMERGENCY_STOP is proposed by every mode or by none. */
  ghost predicate IsProposalTable(p: Table) {
    && (forall a :: Proposable(p(a)))
    && (forall a, b :: Index(a) <= Index(b) ==> Index(p(b)) <= Index(p(a)))
    && (forall a, b :: p(a) == EmergencyStop ==> p(b) == EmergencyStop)
  }

  lemma ProposeAntitone(a: SystemMode, b: SystemMode, m: Metrics)
    requires Index(a) <= Index(b)
    ensures Index(Propose(b, m)) <= Index(Propose(a, m))
    ensures Index(Propose(b, Adjust(m, Context(b).sensitivity))) <= Index(Propose(a, Adjust(m, Context(a).sensitivity)))
  {
    DampingIsMonotone(m.streamPressureRatio, Context(a).sensitivity, Context(b).sensitivity);
    DampingIsMonotone(m.redisMaxPending, Context(a).sensitivity, Context(b).sensitivity);
    DampingIsMonotone(m.reconnectStorm, Context(a).sensitivity, Context(b).sensitivity);
  }

  /** Damping harder never lifts a value over a positive limit. */
  lemma DampingIsMonotone(x: real, s: real, t: real)
    requires 0.0 <= t <= s
    ensures x * t <= x * s || (x * t <= 0.0 && x * s <= 0.0)
  {
    if x >= 0.0 {
      assert x * t <= x * s;
    } else {
      assert x * t <= 0.0 && x * s <= 0.0;
    }
  }

  lemma ProposeRange(mode: SystemMode, m: Metrics)
    ensures Proposable(Propose(mode, m))
    ensures Propose(mode, m) == EmergencyStop <==> m.emergencyStop || m.killSwitch
  {
  }

  /** What one metric alone asks for. */
  function Assess(mode: SystemMode, m: Metrics, key: MetricKey): SystemMode {
    var ctx := Context(mode);
    match key
    case EmergencyStopKey => if m.emergencyStop then EmergencyStop else Normal
    case KillSwitchKey => if m.killSwitch then EmergencyStop else Normal
    case CircuitBreakerOpenKey => if m.circuitBreakerOpen then Protected else Normal
    case DbPoolKey => Graded(m.dbPoolUtilizationPct, ctx.dbPoolWarning * 100.0, ctx.dbPoolCritical * 100.0)
    case RedisMemoryKey => if m.redisMemoryPct >= ctx.redisMemoryCritical * 100.0 then Protected else Normal
    case DrawdownKey => if m.drawdown > 0.15 then Protected else Normal
    case StreamPressureKey => Graded(m.streamPressureRatio, ctx.streamWarningRatio, ctx.streamCriticalRatio)
    case RedisPendingKey => if m.redisMaxPending > 500.0 then Degraded else Normal
    case ReconnectKey => if m.reconnectStorm > 5.0 then Degraded else Normal
  }

  function Graded(value: real, warning: real, critical: real): SystemMode {
    if value >= critical then Protected else if value >= warning then Degraded else Normal
  }

  /** The decision chain answers with the severest mode that any metric alone asks for, so the order of
      its tests hides nothing. */
  lemma ProposeIsSeverestAssessment(mode: SystemMode, m: Metrics)
    ensures forall key :: Index(Assess(mode, m, key)) <= Index(Propose(mode, m))
    ensures exists key :: Assess(mode, m, key) == Propose(mode, m)
  {
    var p := Propose(mode, m);
    assert Assess(mode, m, EmergencyStopKey) == p || Assess(mode, m, KillSwitchKey) == p
        || Assess(mode, m, CircuitBreakerOpenKey) == p || Assess(mode, m, DbPoolKey) == p
        || Assess(mode, m, RedisMemoryKey) == p || Assess(mode, m, DrawdownKey) == p
        || Assess(mode, m, StreamPressureKey) == p || Assess(mode, m, RedisPendingKey) == p
        || Assess(mode, m, ReconnectKey) == p;
  }

  /** Damping never hides a structural alarm: in every mode the live loop answers it at least as severely
      as its undamped metric alone demands. */
  lemma StructuralAlarmsGetThrough(mode: SystemMode, m: Metrics, key: MetricKey)
    requires ClassifyMetric(key) == Structural
    ensures Index(Assess(mode, m, key)) <= Index(LiveTable(m)(mode))
  {
    var damped := Adjust(m, Context(mode).sensitivity);
    ProposeIsSeverestAssessment(mode, damped);
    assert Assess(mode, m, key) == Assess(mode, damped, key);
  }

  lemma RawTableIsProposalTable(m: Metrics)
    ensures IsProposalTable(RawTable(m))
  {
    var p := RawTable(m);
    forall a ensures Proposable(p(a)) && (p(a) == EmergencyStop <==> m.emergencyStop || m.killSwitch) {
      ProposeRange(a, m);
    }
    forall a, b | Index(a) <= Index(b) ensures Index(p(b)) <= Index(p(a)) {
      ProposeAntitone(a, b, m);
    }
  }

  lemma LiveTableIsProposalTable(m: Metrics)
    ensures IsProposalTable(LiveTable(m))
  {
    var p := LiveTable(m);
    forall a ensures Proposable(p(a)) && (p(a) == EmergencyStop <==> m.emergencyStop || m.killSwitch) {
      ProposeRange(a, Adjust(m, Context(a).sensitivity));
    }
    forall a, b | Index(a) <= Index(b) ensures Index(p(b)) <= Index(p(a)) {
      ProposeAntitone(a, b, m);
    }
  }

  lemma AtMostOneStableMode(p: Table, a: SystemMode, b: SystemMode)
    requires IsProposalTable(p)
    requires p(a) == a && p(b) == b
    ensures a == b
  {
    assert Index(a) <= Index(b) ==> Index(p(b)) <= Index(p(a));
    assert Index(b) <= Index(a) ==> Index(p(a)) <= Index(p(b));
  }
}
