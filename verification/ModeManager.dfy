/** The system-mode controller as an object (system_mode.py). Every clock reading is a parameter. */
module ModeManagers {
  import opened Options
  import opened Modes

  /** A manual override; a lifetime of 0, like a missing one, never expires. */
  datatype Override = Override(mode: SystemMode, updatedAt: real, ttlSeconds: int) {
    predicate Live(at: real) {
      ttlSeconds != 0 ==> at - updatedAt < ttlSeconds as real
    }
  }

  /** The controller's whole state as a value. */
  datatype Controller = Controller(state: ModeState, override: Option<Override>) {
    /** What reading the override's validity does: an expired override is dropped. */
    function Pruned(at: real): Controller {
      if override.Some? && !override.value.Live(at) then this.(override := None) else this
    }
  }

  /** Whether an override is in force: it has no lifetime, or has not reached it. */
  predicate InForce(override: Option<Override>, at: real) {
    && override.Some?
    && (override.value.ttlSeconds == 0 || at - override.value.updatedAt < override.value.ttlSeconds as real)
  }

  /** The mode that the controller answers with. */
  function Answer(c: Controller): SystemMode {
    if c.override.Some? then c.override.value.mode else c.state.mode
  }

  const FRESH_CONTROLLER := Controller(FRESH, None)

  /** A call on the controller, with the clock readings it makes. */
  datatype Call =
    | Evaluate(metrics: Metrics, check: real, now: real, later: real)
    | SetOverride(target: SystemMode, ttlSeconds: int, at: real)
    | ClearOverride
    | GetMode(at: real)

  function Apply(c: Controller, call: Call): Controller {
    match call
    case Evaluate(m, check, now, later) =>
      var c' := c.Pruned(check);
      if c'.override.Some? then c'
      else c'.(state := Evaluated(c'.state, Propose(c'.state.mode, m), now, later))
    case SetOverride(target, ttl, at) => c.(override := Some(Override(target, at, ttl)))
    case ClearOverride => c.(override := None)
    case GetMode(at) => c.Pruned(at)
  }

  /** Restores a persisted mode, if there is one; the entry times and the override stay as they are. */
  function Loaded(c: Controller, raw: Option<SystemMode>): Controller {
    if raw.Some? then c.(state := c.state.(mode := raw.value)) else c
  }

  /** The gates: what each mode lets the rest of the system do. They read the controller's own mode, whatever the
      override says. */
  predicate MayProcess(m: SystemMode) {
    m != EmergencyStop && m != ReadOnly
  }

  predicate MayWrite(m: SystemMode) {
    m != EmergencyStop && m != ReadOnly && m != Protected
  }

  predicate MayTrade(m: SystemMode) {
    m == Normal
  }

  class ModeManager {
    var override: Option<Override>
    var mode: SystemMode
    var entryTime: map<SystemMode, real>

    ghost function View(): Controller
      reads this
    {
      Controller(ModeState(mode, entryTime), override)
    }

    constructor ()
      ensures View() == FRESH_CONTROLLER
    {
      override, mode, entryTime := None, Normal, map[];
    }

    /** Drops an expired override and tells whether one is in force. */
    method IsOverrideValid(at: real) returns (valid: bool)
      modifies this
      ensures View() == old(View()).Pruned(at)
      ensures valid <==> InForce(old(override), at)
      ensures override == (if valid then old(override) else None) && mode == old(mode) && entryTime == old(entryTime)
    {
      if override.None? {
        return false;
      }
      if override.value.ttlSeconds != 0 {
        var elapsed := at - override.value.updatedAt;
        if elapsed >= override.value.ttlSeconds as real {
          override := None;
          return false;
        }
      }
      return true;
    }

    method GetMode(at: real) returns (current: SystemMode)
      modifies this
      ensures View() == Apply(old(View()), Call.GetMode(at))
      ensures current == if InForce(old(override), at) then old(override).value.mode else old(mode)
      ensures current == Answer(View())
    {
      var valid := IsOverrideValid(at);
      current := if valid then override.value.mode else mode;
    }

    method SetManualOverride(target: SystemMode, ttlSeconds: int, at: real)
      modifies this
      ensures View() == Apply(old(View()), SetOverride(target, ttlSeconds, at))
      ensures override == Some(Override(target, at, ttlSeconds)) && mode == old(mode) && entryTime == old(entryTime)
    {
      override := Some(Override(target, at, ttlSeconds));
    }

    method ClearManualOverride()
      modifies this
      ensures View() == Apply(old(View()), ClearOverride)
    {
      override := None;
    }

    /** The mode after hysteresis; reads only. */
    method ApplyHysteresis(target: SystemMode, now: real) returns (result: SystemMode)
      ensures result == Hysteresis(mode, ModeState(mode, entryTime).EntryTime(), target, now)
    {
      var current := mode;
      if target == current {
        return target;
      }
      if Index(target) > Index(current) {
        if target == EmergencyStop {
          return target;
        }
        if current in entryTime {
          var elapsed := now - entryTime[current];
          if elapsed < HoldTime(current) {
            return current;
          }
        }
        return target;
      }
      if current !in entryTime {
        return target;
      }
      var elapsed := now - entryTime[current];
      if elapsed < MinimumDuration(current) {
        return current;
      }
      var downgrade := map[Protected := Degraded, Degraded := Normal];
      if current in downgrade && target != downgrade[current] {
        return downgrade[current];
      }
      return target;
    }

    method Transition(target: SystemMode, later: real)
      modifies this
      ensures mode == target && entryTime == old(entryTime)[target := later] && override == old(override)
    {
      mode := target;
      entryTime := entryTime[target := later];
    }

    method Evaluate(metrics: Metrics, check: real, now: real, later: real) returns (current: SystemMode)
      modifies this
      ensures View() == Apply(old(View()), Call.Evaluate(metrics, check, now, later))
      ensures InForce(old(override), check) ==> current == old(override).value.mode && View() == old(View())
      ensures !InForce(old(override), check) ==> current == mode && override.None?
      ensures current == Answer(View())
    {
      var valid := IsOverrideValid(check);
      if valid {
        return override.value.mode;
      }
      var proposed := Propose(mode, metrics);
      proposed := ApplyHysteresis(proposed, now);
      if proposed != mode {
        Transition(proposed, later);
      }
      return mode;
    }

    /** Restores the persisted mode, if there is one, without an entry time. */
    method LoadFromRedis(raw: Option<SystemMode>)
      modifies this
      ensures View() == Loaded(old(View()), raw)
      ensures mode == (if raw.Some? then raw.value else old(mode))
      ensures entryTime == old(entryTime) && override == old(override)
    {
      if raw.Some? {
        mode := raw.value;
      }
    }
  }
}
