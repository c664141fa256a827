/** Runs in which modes are restored from Redis: what a mode without an entry time escapes, what one with an
    old entry time waits for, and what a restart brings back (system_mode.py). */
module ModeRestarts {
  import opened Options
  import opened Modes
  import opened ModeManagers
  import opened ModeRuns

  datatype Event = Called(call: Call) | Load(raw: Option<SystemMode>)

  function Step(c: Controller, e: Event): Controller {
    match e
    case Called(call) => Apply(c, call)
    case Load(raw) => Loaded(c, raw)
  }

  /** A fresh controller after the events. */
  function After(events: seq<Event>): Controller {
    if events == [] then FRESH_CONTROLLER else Step(After(events[..|events| - 1]), events[|events| - 1])
  }

  function ClockAfter(start: real, events: seq<Event>): real {
    if events == [] then start
    else
      var before, e := ClockAfter(start, events[..|events| - 1]), events[|events| - 1];
      match e
      case Called(call) => Clock(before, call)
      case Load(_) => before
  }

  /** The clock never runs backwards during the events. */
  ghost predicate InOrder(start: real, events: seq<Event>) {
    events != [] ==>
      var init, e := events[..|events| - 1], events[|events| - 1];
      InOrder(start, init) && (e.Called? ==> Ticks(ClockAfter(start, init), e.call))
  }

  /** The current mode was restored without an entry time and has not changed since. */
  predicate Unentered(events: seq<Event>) {
    events != [] &&
      var init, e := events[..|events| - 1], events[|events| - 1];
      match e
      case Called(_) => Unentered(init) && After(events).state.mode == After(init).state.mode
      case Load(None) => Unentered(init)
      case Load(Some(m)) => m !in After(init).state.entry
  }

  /** The event at k restores a mode that has no entry time, and after it no other one is restored and the
      mode stays. */
  ghost predicate RestoredAt(events: seq<Event>, k: nat)
    requires k < |events|
  {
    var init, e := events[..|events| - 1], events[|events| - 1];
    if k < |init| then
      RestoredAt(init, k) && (e.Load? ==> e.raw.None?) && After(events).state.mode == After(init).state.mode
    else
      e.Load? && e.raw.Some? && e.raw.value !in After(init).state.entry
  }

  ghost predicate Restored(events: seq<Event>) {
    exists k: nat :: k < |events| && RestoredAt(events, k)
  }

  lemma {:induction false} UnenteredIffRestored(events: seq<Event>)
    ensures Unentered(events) <==> Restored(events)
  {
    if events != [] {
      var init, n := events[..|events| - 1], |events| - 1;
      UnenteredIffRestored(init);
      if RestoredAt(events, n) {
        assert Unentered(events);
      } else if Unentered(events) {
        var k: nat :| k < n && RestoredAt(init, k);
        assert RestoredAt(events, k);
      } else {
        assert forall k: nat :: k < n && RestoredAt(events, k) ==> RestoredAt(init, k);
      }
    }
  }

  /** Entry times belong to modes that can be proposed and are not in the future. */
  ghost predicate PastEntries(s: ModeState, t: real) {
    forall m :: m in s.entry ==> Proposable(m) && s.entry[m] <= t
  }

  lemma FirstChange(c: Controller, call: Call, t: real)
    requires c.state.mode !in c.state.entry && PastEntries(c.state, t) && Ticks(t, call)
    ensures var c' := Apply(c, call);
      && PastEntries(c'.state, Clock(t, call))
      && (c'.state.mode == c.state.mode ==> c'.state == c.state)
      && (c'.state.mode != c.state.mode ==>
            && call.Evaluate? && c'.state.mode == Propose(c.state.mode, call.metrics)
            && Reachable(c'.state, Clock(t, call)))
  {
    if call.Evaluate? {
      ProposeRange(c.state.mode, call.metrics);
    }
  }

  lemma LaterChange(c: Controller, call: Call, t: real)
    requires Reachable(c.state, t) && PastEntries(c.state, t) && Ticks(t, call)
    ensures PastEntries(Apply(c, call).state, Clock(t, call)) && Reachable(Apply(c, call).state, Clock(t, call))
  {
    CallKeepsReachable(c, call, t);
  }

  /** In every run with restored modes: while the mode is unentered it has no entry time, and as soon as it is
      not, the state is one that a fresh controller can reach. */
  lemma {:induction false} RestartsKeepReachable(start: real, events: seq<Event>)
    requires InOrder(start, events)
    ensures var s, t := After(events).state, ClockAfter(start, events);
      && PastEntries(s, t)
      && (if Unentered(events) then s.mode !in s.entry else Reachable(s, t))
  {
    if events != [] {
      var init, e := events[..|events| - 1], events[|events| - 1];
      RestartsKeepReachable(start, init);
      if e.Called? {
        if Unentered(init) {
          FirstChange(After(init), e.call, ClockAfter(start, init));
        } else {
          LaterChange(After(init), e.call, ClockAfter(start, init));
        }
      }
    }
  }

  /** In every run with restored modes: only the first change after a restored mode without an entry time
      escapes the dwelling guard and goes all the way to the proposal; every other one has passed the guard.
      So PROTECTED goes straight to NORMAL if and only if it was restored in this way, has not changed since,
      no override is in force and NORMAL is proposed. */
  lemma SkipsStepDownIffLoaded(start: real, events: seq<Event>, next: Call)
    requires InOrder(start, events) && Ticks(ClockAfter(start, events), next)
    ensures var c := After(events); var from, to := c.state.mode, Apply(c, next).state.mode;
      && (to != from ==> next.Evaluate?)
      && (to != from && Unentered(events) ==> to == Propose(from, next.metrics))
      && (to != from && !Unentered(events) ==> Dwelt(from, c.state.EntryTime(), to, next.now))
      && (from == Protected && to == Normal <==>
            && Unentered(events) && from == Protected
            && next.Evaluate? && c.Pruned(next.check).override.None? && Propose(Protected, next.metrics) == Normal)
  {
    var t := ClockAfter(start, events);
    RestartsKeepReachable(start, events);
    if Unentered(events) {
      FirstChange(After(events), next, t);
    } else {
      CallKeepsReachable(After(events), next, t);
    }
  }

  /** In every run with restored modes a change goes to the proposal itself, unless PROTECTED, once entered, would
      go below DEGRADED: it goes to DEGRADED. */
  lemma ChangesFollowProposals(start: real, events: seq<Event>, next: Call)
    requires InOrder(start, events) && Ticks(ClockAfter(start, events), next)
    ensures var c := After(events); var from, to := c.state.mode, Apply(c, next).state.mode;
      to != from ==>
        && next.Evaluate?
        && var p := Propose(from, next.metrics);
           to == if from == Protected && !Unentered(events) && Index(p) < Index(Degraded) then Degraded else p
  {
    RestartsKeepReachable(start, events);
    if next.Evaluate? && !InForce(After(events).override, next.check) {
      EvaluationLeadsTo(After(events), next.metrics, next.check, next.now, next.later);
    }
  }

  /** From that first change on the run is like one of a fresh controller: every later change has respected
      the time since the last one and the step-down. */
  lemma AfterTheFirstChange(start: real, events: seq<Event>, calls: seq<Call>, next: Call, end: real)
    requires InOrder(start, events) && !Unentered(events)
    requires Monotone(ClockAfter(start, events), calls, end) && Ticks(end, next)
    ensures var c := After(events); var c' := Run(c, calls);
      && c'.state.mode != Shadow && c'.state.mode != ReadOnly
      && (Apply(c', next).state.mode != c'.state.mode ==>
            && next.Evaluate?
            && Dwelt(c'.state.mode, LastChange(c, calls, c.state.EntryTime()), Apply(c', next).state.mode, next.now))
  {
    RestartsKeepReachable(start, events);
    DwellAndStepDownFrom(After(events), calls, next, ClockAfter(start, events), end);
  }

  /** A restored mode that already has an entry time keeps it: the wait counts from that entry, not from the
      load, and the step-down holds. */
  lemma StaleEntryCounts(start: real, events: seq<Event>, m: SystemMode, next: Call)
    requires InOrder(start, events) && Ticks(ClockAfter(start, events), next)
    requires m in After(events).state.entry
    ensures var entered, c := After(events).state.entry[m], After(events + [Load(Some(m))]);
      var to := Apply(c, next).state.mode;
      && c.state.mode == m
      && (to != m ==> next.Evaluate? && Dwelt(m, Some(entered), to, next.now))
  {
    var all := events + [Load(Some(m))];
    assert all[..|events|] == events;
    SkipsStepDownIffLoaded(start, all, next);
  }

  // ----- flapping after a restart

  lemma {:induction false} FlapsWithinUnentered(c: Controller, calls: seq<Call>, start: real, end: real, waits: nat)
    requires c.state.mode !in c.state.entry && PastEntries(c.state, start) && Monotone(start, calls, end)
    requires end - start < 10.0 * (waits + 1) as real
    ensures Transitions(c, calls) <= 3 * waits + 3
    decreases |calls|
  {
    if calls != [] {
      var c', clock := Apply(c, calls[0]), Clock(start, calls[0]);
      FirstChange(c, calls[0], start);
      assert start <= clock;
      if c'.state.mode == c.state.mode {
        FlapsWithinUnentered(c', calls[1..], clock, end, waits);
      } else {
        FlapsWithin(c', calls[1..], clock, clock, end, waits);
      }
    }
  }

  /** From every mode without an entry time, as after a restart, T seconds hold at most one transition more than
      from a fresh controller: 3 * floor(T / 10) + 3. */
  lemma FlappingBoundUnentered(c: Controller, calls: seq<Call>, start: real, end: real)
    requires c.state.mode !in c.state.entry && PastEntries(c.state, start) && Monotone(start, calls, end)
    ensures Transitions(c, calls) <= 3 * ((end - start) / 10.0).Floor + 3
  {
    FlapsWithinUnentered(c, calls, start, end, ((end - start) / 10.0).Floor);
  }

  /** That one more is made: PROTECTED restored, then down to NORMAL at once, then the worst run. */
  lemma FlappingBoundUnenteredIsAttained(start: real, rounds: nat)
    ensures var c, calls := Loaded(FRESH_CONTROLLER, Some(Protected)), [At(HEALTHY, start)] + WorstRun(start, rounds);
      && Monotone(start, calls, start + 10.0 * rounds as real)
      && Transitions(c, calls) == 3 * rounds + 3
  {
    var c, worst := Loaded(FRESH_CONTROLLER, Some(Protected)), WorstRun(start, rounds);
    var calls := [At(HEALTHY, start)] + worst;
    var c' := Apply(c, calls[0]);
    assert c'.state.mode == Normal;
    assert calls[1..] == worst;
    WorstRunFromNormal(c', start, rounds);
  }

  // ----- what a restart brings back

  /** The mode last written to Redis: by a transition, or by setting an override. */
  function Stored(c: Controller, calls: seq<Call>, before: Option<SystemMode>): Option<SystemMode>
    decreases |calls|
  {
    if calls == [] then before
    else
      var c' := Apply(c, calls[0]);
      Stored(c', calls[1..],
        if calls[0].SetOverride? then Some(calls[0].target)
        else if c'.state.mode != c.state.mode then Some(c'.state.mode)
        else before)
  }

  /** Without overrides a restart brings back the controller's own mode. */
  lemma {:induction false} RestartRestoresMode(c: Controller, calls: seq<Call>, before: Option<SystemMode>)
    requires forall i :: 0 <= i < |calls| ==> !calls[i].SetOverride?
    requires Loaded(FRESH_CONTROLLER, before).state.mode == c.state.mode
    ensures Loaded(FRESH_CONTROLLER, Stored(c, calls, before)).state.mode == Run(c, calls).state.mode
    decreases |calls|
  {
    if calls != [] {
      var c' := Apply(c, calls[0]);
      assert forall i :: 0 <= i < |calls[1..]| ==> calls[1..][i] == calls[i + 1];
      RestartRestoresMode(c', calls[1..], if c'.state.mode != c.state.mode then Some(c'.state.mode) else before);
    }
  }

  /** An override leaves the controller's own mode alone, but after a restart its mode is the own mode. */
  lemma {:induction false} OverrideBecomesOwnMode(c: Controller, calls: seq<Call>, before: Option<SystemMode>,
                                                  target: SystemMode, ttl: int, at: real)
    ensures var all := calls + [SetOverride(target, ttl, at)];
      && Run(c, all).state == Run(c, calls).state
      && Loaded(FRESH_CONTROLLER, Stored(c, all, before)).state.mode == target
    decreases |calls|
  {
    var all := calls + [SetOverride(target, ttl, at)];
    if calls == [] {
      assert all == [SetOverride(target, ttl, at)];
      assert all[1..] == [];
    } else {
      var c' := Apply(c, calls[0]);
      assert all[1..] == calls[1..] + [SetOverride(target, ttl, at)];
      OverrideBecomesOwnMode(c', calls[1..],
        if calls[0].SetOverride? then Some(calls[0].target)
        else if c'.state.mode != c.state.mode then Some(c'.state.mode)
        else before, target, ttl, at);
    }
  }
}
