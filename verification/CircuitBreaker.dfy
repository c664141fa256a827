/** The circuit breaker in front of persistence (circuit_breaker.py). */
module CircuitBreakers {
  import opened Options
  import opened Windows

  datatype CircuitState = Closed | Open | HalfOpen

  datatype Config = Config(failureThreshold: int, windowSeconds: real, recoverySeconds: real)

  /** The breaker's fields. A last open time of 0 counts as missing, as in the source. */
  datatype Breaker = Breaker(state: CircuitState, failures: seq<real>, lastOpenTime: Option<real>, totalOpens: nat)

  const FRESH_BREAKER := Breaker(Closed, [], None, 0)

  datatype Event = Failure(now: real) | Success | Read(now: real) | Reset

  predicate Recovered(cfg: Config, b: Breaker, now: real) {
    b.lastOpenTime.Some? && b.lastOpenTime.value != 0.0 && now - b.lastOpenTime.value >= cfg.recoverySeconds
  }

  function Apply(cfg: Config, b: Breaker, e: Event): Breaker {
    match e
    case Read(now) =>
      if b.state == Open && Recovered(cfg, b, now) then b.(state := HalfOpen) else b
    case Failure(now) =>
      var failures := Young(b.failures, now, cfg.windowSeconds) + [now];
      if |failures| >= cfg.failureThreshold && b.state != Open
      then Breaker(Open, failures, Some(now), b.totalOpens + 1)
      else b.(failures := failures)
    case Success => if b.state == HalfOpen then b.(state := Closed, failures := []) else b
    case Reset => b.(state := Closed, failures := [])
  }

  class CircuitBreaker {
    const cfg: Config
    var rawState: CircuitState
    var failures: seq<real>
    var lastOpenTime: Option<real>
    var totalOpens: nat

    ghost function View(): Breaker
      reads this
    {
      Breaker(rawState, failures, lastOpenTime, totalOpens)
    }

    constructor (cfg: Config)
      ensures View() == FRESH_BREAKER && this.cfg == cfg
    {
      this.cfg := cfg;
      rawState, failures, lastOpenTime, totalOpens := Closed, [], None, 0;
    }

    method State(now: real) returns (state: CircuitState)
      modifies this
      ensures View() == Apply(cfg, old(View()), Read(now)) && state == rawState
      ensures state ==
        if old(rawState) == Open && lastOpenTime.Some? && lastOpenTime.value != 0.0
           && now - lastOpenTime.value >= cfg.recoverySeconds
        then HalfOpen else old(rawState)
      ensures failures == old(failures) && lastOpenTime == old(lastOpenTime) && totalOpens == old(totalOpens)
    {
      if rawState == Open && lastOpenTime.Some? && lastOpenTime.value != 0.0 {
        if now - lastOpenTime.value >= cfg.recoverySeconds {
          rawState := HalfOpen;
        }
      }
      return rawState;
    }

    method RecordFailure(now: real)
      modifies this
      ensures View() == Apply(cfg, old(View()), Failure(now))
    {
      failures := Young(failures, now, cfg.windowSeconds);
      failures := failures + [now];
      if |failures| >= cfg.failureThreshold {
        if rawState != Open {
          rawState := Open;
          lastOpenTime := Some(now);
          totalOpens := totalOpens + 1;
        }
      }
    }

    method RecordSuccess()
      modifies this
      ensures View() == Apply(cfg, old(View()), Success)
    {
      if rawState == HalfOpen {
        rawState := Closed;
        failures := [];
      }
    }

    method ResetBreaker()
      modifies this
      ensures View() == Apply(cfg, old(View()), Reset)
    {
      rawState := Closed;
      failures := [];
    }
  }

  // ----- whole runs

  function Run(cfg: Config, events: seq<Event>): Breaker {
    if events == [] then FRESH_BREAKER else Apply(cfg, Run(cfg, events[..|events| - 1]), events[|events| - 1])
  }

  /** The full history: the times of all failures since the last clear. */
  function History(cfg: Config, events: seq<Event>): seq<real> {
    if events == [] then []
    else
      var init, e := events[..|events| - 1], events[|events| - 1];
      match e
      case Failure(now) => History(cfg, init) + [now]
      case Success => if Run(cfg, init).state == HalfOpen then [] else History(cfg, init)
      case Read(_) => History(cfg, init)
      case Reset => []
  }

  /** The latest clock reading, or start. */
  function Clock(start: real, events: seq<Event>): real {
    if events == [] then start
    else match events[|events| - 1]
      case Failure(now) => now
      case Read(now) => now
      case _ => Clock(start, events[..|events| - 1])
  }

  ghost predicate Monotone(start: real, events: seq<Event>) {
    events != [] ==>
      && Monotone(start, events[..|events| - 1])
      && Clock(start, events[..|events| - 1]) <= Clock(start, events)
  }

  /** At any time, the kept list is what the window of the last failure leaves of the full history,
      and the last failure itself, however short the window. */
  ghost predicate Refines(kept: seq<real>, history: seq<real>, window: real) {
    if history == [] then kept == []
    else
      var n := |history| - 1;
      kept == Young(history[..n], history[n], window) + [history[n]]
  }

  lemma PruneKeepsRefinement(kept: seq<real>, history: seq<real>, now: real, window: real)
    requires Refines(kept, history, window) && (history != [] ==> history[|history| - 1] <= now)
    ensures Refines(Young(kept, now, window) + [now], history + [now], window)
  {
    assert (history + [now])[..|history|] == history;
    if history != [] {
      var n := |history| - 1;
      var last, young := history[n], Young(history[..n], history[n], window);
      YoungOneMore(young, last, now, window);
      PruneTwice(history[..n], last, now, window);
    }
  }

  lemma {:induction false} BreakerRefinesHistory(cfg: Config, start: real, events: seq<Event>)
    requires Monotone(start, events)
    ensures var h := History(cfg, events);
      && Refines(Run(cfg, events).failures, h, cfg.windowSeconds)
      && (h != [] ==> h[|h| - 1] <= Clock(start, events))
  {
    if events != [] {
      var init, e := events[..|events| - 1], events[|events| - 1];
      BreakerRefinesHistory(cfg, start, init);
      if e.Failure? {
        PruneKeepsRefinement(Run(cfg, init).failures, History(cfg, init), e.now, cfg.windowSeconds);
      }
    }
  }

  /** After each failure, with a positive window, the kept list is every failure since the last clear
      that is younger than the window; the breaker opens exactly when their number reaches the threshold
      and it is not open already. */
  lemma OpensExactlyAtThreshold(cfg: Config, start: real, events: seq<Event>, now: real)
    requires Monotone(start, events + [Failure(now)]) && cfg.windowSeconds > 0.0
    ensures var before, after := Run(cfg, events), Run(cfg, events + [Failure(now)]);
      var recent := Young(History(cfg, events) + [now], now, cfg.windowSeconds);
      && after.failures == recent
      && (before.state != Open && after.state == Open <==> before.state != Open && |recent| >= cfg.failureThreshold)
      && after.totalOpens == before.totalOpens +
           (if before.state != Open && |recent| >= cfg.failureThreshold then 1 else 0)
  {
    var all := events + [Failure(now)];
    assert all[..|events|] == events;
    BreakerRefinesHistory(cfg, start, all);
    YoungOneMore(History(cfg, events), now, now, cfg.windowSeconds);
    assert (History(cfg, events) + [now])[..|History(cfg, events)|] == History(cfg, events);
  }

  /** How often a run enters OPEN. */
  function Openings(cfg: Config, events: seq<Event>): nat {
    if events == [] then 0
    else
      var init := events[..|events| - 1];
      Openings(cfg, init) + if Run(cfg, init).state != Open && Run(cfg, events).state == Open then 1 else 0
  }

  /** The counter counts the entries into OPEN, and only a failure makes one. */
  lemma {:induction false} TotalOpensCountsOpenings(cfg: Config, events: seq<Event>)
    ensures Run(cfg, events).totalOpens == Openings(cfg, events)
    ensures events != [] && Run(cfg, events[..|events| - 1]).state != Open && Run(cfg, events).state == Open
      ==> events[|events| - 1].Failure?
  {
    if events != [] {
      TotalOpensCountsOpenings(cfg, events[..|events| - 1]);
    }
  }

  // ----- the way back

  function RunFrom(cfg: Config, b: Breaker, events: seq<Event>): Breaker
    decreases |events|
  {
    if events == [] then b else RunFrom(cfg, Apply(cfg, b, events[0]), events[1..])
  }

  /** Without a reset and before the recovery time has passed, an open breaker stays open, whatever
      succeeds or fails. */
  lemma {:induction false} StaysOpen(cfg: Config, b: Breaker, events: seq<Event>)
    requires b.state == Open && b.lastOpenTime.Some?
    requires forall e :: e in events ==> e != Reset && (e.Read? ==> e.now < b.lastOpenTime.value + cfg.recoverySeconds)
    ensures var after := RunFrom(cfg, b, events);
      after.state == Open && after.lastOpenTime == b.lastOpenTime && after.totalOpens == b.totalOpens
    decreases |events|
  {
    if events != [] {
      assert events[0] in events;
      assert forall e :: e in events[1..] ==> e in events;
      StaysOpen(cfg, Apply(cfg, b, events[0]), events[1..]);
    }
  }

  /** The event at i is a read that finds the breaker open and recovered. */
  ghost predicate Probes(cfg: Config, events: seq<Event>, i: nat)
    requires i < |events|
  {
    var before := Run(cfg, events[..i]);
    events[i].Read? && before.state == Open && Recovered(cfg, before, events[i].now)
  }

  /** The breaker has been half open since the event at i. */
  ghost predicate HalfOpenSince(cfg: Config, events: seq<Event>, i: nat) {
    forall k :: i < k <= |events| ==> Run(cfg, events[..k]).state == HalfOpen
  }

  lemma StillHalfOpen(cfg: Config, events: seq<Event>, i: nat)
    requires i < |events| - 1 && Run(cfg, events).state == HalfOpen
    requires Probes(cfg, events[..|events| - 1], i) && HalfOpenSince(cfg, events[..|events| - 1], i)
    ensures Probes(cfg, events, i) && HalfOpenSince(cfg, events, i)
  {
    var init := events[..|events| - 1];
    assert events[..i] == init[..i];
    forall k | i < k <= |events| ensures Run(cfg, events[..k]).state == HalfOpen {
      if k < |events| {
        assert events[..k] == init[..k];
      } else {
        assert events[..k] == events;
      }
    }
  }

  /** A half-open breaker has been so since a read that found it recovered. */
  lemma {:induction false} HalfOpenSinceProbe(cfg: Config, events: seq<Event>)
    requires Run(cfg, events).state == HalfOpen
    ensures exists i: nat :: i < |events| && Probes(cfg, events, i) && HalfOpenSince(cfg, events, i)
  {
    var init, n := events[..|events| - 1], |events| - 1;
    if Run(cfg, init).state == HalfOpen {
      HalfOpenSinceProbe(cfg, init);
      var i: nat :| i < n && Probes(cfg, init, i) && HalfOpenSince(cfg, init, i);
      StillHalfOpen(cfg, events, i);
    } else {
      assert events[..n + 1] == events;
      assert Probes(cfg, events, n) && HalfOpenSince(cfg, events, n);
    }
  }

  /** Every way into CLOSED, in every run: a reset, or a success on a half-open breaker, which has been half
      open, and so not opened again, since a read that found it recovered. */
  lemma ClosesOnlyByProbeOrReset(cfg: Config, events: seq<Event>, e: Event)
    requires Run(cfg, events).state != Closed && Run(cfg, events + [e]).state == Closed
    ensures e == Reset ||
      (e == Success && exists i: nat :: i < |events| && Probes(cfg, events, i) && HalfOpenSince(cfg, events, i))
  {
    assert (events + [e])[..|events|] == events;
    if e != Reset {
      HalfOpenSinceProbe(cfg, events);
    }
  }

  /** When the breaker last opened. */
  function LastOpening(cfg: Config, events: seq<Event>): Option<real> {
    if events == [] then None
    else
      var init, e := events[..|events| - 1], events[|events| - 1];
      if e.Failure? && Run(cfg, init).state != Open && Run(cfg, events).state == Open then Some(e.now)
      else LastOpening(cfg, init)
  }

  /** The time a probe measures from is that of the last opening. */
  lemma {:induction false} OpenTimeIsLastOpening(cfg: Config, events: seq<Event>)
    ensures Run(cfg, events).lastOpenTime == LastOpening(cfg, events)
  {
    if events != [] {
      OpenTimeIsLastOpening(cfg, events[..|events| - 1]);
    }
  }

  // ----- recovery

  lemma RunOneMore(cfg: Config, events: seq<Event>, e: Event)
    ensures Run(cfg, events + [e]) == Apply(cfg, Run(cfg, events), e)
  {
    assert (events + [e])[..|events|] == events;
  }

  /** Over every run: a read of an open breaker that last opened at t makes it half open if and only if its
      recovery time has passed since, and changes nothing else. An opening at clock 0 counts as missing, so
      after that one the breaker never recovers by itself. */
  lemma ReadRecoversIff(cfg: Config, events: seq<Event>, now: real)
    requires Run(cfg, events).state == Open
    ensures var b, b' := Run(cfg, events), Run(cfg, events + [Read(now)]);
      && LastOpening(cfg, events).Some?
      && (b'.state == HalfOpen <==>
            LastOpening(cfg, events).value != 0.0 && now - LastOpening(cfg, events).value >= cfg.recoverySeconds)
      && b' == b.(state := b'.state) && (b'.state == HalfOpen || b'.state == Open)
  {
    RunOneMore(cfg, events, Read(now));
    OpenTimeIsLastOpening(cfg, events);
    OpenHasOpened(cfg, events);
  }

  lemma {:induction false} OpenHasOpened(cfg: Config, events: seq<Event>)
    requires Run(cfg, events).state == Open
    ensures Run(cfg, events).lastOpenTime.Some?
  {
    var init := events[..|events| - 1];
    if Run(cfg, init).state == Open {
      OpenHasOpened(cfg, init);
    }
  }

  /** A success after such a read closes the breaker with an empty failure list, keeping the opening's time and
      the counter. */
  lemma ProbeAndSuccessClose(cfg: Config, events: seq<Event>, now: real)
    requires Run(cfg, events).state == Open && LastOpening(cfg, events) != Some(0.0)
    requires LastOpening(cfg, events).Some? ==> now - LastOpening(cfg, events).value >= cfg.recoverySeconds
    ensures Run(cfg, events + [Read(now)] + [Success]) == Run(cfg, events).(state := Closed, failures := [])
  {
    ReadRecoversIff(cfg, events, now);
    RunOneMore(cfg, events + [Read(now)], Success);
  }

  /** A success changes nothing unless the breaker is half open, and a read nothing unless it is open. A reset
      closes it and clears the failures, and only these. */
  lemma QuietEvents(cfg: Config, events: seq<Event>, now: real)
    ensures var b := Run(cfg, events);
      && (b.state != HalfOpen ==> Run(cfg, events + [Success]) == b)
      && (b.state == HalfOpen ==> Run(cfg, events + [Success]) == b.(state := Closed, failures := []))
      && (b.state != Open ==> Run(cfg, events + [Read(now)]) == b)
      && Run(cfg, events + [Reset]) == b.(state := Closed, failures := [])
  {
    RunOneMore(cfg, events, Success);
    RunOneMore(cfg, events, Read(now));
    RunOneMore(cfg, events, Reset);
  }

  // ----- how often it opens

  ghost predicate NoReset(events: seq<Event>) {
    forall k :: 0 <= k < |events| ==> events[k] != Reset
  }

  /** Without resets, a breaker that has opened and is not open now has waited for its recovery time since the
      last opening. */
  lemma {:induction false} LeavesOpenAfterRecovery(cfg: Config, start: real, events: seq<Event>)
    requires Monotone(start, events) && NoReset(events)
    ensures var b := Run(cfg, events);
      b.lastOpenTime.Some? && b.state != Open ==> Clock(start, events) - b.lastOpenTime.value >= cfg.recoverySeconds
    ensures Run(cfg, events).state == Open ==> Run(cfg, events).lastOpenTime.Some?
  {
    if events != [] {
      LeavesOpenAfterRecovery(cfg, start, events[..|events| - 1]);
      assert events[|events| - 1] != Reset;
    }
  }

  /** So two openings are at least the recovery time apart. */
  lemma OpeningsFarApart(cfg: Config, start: real, events: seq<Event>, now: real)
    requires Monotone(start, events + [Failure(now)]) && NoReset(events) && Run(cfg, events).state != Open
    requires Run(cfg, events + [Failure(now)]).state == Open && LastOpening(cfg, events).Some?
    ensures now - LastOpening(cfg, events).value >= cfg.recoverySeconds
  {
    assert (events + [Failure(now)])[..|events|] == events;
    LeavesOpenAfterRecovery(cfg, start, events);
    OpenTimeIsLastOpening(cfg, events);
  }

  /** k recovery times. */
  function Times(rec: real, k: nat): real {
    if k == 0 then 0.0 else Times(rec, k - 1) + rec
  }

  /** After n openings from start on, the last one is at least n - 1 recovery times after start. */
  ghost predicate Paced(rec: real, start: real, n: nat, b: Breaker, clock: real) {
    && start <= clock
    && (n == 0 <==> b.lastOpenTime.None?)
    && (n > 0 ==> start + Times(rec, n - 1) <= b.lastOpenTime.value <= clock)
  }

  lemma PacedOneMore(cfg: Config, start: real, n: nat, b: Breaker, clock: real, e: Event, clock': real)
    requires Paced(cfg.recoverySeconds, start, n, b, clock) && clock <= clock' && e != Reset
    requires e.Failure? ==> clock' == e.now
    requires b.lastOpenTime.Some? && b.state != Open ==> clock - b.lastOpenTime.value >= cfg.recoverySeconds
    ensures var b' := Apply(cfg, b, e);
      Paced(cfg.recoverySeconds, start, n + (if b.state != Open && b'.state == Open then 1 else 0), b', clock')
  {
  }

  lemma {:induction false} OpeningsTakeTime(cfg: Config, start: real, events: seq<Event>)
    requires Monotone(start, events) && NoReset(events)
    ensures Paced(cfg.recoverySeconds, start, Openings(cfg, events), Run(cfg, events), Clock(start, events))
  {
    if events != [] {
      var init, e := events[..|events| - 1], events[|events| - 1];
      var n, b, clock := Openings(cfg, init), Run(cfg, init), Clock(start, init);
      OpeningsTakeTime(cfg, start, init);
      LeavesOpenAfterRecovery(cfg, start, init);
      PacedOneMore(cfg, start, n, b, clock, e, Clock(start, events));
    }
  }

  /** And T seconds without resets hold at most floor(T / recovery time) + 1 openings. */
  lemma OpeningsBound(cfg: Config, start: real, events: seq<Event>)
    requires Monotone(start, events) && NoReset(events) && cfg.recoverySeconds > 0.0
    ensures Run(cfg, events).totalOpens <= ((Clock(start, events) - start) / cfg.recoverySeconds).Floor + 1
  {
    var n := Openings(cfg, events);
    TotalOpensCountsOpenings(cfg, events);
    OpeningsTakeTime(cfg, start, events);
    FitsInto(if n > 0 then n - 1 else 0, cfg.recoverySeconds, Clock(start, events) - start);
  }

  lemma OneMoreTime(x: real, rec: real)
    ensures (x + 1.0) * rec == x * rec + rec
  {
  }

  lemma {:induction false} TimesIsProduct(rec: real, k: nat)
    ensures Times(rec, k) == k as real * rec
  {
    if k > 0 {
      TimesIsProduct(rec, k - 1);
      OneMoreTime((k - 1) as real, rec);
      assert k as real == (k - 1) as real + 1.0;
    } else {
      assert k as real == 0.0;
    }
  }

  lemma QuotientReaches(x: real, rec: real, time: real)
    requires rec > 0.0 && x * rec <= time
    ensures x <= time / rec
  {
  }

  lemma FitsInto(k: nat, rec: real, time: real)
    requires rec > 0.0 && Times(rec, k) <= time
    ensures k <= (time / rec).Floor
  {
    TimesIsProduct(rec, k);
    QuotientReaches(k as real, rec, time);
  }
}
