/** The recovery of messages that a consumer group left pending (recover_pending_messages in recovery.py),
    for one stream and group. Redis commands may fail before or after they take effect. */
module PelRecovery {
  import opened Options

  type Id = nat

  datatype Effect = Done | Lost | Ambiguous

  datatype DlqEntry = DlqEntry(msgId: Id, retryCount: nat)

  /** The group's pending set, the process's retry counters and the dead-letter stream. */
  datatype Pel = Pel(pending: set<Id>, counts: map<Id, nat>, dlq: seq<DlqEntry>)

  datatype Result = Result(claimed: nat, deadLettered: nat, pendingTotal: nat, errors: nat)

  /** A claimed message and how its xadd and its xack end. */
  datatype Claim = Claim(id: Id, add: Effect, ack: Effect)

  /** How a call goes: whether xpending returns, and what xautoclaim hands over, if it returns. */
  datatype Script = Script(pendingOk: bool, claims: Option<seq<Claim>>)

  datatype Progress = Progress(pel: Pel, result: Result)

  function CountOf(counts: map<Id, nat>, id: Id): nat {
    if id in counts then counts[id] else 0
  }

  /** One claimed message. */
  function Handle(maxRetries: int, p: Progress, c: Claim): Progress {
    var count := CountOf(p.pel.counts, c.id) + 1;
    var pel := p.pel.(counts := p.pel.counts[c.id := count]);
    if count <= maxRetries then Progress(pel, p.result.(claimed := p.result.claimed + 1))
    else
      var added := if c.add == Lost then pel else pel.(dlq := pel.dlq + [DlqEntry(c.id, count)]);
      if c.add != Done then Progress(added, p.result.(errors := p.result.errors + 1))
      else
        var acked := if c.ack == Lost then added else added.(pending := added.pending - {c.id});
        if c.ack != Done then Progress(acked, p.result.(errors := p.result.errors + 1))
        else Progress(acked, p.result.(deadLettered := p.result.deadLettered + 1))
  }

  function HandleAll(maxRetries: int, p: Progress, claims: seq<Claim>): Progress {
    if claims == [] then p
    else Handle(maxRetries, HandleAll(maxRetries, p, claims[..|claims| - 1]), claims[|claims| - 1])
  }

  const NO_RESULT := Result(0, 0, 0, 0)

  /** Whether the call ends in the outer exception handler. */
  predicate Crashes(pel: Pel, script: Script) {
    !script.pendingOk || (|pel.pending| != 0 && script.claims.None?)
  }

  function Recovered(maxRetries: int, pel: Pel, script: Script): Progress {
    if !script.pendingOk then Progress(pel, NO_RESULT.(errors := 1))
    else if |pel.pending| == 0 then Progress(pel, NO_RESULT)
    else
      var start := Progress(pel, NO_RESULT.(pendingTotal := |pel.pending|));
      if script.claims.None? then start.(result := start.result.(errors := 1))
      else HandleAll(maxRetries, start, script.claims.value)
  }

  class Recovery {
    const maxRetries: int
    var pending: set<Id>
    var dlqRetryCounts: map<Id, nat>
    var dlq: seq<DlqEntry>

    ghost function View(): Pel
      reads this
    {
      Pel(pending, dlqRetryCounts, dlq)
    }

    constructor (maxRetries: int)
      ensures View() == Pel({}, map[], []) && this.maxRetries == maxRetries
    {
      this.maxRetries := maxRetries;
      pending, dlqRetryCounts, dlq := {}, map[], [];
    }

    method RecoverPendingMessages(script: Script) returns (result: Result)
      modifies this
      ensures Progress(View(), result) == Recovered(maxRetries, old(View()), script)
    {
      result := NO_RESULT;
      if !script.pendingOk {
        return result.(errors := result.errors + 1);
      }
      var totalPending := |pending|;
      result := result.(pendingTotal := totalPending);
      if totalPending == 0 {
        return;
      }
      if script.claims.None? {
        return result.(errors := result.errors + 1);
      }
      var claimedIds := script.claims.value;
      ghost var start := Progress(View(), result);
      for i := 0 to |claimedIds|
        invariant Progress(View(), result) == HandleAll(maxRetries, start, claimedIds[..i])
      {
        assert claimedIds[..i + 1][..i] == claimedIds[..i];
        var c := claimedIds[i];
        var retryCount := CountOf(dlqRetryCounts, c.id) + 1;
        dlqRetryCounts := dlqRetryCounts[c.id := retryCount];
        if retryCount > maxRetries {
          if c.add != Lost {
            dlq := dlq + [DlqEntry(c.id, retryCount)];
          }
          if c.add == Done && c.ack != Lost {
            pending := pending - {c.id};
          }
          if c.add == Done && c.ack == Done {
            result := result.(deadLettered := result.deadLettered + 1);
          } else {
            result := result.(errors := result.errors + 1);
          }
        } else {
          result := result.(claimed := result.claimed + 1);
        }
      }
      assert claimedIds[..|claimedIds|] == claimedIds;
    }
  }

  // ----- one call

  /** Every claimed message is counted once: claimed, dead-lettered or an error. */
  lemma {:induction false} AllClaimsCounted(maxRetries: int, p: Progress, claims: seq<Claim>)
    ensures var r := HandleAll(maxRetries, p, claims).result;
      && r.claimed + r.deadLettered + r.errors == p.result.claimed + p.result.deadLettered + p.result.errors + |claims|
      && r.pendingTotal == p.result.pendingTotal
  {
    if claims != [] {
      AllClaimsCounted(maxRetries, p, claims[..|claims| - 1]);
    }
  }

  lemma CallAccounts(maxRetries: int, pel: Pel, script: Script)
    requires !Crashes(pel, script)
    ensures var r := Recovered(maxRetries, pel, script).result;
      r.claimed + r.deadLettered + r.errors == if |pel.pending| == 0 then 0 else |script.claims.value|
  {
    if |pel.pending| != 0 {
      AllClaimsCounted(maxRetries, Progress(pel, NO_RESULT.(pendingTotal := |pel.pending|)), script.claims.value);
    }
  }

  /** How a claim of a message that has been claimed count times before ends up in the result. */
  datatype Outcome = Claimed | DeadLettered | Failed

  /** The claims with an outcome, when the messages have been claimed as often as counts says before: claimed up
      to the retry limit, and beyond it dead-lettered if both commands work and an error otherwise. */
  function Outcomes(maxRetries: int, counts: map<Id, nat>, claims: seq<Claim>, o: Outcome): nat {
    if claims == [] then 0
    else
      var init, c := claims[..|claims| - 1], claims[|claims| - 1];
      var within := CountOf(Tally(counts, init), c.id) < maxRetries;
      var works := c.add == Done && c.ack == Done;
      var counted := match o
        case Claimed => within
        case DeadLettered => !within && works
        case Failed => !within && !works;
      Outcomes(maxRetries, counts, init, o) + if counted then 1 else 0
  }

  /** Every figure of the result. */
  lemma {:induction false} ResultCountsOutcomes(maxRetries: int, p: Progress, claims: seq<Claim>)
    ensures var r, counts := HandleAll(maxRetries, p, claims).result, p.pel.counts;
      && r.claimed == p.result.claimed + Outcomes(maxRetries, counts, claims, Claimed)
      && r.deadLettered == p.result.deadLettered + Outcomes(maxRetries, counts, claims, DeadLettered)
      && r.errors == p.result.errors + Outcomes(maxRetries, counts, claims, Failed)
    ensures HandleAll(maxRetries, p, claims).pel.counts == Tally(p.pel.counts, claims)
  {
    if claims != [] {
      ResultCountsOutcomes(maxRetries, p, claims[..|claims| - 1]);
    }
  }

  /** The result of a call, in every case. */
  lemma CallResult(maxRetries: int, pel: Pel, script: Script)
    ensures var r, pel' := Recovered(maxRetries, pel, script).result, Recovered(maxRetries, pel, script).pel;
      if Crashes(pel, script) then
        r == Result(0, 0, if script.pendingOk then |pel.pending| else 0, 1) && pel' == pel
      else if |pel.pending| == 0 then r == Result(0, 0, 0, 0) && pel' == pel
      else r == Result(Outcomes(maxRetries, pel.counts, script.claims.value, Claimed),
                       Outcomes(maxRetries, pel.counts, script.claims.value, DeadLettered),
                       |pel.pending|, Outcomes(maxRetries, pel.counts, script.claims.value, Failed))
  {
    if !Crashes(pel, script) && |pel.pending| != 0 {
      var start := Progress(pel, NO_RESULT.(pendingTotal := |pel.pending|));
      ResultCountsOutcomes(maxRetries, start, script.claims.value);
      AllClaimsCounted(maxRetries, start, script.claims.value);
    }
  }

  /** A dead-letter entry names the message and the number of its claims, this one included; it goes to the end,
      and the message leaves the pending set if the xack takes effect. */
  lemma EntryTellsClaims(maxRetries: int, p: Progress, c: Claim)
    requires CountOf(p.pel.counts, c.id) >= maxRetries && c.add != Lost
    ensures var pel' := Handle(maxRetries, p, c).pel;
      && |pel'.dlq| == |p.pel.dlq| + 1 && pel'.dlq[..|p.pel.dlq|] == p.pel.dlq
      && pel'.dlq[|p.pel.dlq|].msgId == c.id
      && pel'.dlq[|p.pel.dlq|].retryCount == CountOf(p.pel.counts, c.id) + 1
      && pel'.pending == if c.add == Done && c.ack != Lost then p.pel.pending - {c.id} else p.pel.pending
  {
  }

  // ----- whole runs

  /** What happens to the group: a new message is delivered, a consumer acknowledges one itself, or a
      recovery call is made. */
  datatype Event = Deliver(id: Id) | ConsumerAck(id: Id) | Recover(script: Script)

  /** The group with its past: all messages ever delivered, those the consumers acknowledged, and how
      often each has been claimed. */
  datatype World = World(pel: Pel, delivered: set<Id>, consumerAcked: set<Id>, claims: map<Id, nat>)

  const START := World(Pel({}, map[], []), {}, {}, map[])

  function Tally(counts: map<Id, nat>, claims: seq<Claim>): map<Id, nat> {
    if claims == [] then counts
    else
      var before, id := Tally(counts, claims[..|claims| - 1]), claims[|claims| - 1].id;
      before[id := CountOf(before, id) + 1]
  }

  predicate Claims(w: World, script: Script) {
    script.pendingOk && |w.pel.pending| != 0 && script.claims.Some?
  }

  function Step(maxRetries: int, w: World, e: Event): World {
    match e
    case Deliver(id) => w.(pel := w.pel.(pending := w.pel.pending + {id}), delivered := w.delivered + {id})
    case ConsumerAck(id) => w.(pel := w.pel.(pending := w.pel.pending - {id}), consumerAcked := w.consumerAcked + {id})
    case Recover(script) =>
      w.(pel := Recovered(maxRetries, w.pel, script).pel,
         claims := if Claims(w, script) then Tally(w.claims, script.claims.value) else w.claims)
  }

  /** Message ids are never reused, and only pending messages are claimed, each once in a call. */
  ghost predicate Allowed(w: World, e: Event) {
    match e
    case Deliver(id) => id !in w.delivered
    case ConsumerAck(id) => true
    case Recover(script) => script.claims.Some? ==> FromPending(w.pel.pending, script.claims.value)
  }

  ghost predicate FromPending(pending: set<Id>, claims: seq<Claim>) {
    && (forall i :: 0 <= i < |claims| ==> claims[i].id in pending)
    && (forall i, j :: 0 <= i < j < |claims| ==> claims[i].id != claims[j].id)
  }

  ghost predicate InDlq(dlq: seq<DlqEntry>, id: Id) {
    exists i :: 0 <= i < |dlq| && dlq[i].msgId == id
  }

  /** Safety: a delivered message is pending, was acknowledged by a consumer, or has a dead-letter entry;
      and a dead-letter entry was made at a claim beyond the retry limit. */
  ghost predicate Safe(maxRetries: int, pel: Pel, delivered: set<Id>, consumerAcked: set<Id>) {
    && (forall id :: id in delivered ==> id in pel.pending || id in consumerAcked || InDlq(pel.dlq, id))
    && (forall i :: 0 <= i < |pel.dlq| ==> maxRetries < pel.dlq[i].retryCount <= CountOf(pel.counts, pel.dlq[i].msgId))
    && (forall i :: 0 <= i < |pel.dlq| ==> pel.dlq[i].msgId in delivered)
    && pel.pending <= delivered
  }

  lemma HandleKeepsSafe(maxRetries: int, p: Progress, c: Claim, delivered: set<Id>, consumerAcked: set<Id>)
    requires Safe(maxRetries, p.pel, delivered, consumerAcked) && c.id in delivered
    ensures Safe(maxRetries, Handle(maxRetries, p, c).pel, delivered, consumerAcked)
  {
    var pel, pel' := p.pel, Handle(maxRetries, p, c).pel;
    assert |pel'.dlq| >= |pel.dlq| && pel'.dlq[..|pel.dlq|] == pel.dlq;
    forall id | InDlq(pel.dlq, id) ensures InDlq(pel'.dlq, id) {
      var i :| 0 <= i < |pel.dlq| && pel.dlq[i].msgId == id;
      assert pel'.dlq[i] == pel.dlq[i];
    }
    if c.id !in pel'.pending && c.id in pel.pending {
      assert pel'.dlq[|pel.dlq|].msgId == c.id;
    }
  }

  lemma {:induction false} HandleAllKeepsSafe(maxRetries: int, p: Progress, claims: seq<Claim>,
                                              delivered: set<Id>, consumerAcked: set<Id>)
    requires Safe(maxRetries, p.pel, delivered, consumerAcked)
    requires forall i :: 0 <= i < |claims| ==> claims[i].id in delivered
    ensures Safe(maxRetries, HandleAll(maxRetries, p, claims).pel, delivered, consumerAcked)
    ensures HandleAll(maxRetries, p, claims).pel.counts == Tally(p.pel.counts, claims)
  {
    if claims != [] {
      var init := claims[..|claims| - 1];
      HandleAllKeepsSafe(maxRetries, p, init, delivered, consumerAcked);
      HandleKeepsSafe(maxRetries, HandleAll(maxRetries, p, init), claims[|claims| - 1], delivered, consumerAcked);
    }
  }

  function Run(maxRetries: int, events: seq<Event>): World {
    if events == [] then START else Step(maxRetries, Run(maxRetries, events[..|events| - 1]), events[|events| - 1])
  }

  ghost predicate AllAllowed(maxRetries: int, events: seq<Event>) {
    events != [] ==>
      && AllAllowed(maxRetries, events[..|events| - 1])
      && Allowed(Run(maxRetries, events[..|events| - 1]), events[|events| - 1])
  }

  /** Over every run, with any failures: no message leaves the pending set unless a consumer acknowledged
      it or it has a dead-letter entry; a dead-letter entry is made only after more than maxRetries claims
      of its message; and the process's counters are the true numbers of claims. */
  lemma {:induction false} RecoveryIsSafe(maxRetries: int, events: seq<Event>)
    requires AllAllowed(maxRetries, events)
    ensures var w := Run(maxRetries, events);
      Safe(maxRetries, w.pel, w.delivered, w.consumerAcked) && w.pel.counts == w.claims
  {
    if events != [] {
      var w, e := Run(maxRetries, events[..|events| - 1]), events[|events| - 1];
      RecoveryIsSafe(maxRetries, events[..|events| - 1]);
      if e.Recover? && Claims(w, e.script) {
        var start := Progress(w.pel, NO_RESULT.(pendingTotal := |w.pel.pending|));
        HandleAllKeepsSafe(maxRetries, start, e.script.claims.value, w.delivered, w.consumerAcked);
      }
    }
  }

  // ----- at most once

  /** Acknowledgements take effect and additions that fail do not. */
  ghost predicate Clean(claims: seq<Claim>) {
    forall i :: 0 <= i < |claims| ==> claims[i].ack != Lost && claims[i].add != Ambiguous
  }

  /** Dead-lettered at most once, and then no longer pending. */
  ghost predicate Once(pel: Pel) {
    && (forall i, j :: 0 <= i < j < |pel.dlq| ==> pel.dlq[i].msgId != pel.dlq[j].msgId)
    && (forall i :: 0 <= i < |pel.dlq| ==> pel.dlq[i].msgId !in pel.pending)
  }

  lemma HandleKeepsOnce(maxRetries: int, p: Progress, c: Claim)
    requires Once(p.pel) && c.id in p.pel.pending && c.ack != Lost && c.add != Ambiguous
    ensures Once(Handle(maxRetries, p, c).pel)
    ensures p.pel.pending - {c.id} <= Handle(maxRetries, p, c).pel.pending <= p.pel.pending
  {
  }

  lemma {:induction false} HandleAllKeepsOnce(maxRetries: int, p: Progress, claims: seq<Claim>)
    requires Once(p.pel) && Clean(claims) && FromPending(p.pel.pending, claims)
    ensures Once(HandleAll(maxRetries, p, claims).pel)
    ensures HandleAll(maxRetries, p, claims).pel.pending <= p.pel.pending
    ensures forall id ::
      (id in p.pel.pending && (forall i :: 0 <= i < |claims| ==> claims[i].id != id) ==>
        id in HandleAll(maxRetries, p, claims).pel.pending)
  {
    if claims != [] {
      var init, c := claims[..|claims| - 1], claims[|claims| - 1];
      assert forall i :: 0 <= i < |init| ==> init[i] == claims[i];
      HandleAllKeepsOnce(maxRetries, p, init);
      HandleKeepsOnce(maxRetries, HandleAll(maxRetries, p, init), c);
    }
  }

  ghost predicate AllClean(events: seq<Event>) {
    forall k :: 0 <= k < |events| && events[k].Recover? && events[k].script.claims.Some? ==>
      Clean(events[k].script.claims.value)
  }

  /** Over every run in which no xack is lost and no failing xadd takes effect, a message is dead-lettered
      at most once. */
  lemma {:induction false} DeadLetteredAtMostOnce(maxRetries: int, events: seq<Event>)
    requires AllAllowed(maxRetries, events) && AllClean(events)
    ensures Once(Run(maxRetries, events).pel)
  {
    if events != [] {
      var init, e := events[..|events| - 1], events[|events| - 1];
      var w := Run(maxRetries, init);
      assert AllClean(init) by { assert forall k :: 0 <= k < |init| ==> init[k] == events[k]; }
      DeadLetteredAtMostOnce(maxRetries, init);
      RecoveryIsSafe(maxRetries, init);
      if e.Recover? && Claims(w, e.script) {
        var start := Progress(w.pel, NO_RESULT.(pendingTotal := |w.pel.pending|));
        HandleAllKeepsOnce(maxRetries, start, e.script.claims.value);
      }
    }
  }

  // ----- exactly how often

  /** How many dead-letter entries a message has. */
  function EntryCount(dlq: seq<DlqEntry>, id: Id): nat {
    if dlq == [] then 0
    else EntryCount(dlq[..|dlq| - 1], id) + if dlq[|dlq| - 1].msgId == id then 1 else 0
  }

  /** How many of the claims are claims of the message beyond the retry limit whose xadd took effect, when it
      has been claimed as often as counts says before. */
  function Additions(maxRetries: int, counts: map<Id, nat>, claims: seq<Claim>, id: Id): nat {
    if claims == [] then 0
    else
      var init, c := claims[..|claims| - 1], claims[|claims| - 1];
      Additions(maxRetries, counts, init, id)
        + if c.id == id && CountOf(Tally(counts, init), id) >= maxRetries && c.add != Lost then 1 else 0
  }

  lemma EntryOneMore(dlq: seq<DlqEntry>, e: DlqEntry, id: Id)
    ensures EntryCount(dlq + [e], id) == EntryCount(dlq, id) + if e.msgId == id then 1 else 0
  {
    assert (dlq + [e])[..|dlq|] == dlq;
  }

  lemma HandleAdds(maxRetries: int, p: Progress, c: Claim, id: Id)
    ensures var count := CountOf(p.pel.counts, c.id);
      && EntryCount(Handle(maxRetries, p, c).pel.dlq, id)
         == EntryCount(p.pel.dlq, id) + (if c.id == id && count >= maxRetries && c.add != Lost then 1 else 0)
      && Handle(maxRetries, p, c).pel.counts == p.pel.counts[c.id := count + 1]
  {
    EntryOneMore(p.pel.dlq, DlqEntry(c.id, CountOf(p.pel.counts, c.id) + 1), id);
  }

  lemma {:induction false} HandleAllAdds(maxRetries: int, p: Progress, claims: seq<Claim>, id: Id)
    ensures var pel := HandleAll(maxRetries, p, claims).pel;
      && EntryCount(pel.dlq, id) == EntryCount(p.pel.dlq, id) + Additions(maxRetries, p.pel.counts, claims, id)
      && pel.counts == Tally(p.pel.counts, claims)
  {
    if claims != [] {
      var init, c := claims[..|claims| - 1], claims[|claims| - 1];
      HandleAllAdds(maxRetries, p, init, id);
      HandleAdds(maxRetries, HandleAll(maxRetries, p, init), c, id);
    }
  }

  /** The same over a run: the claims of the message beyond the retry limit whose xadd took effect. */
  function AllAdditions(maxRetries: int, events: seq<Event>, id: Id): nat {
    if events == [] then 0
    else
      var init, e := events[..|events| - 1], events[|events| - 1];
      var w := Run(maxRetries, init);
      AllAdditions(maxRetries, init, id)
        + if e.Recover? && Claims(w, e.script) then Additions(maxRetries, w.claims, e.script.claims.value, id) else 0
  }

  /** Over every run, whatever fails, a message has exactly as many dead-letter entries. */
  lemma {:induction false} EntriesAreAdditions(maxRetries: int, events: seq<Event>, id: Id)
    ensures var w := Run(maxRetries, events);
      EntryCount(w.pel.dlq, id) == AllAdditions(maxRetries, events, id) && w.pel.counts == w.claims
  {
    if events != [] {
      var init, e := events[..|events| - 1], events[|events| - 1];
      var w := Run(maxRetries, init);
      EntriesAreAdditions(maxRetries, init, id);
      if e.Recover? && Claims(w, e.script) {
        var start := Progress(w.pel, NO_RESULT.(pendingTotal := |w.pel.pending|));
        HandleAllAdds(maxRetries, start, e.script.claims.value, id);
      }
    }
  }

  ghost predicate AtMostOnce(dlq: seq<DlqEntry>, id: Id) {
    forall i, j :: 0 <= i < j < |dlq| ==> !(dlq[i].msgId == id && dlq[j].msgId == id)
  }

  lemma {:induction false} AtMostOnceIffCount(dlq: seq<DlqEntry>, id: Id)
    ensures EntryCount(dlq, id) == 0 <==> forall i :: 0 <= i < |dlq| ==> dlq[i].msgId != id
    ensures EntryCount(dlq, id) <= 1 <==> AtMostOnce(dlq, id)
  {
    if dlq != [] {
      var init, last := dlq[..|dlq| - 1], dlq[|dlq| - 1];
      AtMostOnceIffCount(init, id);
      assert forall i :: 0 <= i < |init| ==> init[i] == dlq[i];
      if last.msgId == id && EntryCount(init, id) > 0 {
        var i :| 0 <= i < |init| && init[i].msgId == id;
        assert dlq[i].msgId == id && dlq[|init|].msgId == id;
      }
      if !AtMostOnce(init, id) {
        var i, j :| 0 <= i < j < |init| && init[i].msgId == id && init[j].msgId == id;
        assert dlq[i].msgId == id && dlq[j].msgId == id;
      }
    }
  }

  /** So over every run a message is dead-lettered at most once if and only if at most one of its claims beyond
      the retry limit has an xadd that takes effect. */
  lemma DeadLetteredAtMostOnceIff(maxRetries: int, events: seq<Event>, id: Id)
    ensures AtMostOnce(Run(maxRetries, events).pel.dlq, id) <==> AllAdditions(maxRetries, events, id) <= 1
  {
    EntriesAreAdditions(maxRetries, events, id);
    AtMostOnceIffCount(Run(maxRetries, events).pel.dlq, id);
  }

  /** A call that claims the message, its xadd working and its xack lost. */
  function LostAck(id: Id): Event {
    Recover(Script(true, Some([Claim(id, Done, Lost)])))
  }

  lemma OneLostAck(maxRetries: nat, w: World, id: Id)
    requires w.pel.pending == {id}
    ensures var w' := Step(maxRetries, w, LostAck(id)); var count := CountOf(w.pel.counts, id);
      && Allowed(w, LostAck(id))
      && w'.pel.pending == {id} && w'.delivered == w.delivered && CountOf(w'.pel.counts, id) == count + 1
      && EntryCount(w'.pel.dlq, id) == EntryCount(w.pel.dlq, id) + if count >= maxRetries then 1 else 0
  {
    var claim := Claim(id, Done, Lost);
    var start := Progress(w.pel, NO_RESULT.(pendingTotal := |w.pel.pending|));
    assert [claim][..0] == [];
    assert HandleAll(maxRetries, start, [claim]) == Handle(maxRetries, start, claim);
    HandleAdds(maxRetries, start, claim, id);
  }

  /** A message is delivered and then claimed k times in this way. */
  function LostAckRun(id: Id, k: nat): seq<Event> {
    if k == 0 then [Deliver(id)] else LostAckRun(id, k - 1) + [LostAck(id)]
  }

  /** The group after that run. */
  ghost predicate Waits(maxRetries: nat, w: World, id: Id, k: nat) {
    && w.pel.pending == {id} && CountOf(w.pel.counts, id) == k
    && EntryCount(w.pel.dlq, id) == if k <= maxRetries then 0 else k - maxRetries
  }

  lemma OneMoreLostAck(maxRetries: nat, events: seq<Event>, id: Id, k: nat)
    requires AllAllowed(maxRetries, events) && Waits(maxRetries, Run(maxRetries, events), id, k)
    ensures var all := events + [LostAck(id)];
      AllAllowed(maxRetries, all) && Waits(maxRetries, Run(maxRetries, all), id, k + 1)
  {
    assert (events + [LostAck(id)])[..|events|] == events;
    OneLostAck(maxRetries, Run(maxRetries, events), id);
  }

  /** With every xack lost, each claim beyond the retry limit makes one more dead-letter entry of the same
      message: two after maxRetries + 2 claims. */
  lemma {:induction false} LostAckDuplicates(maxRetries: nat, id: Id, k: nat)
    ensures AllAllowed(maxRetries, LostAckRun(id, k))
    ensures Waits(maxRetries, Run(maxRetries, LostAckRun(id, k)), id, k)
  {
    if k == 0 {
      DeliveredOnly(maxRetries, id);
    } else {
      LostAckDuplicates(maxRetries, id, k - 1);
      OneMoreLostAck(maxRetries, LostAckRun(id, k - 1), id, k - 1);
    }
  }

  lemma DeliveredOnly(maxRetries: nat, id: Id)
    ensures AllAllowed(maxRetries, [Deliver(id)]) && Waits(maxRetries, Run(maxRetries, [Deliver(id)]), id, 0)
  {
    assert [Deliver(id)][..0] == [];
  }
}
