/** What happens to the retry counters and to an event that keeps failing over whole runs of the dead-letter
    replay: arrivals and batches in any order (_solana_dlq_replay_loop in main.py). A task that stops between
    two commands leaves the store that a lost next command leaves, so the runs cover that too. */
module DlqRuns {
  import opened DlqReplay

  // ----- the counters

  /** A counter that runs can make: none, or a number up to the one where it stops growing. */
  predicate Tame(order: Order, r: RetryField) {
    r.Absent? || (r.Number? && 1 <= r.n <= if order == Literal then 1 else DLQ_MAX_RETRIES)
  }

  ghost predicate AllTame(order: Order, dlq: seq<Entry>) {
    forall i :: 0 <= i < |dlq| ==> Tame(order, dlq[i].retry)
  }

  lemma {:induction false} WithoutKeepsTame(order: Order, dlq: seq<Entry>, id: nat)
    requires AllTame(order, dlq)
    ensures AllTame(order, Without(dlq, id))
  {
    if dlq != [] {
      WithoutKeepsTame(order, dlq[..|dlq| - 1], id);
    }
  }

  lemma ExhaustedStreams(order: Order, s: Store, e: Entry, script: Script)
    requires Exhausted(e)
    ensures var s' := Handled(order, s, e, script);
      && s'.poison == AddPoison(s, e, script.add).poison
      && s'.dlq == if script.add == Done && script.delete != Lost then Without(s.dlq, e.id) else s.dlq
  {
  }

  lemma PublishedStreams(order: Order, s: Store, e: Entry, script: Script)
    requires !e.retry.Garbage? && !Exhausted(e) && Publishes(e, script)
    ensures var s' := Handled(order, s, e, script);
      s'.poison == s.poison && s'.dlq == if script.delete != Lost then Without(s.dlq, e.id) else s.dlq
  {
    PublishedShape(order, s, e, script);
  }

  lemma UnpublishedStreams(order: Order, s: Store, e: Entry, script: Script)
    requires !e.retry.Garbage? && !Exhausted(e) && !Publishes(e, script)
    ensures var s', back := Handled(order, s, e, script), AddBack(s, e, PutBack(order, e.retry), script.add).dlq;
      && s'.poison == s.poison
      && s'.dlq == if script.add == Done && script.delete != Lost then Without(back, e.id) else back
  {
    UnpublishedShape(order, s, e, script);
    var s1 := if e.data != NO_DATA then Publish(s, e.data, script.publish) else s;
    var s2 := AddBack(s1, e, PutBack(order, e.retry), script.add);
    assert Handled(order, s, e, script) == if script.add == Done then Delete(s2, e.id, script.delete) else s2;
  }

  /** What the handling of an entry leaves in the two streams. */
  lemma HandledShape(order: Order, s: Store, e: Entry, script: Script)
    requires !e.retry.Garbage?
    ensures var s', back := Handled(order, s, e, script), AddBack(s, e, PutBack(order, e.retry), script.add).dlq;
      var deletes := script.add == Done && script.delete != Lost;
      && s'.poison == (if Exhausted(e) then AddPoison(s, e, script.add).poison else s.poison)
      && s'.dlq ==
           if Exhausted(e) then (if deletes then Without(s.dlq, e.id) else s.dlq)
           else if Publishes(e, script) then (if script.delete != Lost then Without(s.dlq, e.id) else s.dlq)
           else if deletes then Without(back, e.id) else back
  {
    if Exhausted(e) {
      ExhaustedStreams(order, s, e, script);
    } else if Publishes(e, script) {
      PublishedStreams(order, s, e, script);
    } else {
      UnpublishedStreams(order, s, e, script);
    }
  }

  lemma BackKeepsTame(order: Order, s: Store, e: Entry, effect: Effect)
    requires AllTame(order, s.dlq) && Tame(order, e.retry) && !Exhausted(e)
    ensures AllTame(order, AddBack(s, e, PutBack(order, e.retry), effect).dlq)
  {
    assert Tame(order, PutBack(order, e.retry));
  }

  /** What is handled stays what it is. A publish is of the entry's text. */
  lemma PublishCarriesEvent(order: Order, s: Store, e: Entry, script: Script)
    requires !e.retry.Garbage?
    ensures Handled(order, s, e, script).published ==
      if RetryCount(e.retry) < 3 && e.data != NO_DATA && script.publish != Lost then s.published + [e.data]
      else s.published
  {
    if !Exhausted(e) {
      if Publishes(e, script) {
        PublishedShape(order, s, e, script);
      } else {
        UnpublishedShape(order, s, e, script);
      }
    }
  }

  /** A poison entry names the id and the source of the entry and carries its text. */
  lemma PoisonCarriesEvent(order: Order, s: Store, e: Entry, script: Script)
    requires !e.retry.Garbage?
    ensures Handled(order, s, e, script).poison ==
      if RetryCount(e.retry) >= 3 && script.add != Lost then s.poison + [Poison(e.id, e.source, e.data)] else s.poison
  {
    HandledShape(order, s, e, script);
  }

  /** An entry put back carries source and text under a new id, at the end of the stream. */
  lemma PutBackCarriesEvent(order: Order, s: Store, e: Entry, script: Script)
    requires Valid(s) && Has(s.dlq, e) && !e.retry.Garbage? && RetryCount(e.retry) < 3
    requires !Publishes(e, script) && script.add != Lost
    ensures var dlq := Handled(order, s, e, script).dlq;
      dlq != [] && dlq[|dlq| - 1] == Entry(s.nextId, e.source, e.data, PutBack(order, e.retry))
  {
    UnpublishedStreams(order, s, e, script);
    HasIndex(s.dlq, e);
  }

  lemma HandledKeepsTame(order: Order, s: Store, e: Entry, script: Script)
    requires AllTame(order, s.dlq) && Tame(order, e.retry)
    ensures AllTame(order, Handled(order, s, e, script).dlq)
  {
    var back := AddBack(s, e, PutBack(order, e.retry), script.add).dlq;
    WithoutKeepsTame(order, s.dlq, e.id);
    HandledShape(order, s, e, script);
    if !Exhausted(e) {
      BackKeepsTame(order, s, e, script.add);
      WithoutKeepsTame(order, back, e.id);
    }
  }

  lemma {:induction false} BatchKeepsTame(order: Order, s: Store, batch: seq<Entry>, scripts: seq<Script>)
    requires |scripts| == |batch| && AllTame(order, s.dlq) && AllTame(order, batch)
    ensures AllTame(order, AfterBatch(order, s, batch, scripts).dlq)
    decreases |batch|
  {
    if batch != [] {
      HandledKeepsTame(order, s, batch[0], scripts[0]);
      if Completes(batch[0], scripts[0]) {
        BatchKeepsTame(order, Handled(order, s, batch[0], scripts[0]), batch[1..], scripts[1..]);
      }
    }
  }

  /** The store after a turn, by its batch. */
  lemma TurnIsBatch(order: Order, s: Store, t: Turn)
    requires t.Replay?
    ensures AfterTurn(order, s, t) == AfterBatch(order, s, s.dlq[..BatchSize(s, t)], t.scripts[..BatchSize(s, t)])
  {
    BatchEndsInLast(order, s, s.dlq[..BatchSize(s, t)], t.scripts[..BatchSize(s, t)]);
  }

  /** Over every run, whatever fails: from counters that are missing or tame, no run makes one that is no
      number, the literal counter stays at most 1 and the meant one at most DLQ_MAX_RETRIES. */
  lemma {:induction false} RunsKeepCountersTame(order: Order, s: Store, turns: seq<Turn>)
    requires AllTame(order, s.dlq)
    ensures AllTame(order, RunTurns(order, s, turns).dlq)
    decreases |turns|
  {
    if turns != [] {
      var t := turns[0];
      if t.Replay? {
        TurnIsBatch(order, s, t);
        BatchKeepsTame(order, s, s.dlq[..BatchSize(s, t)], t.scripts[..BatchSize(s, t)]);
      }
      RunsKeepCountersTame(order, AfterTurn(order, s, t), turns[1..]);
    }
  }

  // ----- which entries of a batch are handled

  /** Every Redis command works. */
  ghost predicate Works(scripts: seq<Script>) {
    forall i :: 0 <= i < |scripts| ==> scripts[i].add == Done && scripts[i].delete == Done
  }

  /** The position of the first counter that is no number, or the length. */
  function FirstGarbage(batch: seq<Entry>): (g: nat)
    ensures g <= |batch| && (g < |batch| ==> batch[g].retry.Garbage?)
    ensures forall i :: 0 <= i < g ==> !batch[i].retry.Garbage?
  {
    if batch == [] || batch[0].retry.Garbage? then 0 else 1 + FirstGarbage(batch[1..])
  }

  /** The store after handling every entry. */
  function HandleEvery(order: Order, s: Store, batch: seq<Entry>, scripts: seq<Script>): Store
    requires |scripts| == |batch|
    decreases |batch|
  {
    if batch == [] then s else HandleEvery(order, Handled(order, s, batch[0], scripts[0]), batch[1..], scripts[1..])
  }

  /** With Redis working, a batch handles exactly the entries before the first counter that is no number. */
  lemma {:induction false} HandlesBeforeGarbage(order: Order, s: Store, batch: seq<Entry>, scripts: seq<Script>)
    requires |scripts| == |batch| && Works(scripts)
    ensures var g := FirstGarbage(batch);
      AfterBatch(order, s, batch, scripts) == HandleEvery(order, s, batch[..g], scripts[..g])
    decreases |batch|
  {
    if batch != [] && !batch[0].retry.Garbage? {
      var g, s' := FirstGarbage(batch), Handled(order, s, batch[0], scripts[0]);
      HandlesBeforeGarbage(order, s', batch[1..], scripts[1..]);
      EveryFromFirst(order, s, batch, scripts, g);
    }
  }

  lemma EveryFromFirst(order: Order, s: Store, batch: seq<Entry>, scripts: seq<Script>, n: nat)
    requires 0 < n <= |batch| == |scripts|
    ensures HandleEvery(order, s, batch[..n], scripts[..n])
      == HandleEvery(order, Handled(order, s, batch[0], scripts[0]), batch[1..][..n - 1], scripts[1..][..n - 1])
  {
    assert batch[..n][1..] == batch[1..][..n - 1] && scripts[..n][1..] == scripts[1..][..n - 1];
  }

  /** The handling of the entry ends in an exception: its counter is no number, its deletion fails, or an
      addition that it needs. */
  predicate Raises(e: Entry, script: Script) {
    || e.retry.Garbage? || script.delete != Done
    || (script.add != Done && (RetryCount(e.retry) >= 3 || e.data == NO_DATA || script.publish != Done))
  }

  /** How many entries of a batch are begun: up to the first that raises, this one included. */
  function Begun(batch: seq<Entry>, scripts: seq<Script>): (n: nat)
    requires |scripts| == |batch|
    ensures n <= |batch|
  {
    if batch == [] then 0 else if Raises(batch[0], scripts[0]) then 1 else 1 + Begun(batch[1..], scripts[1..])
  }

  /** A batch handles exactly these and leaves the others for the next turn. */
  lemma {:induction false} BatchStopsWhereItRaises(order: Order, s: Store, batch: seq<Entry>, scripts: seq<Script>)
    requires |scripts| == |batch|
    ensures var n := Begun(batch, scripts);
      AfterBatch(order, s, batch, scripts) == HandleEvery(order, s, batch[..n], scripts[..n])
    decreases |batch|
  {
    if batch != [] {
      var n, s' := Begun(batch, scripts), Handled(order, s, batch[0], scripts[0]);
      EveryFromFirst(order, s, batch, scripts, n);
      if !Raises(batch[0], scripts[0]) {
        BatchStopsWhereItRaises(order, s', batch[1..], scripts[1..]);
      }
    }
  }

  // ----- the literal order never poisons

  /** An entry at the limit stands only behind a counter that is no number. */
  ghost predicate Quiet(dlq: seq<Entry>) {
    forall i :: 0 <= i < |dlq| && Exhausted(dlq[i]) ==> Behind(dlq, i)
  }

  ghost predicate Behind(dlq: seq<Entry>, i: int)
    requires 0 <= i <= |dlq|
  {
    exists g :: 0 <= g < i && dlq[g].retry.Garbage?
  }

  lemma QuietTail(batch: seq<Entry>)
    requires Quiet(batch) && batch != [] && !batch[0].retry.Garbage?
    ensures !Exhausted(batch[0]) && Quiet(batch[1..])
  {
    forall i | 0 <= i < |batch| - 1 && Exhausted(batch[1..][i]) ensures Behind(batch[1..], i) {
      assert Behind(batch, i + 1);
      var g :| 0 <= g < i + 1 && batch[g].retry.Garbage?;
      assert batch[1..][g - 1].retry.Garbage?;
    }
  }

  lemma QuietPrefix(dlq: seq<Entry>, n: nat)
    requires Quiet(dlq) && n <= |dlq|
    ensures Quiet(dlq[..n])
  {
    forall i | 0 <= i < n && Exhausted(dlq[..n][i]) ensures Behind(dlq[..n], i) {
      assert Behind(dlq, i);
      var g :| 0 <= g < i && dlq[g].retry.Garbage?;
      assert dlq[..n][g].retry.Garbage?;
    }
  }

  lemma QuietOneMore(dlq: seq<Entry>, e: Entry)
    requires Quiet(dlq) && (Exhausted(e) ==> Behind(dlq, |dlq|))
    ensures Quiet(dlq + [e])
  {
    var all := dlq + [e];
    forall i | 0 <= i < |all| && Exhausted(all[i]) ensures Behind(all, i) {
      assert Behind(dlq, i);
      var g :| 0 <= g < i && dlq[g].retry.Garbage?;
      assert all[g].retry.Garbage?;
    }
  }

  /** The entries with this id, if there are any, are no obstacles. */
  ghost predicate NoObstacle(dlq: seq<Entry>, id: nat) {
    forall i :: 0 <= i < |dlq| && dlq[i].id == id ==> !dlq[i].retry.Garbage?
  }

  lemma {:induction false} WithoutKeepsBehind(dlq: seq<Entry>, id: nat)
    requires NoObstacle(dlq, id) && Behind(dlq, |dlq|)
    ensures Behind(Without(dlq, id), |Without(dlq, id)|)
  {
    var init, last := dlq[..|dlq| - 1], dlq[|dlq| - 1];
    var rest := Without(init, id);
    assert forall g :: 0 <= g < |init| ==> init[g] == dlq[g];
    if Behind(init, |init|) {
      WithoutKeepsBehind(init, id);
      var g :| 0 <= g < |rest| && rest[g].retry.Garbage?;
      assert Without(dlq, id)[g] == rest[g];
    } else {
      assert last.retry.Garbage?;
      assert Without(dlq, id)[|rest|] == last;
    }
  }

  lemma {:induction false} WithoutKeepsQuiet(dlq: seq<Entry>, id: nat)
    requires NoObstacle(dlq, id) && Quiet(dlq)
    ensures Quiet(Without(dlq, id))
  {
    if dlq != [] {
      var init, last := dlq[..|dlq| - 1], dlq[|dlq| - 1];
      QuietPrefix(dlq, |dlq| - 1);
      WithoutKeepsQuiet(init, id);
      if last.id != id {
        if Exhausted(last) {
          assert Behind(dlq, |init|);
          var g :| 0 <= g < |init| && dlq[g].retry.Garbage?;
          assert init[g].retry.Garbage?;
          WithoutKeepsBehind(init, id);
        }
        QuietOneMore(Without(init, id), last);
      }
    }
  }

  lemma EntryIsNoObstacle(s: Store, e: Entry)
    requires Valid(s) && Has(s.dlq, e) && !e.retry.Garbage?
    ensures NoObstacle(s.dlq, e.id)
  {
    HasIndex(s.dlq, e);
  }

  lemma AddBackKeepsQuiet(s: Store, e: Entry, effect: Effect)
    requires Valid(s) && Has(s.dlq, e) && !e.retry.Garbage? && !Exhausted(e) && Quiet(s.dlq)
    ensures var s' := AddBack(s, e, PutBack(Literal, e.retry), effect);
      Quiet(s'.dlq) && NoObstacle(s'.dlq, e.id)
  {
    EntryIsNoObstacle(s, e);
    QuietOneMore(s.dlq, Entry(s.nextId, e.source, e.data, PutBack(Literal, e.retry)));
  }

  lemma LiteralHandledKeepsQuiet(s: Store, e: Entry, script: Script)
    requires Valid(s) && Has(s.dlq, e) && Quiet(s.dlq) && (!e.retry.Garbage? ==> !Exhausted(e))
    ensures var s' := Handled(Literal, s, e, script);
      Quiet(s'.dlq) && s'.poison == s.poison
  {
    if !e.retry.Garbage? {
      HandledShape(Literal, s, e, script);
      EntryIsNoObstacle(s, e);
      WithoutKeepsQuiet(s.dlq, e.id);
      AddBackKeepsQuiet(s, e, script.add);
      WithoutKeepsQuiet(AddBack(s, e, PutBack(Literal, e.retry), script.add).dlq, e.id);
    }
  }

  lemma {:induction false} LiteralBatchKeepsQuiet(s: Store, batch: seq<Entry>, scripts: seq<Script>)
    requires |scripts| == |batch| && Valid(s) && Waiting(s, batch) && Quiet(s.dlq) && Quiet(batch)
    ensures var s' := AfterBatch(Literal, s, batch, scripts);
      Quiet(s'.dlq) && s'.poison == s.poison
    decreases |batch|
  {
    if batch != [] {
      var s' := Handled(Literal, s, batch[0], scripts[0]);
      if !batch[0].retry.Garbage? {
        QuietTail(batch);
      }
      LiteralHandledKeepsQuiet(s, batch[0], scripts[0]);
      if Completes(batch[0], scripts[0]) {
        HandlingKeepsWaiting(Literal, s, batch, scripts[0], 0);
        LiteralBatchKeepsQuiet(s', batch[1..], scripts[1..]);
      }
    }
  }

  lemma BatchWaits(s: Store, n: nat)
    requires Valid(s) && n <= |s.dlq|
    ensures Waiting(s, s.dlq[..n])
  {
    forall i | 0 <= i < n ensures Has(s.dlq, s.dlq[..n][i]) {
      HasAt(s.dlq, i);
    }
  }

  lemma TurnKeepsValid(order: Order, s: Store, t: Turn)
    requires Valid(s)
    ensures Valid(AfterTurn(order, s, t))
  {
    TurnLosesNothing(order, s, t, 0);
  }

  /** Over every run, whatever fails, the literal code poisons nothing if no entry is at the limit to begin
      with, but behind a counter that is no number. */
  lemma {:induction false} LiteralNeverPoisons(s: Store, turns: seq<Turn>)
    requires Valid(s) && Quiet(s.dlq)
    ensures RunTurns(Literal, s, turns).poison == s.poison
    decreases |turns|
  {
    if turns != [] {
      var t := turns[0];
      TurnKeepsValid(Literal, s, t);
      match t {
        case Arrive(source, data) => QuietOneMore(s.dlq, Entry(s.nextId, source, data, Absent));
        case Replay(scripts) =>
          var n := BatchSize(s, t);
          TurnIsBatch(Literal, s, t);
          BatchWaits(s, n);
          QuietPrefix(s.dlq, n);
          LiteralBatchKeepsQuiet(s, s.dlq[..n], scripts[..n]);
      }
      LiteralNeverPoisons(AfterTurn(Literal, s, t), turns[1..]);
    }
  }

  /** So it never poisons what the writers and the loop itself put there. */
  lemma LiteralNeverPoisonsTame(s: Store, turns: seq<Turn>)
    requires Valid(s) && AllTame(Literal, s.dlq)
    ensures RunTurns(Literal, s, turns).poison == s.poison
  {
    LiteralNeverPoisons(s, turns);
  }

  lemma PoisonsIfExhausted(order: Order, s: Store, e: Entry, script: Script)
    requires !e.retry.Garbage? && script.add == Done
    ensures |Handled(order, s, e, script).poison| == |s.poison| + if Exhausted(e) then 1 else 0
  {
    HandledShape(order, s, e, script);
  }

  /** How many entries are at the limit. */
  function AtLimit(batch: seq<Entry>): nat {
    if batch == [] then 0 else (if Exhausted(batch[0]) then 1 else 0) + AtLimit(batch[1..])
  }

  lemma {:induction false} AtLimitCounts(batch: seq<Entry>, i: nat)
    requires i < |batch| && Exhausted(batch[i])
    ensures AtLimit(batch) > 0
  {
    if i > 0 {
      AtLimitCounts(batch[1..], i - 1);
    }
  }

  /** With Redis working, a handling of every entry poisons those at the limit. */
  lemma {:induction false} EveryPoisons(order: Order, s: Store, batch: seq<Entry>, scripts: seq<Script>)
    requires |scripts| == |batch| && Works(scripts) && forall i :: 0 <= i < |batch| ==> !batch[i].retry.Garbage?
    ensures |HandleEvery(order, s, batch, scripts).poison| == |s.poison| + AtLimit(batch)
    decreases |batch|
  {
    if batch != [] {
      PoisonsIfExhausted(order, s, batch[0], scripts[0]);
      EveryPoisons(order, Handled(order, s, batch[0], scripts[0]), batch[1..], scripts[1..]);
    }
  }

  /** n handlings with Redis working. */
  function Working(n: nat): (scripts: seq<Script>)
    ensures |scripts| == n && Works(scripts)
  {
    seq(n, _ => FAILED_PUBLISH)
  }

  lemma PrefixWithoutGarbage(dlq: seq<Entry>, i: nat)
    requires i < |dlq| && Exhausted(dlq[i]) && !Behind(dlq, i)
    ensures FirstGarbage(dlq[..i + 1]) == i + 1
  {
    var batch := dlq[..i + 1];
    assert forall g :: 0 <= g <= i ==> batch[g] == dlq[g] && !batch[g].retry.Garbage?;
  }

  lemma PrefixPoisons(order: Order, s: Store, batch: seq<Entry>, scripts: seq<Script>)
    requires |scripts| == |batch| > 0 && Works(scripts)
    requires FirstGarbage(batch) == |batch| && Exhausted(batch[|batch| - 1])
    ensures |AfterBatch(order, s, batch, scripts).poison| > |s.poison|
  {
    HandlesBeforeGarbage(order, s, batch, scripts);
    assert batch[..|batch|] == batch && scripts[..|batch|] == scripts;
    EveryPoisons(order, s, batch, scripts);
    AtLimitCounts(batch, |batch| - 1);
  }

  lemma OneTurn(order: Order, s: Store, t: Turn)
    ensures RunTurns(order, s, [t]) == AfterTurn(order, s, t)
  {
    assert [t][1..] == [];
  }

  lemma OnePoisoningTurn(s: Store, i: nat)
    requires i < |s.dlq| && Exhausted(s.dlq[i]) && !Behind(s.dlq, i)
    ensures RunTurns(Literal, s, [Replay(Working(i + 1))]).poison != s.poison
  {
    var scripts := Working(i + 1);
    var t := Replay(scripts);
    OneTurn(Literal, s, t);
    TurnIsBatch(Literal, s, t);
    assert BatchSize(s, t) == i + 1 && scripts[..i + 1] == scripts;
    PrefixWithoutGarbage(s.dlq, i);
    PrefixPoisons(Literal, s, s.dlq[..i + 1], scripts);
  }

  /** The literal code ever poisons something if and only if some entry is at the limit to begin with and no
      counter that is no number stands before it. */
  lemma LiteralPoisonsIffStoredCount(s: Store)
    requires Valid(s)
    ensures (exists turns :: RunTurns(Literal, s, turns).poison != s.poison)
      <==> exists i :: 0 <= i < |s.dlq| && Exhausted(s.dlq[i]) && !Behind(s.dlq, i)
  {
    if Quiet(s.dlq) {
      forall turns ensures RunTurns(Literal, s, turns).poison == s.poison {
        LiteralNeverPoisons(s, turns);
      }
    } else {
      var i :| 0 <= i < |s.dlq| && Exhausted(s.dlq[i]) && !Behind(s.dlq, i);
      OnePoisoningTurn(s, i);
    }
  }

  // ----- an event whose publish keeps failing

  /** How often an event waits or is poisoned. */
  function Held(s: Store, p: Payload): nat {
    InDlq(s.dlq, p) + InPoison(s.poison, p)
  }

  /** The counters of the waiting copies of an event, added up. */
  function Retries(dlq: seq<Entry>, p: Payload): int {
    if dlq == [] then 0
    else Retries(dlq[..|dlq| - 1], p) + if dlq[|dlq| - 1].data == p then RetryCount(dlq[|dlq| - 1].retry) else 0
  }

  /** The handlings that put an event where it is: one for every retry, and one for the poisoning after
      DLQ_MAX_RETRIES of them. */
  function Spent(s: Store, p: Payload): int {
    Retries(s.dlq, p) + (DLQ_MAX_RETRIES + 1) * InPoison(s.poison, p)
  }

  lemma {:induction false} WithoutTakesRetries(dlq: seq<Entry>, e: Entry, p: Payload)
    requires Has(dlq, e) && Increasing(dlq)
    ensures Retries(Without(dlq, e.id), p) == Retries(dlq, p) - if e.data == p then RetryCount(e.retry) else 0
  {
    var init, last := dlq[..|dlq| - 1], dlq[|dlq| - 1];
    if last == e {
      WithoutAbsent(init, e.id);
    } else {
      HasIndex(init, e);
      WithoutTakesRetries(init, e, p);
      var rest := Without(init, e.id);
      assert (rest + [last])[..|rest|] == rest;
    }
  }

  lemma AddPoisonHolds(s: Store, e: Entry, effect: Effect, p: Payload)
    ensures InPoison(AddPoison(s, e, effect).poison, p)
      == InPoison(s.poison, p) + if effect != Lost && e.data == p then 1 else 0
  {
    assert (s.poison + [Poison(e.id, e.source, e.data)])[..|s.poison|] == s.poison;
  }

  lemma AddBackHolds(s: Store, e: Entry, retry: RetryField, effect: Effect, p: Payload)
    requires Valid(s) && Has(s.dlq, e)
    ensures var dlq, more := AddBack(s, e, retry, effect).dlq, effect != Lost && e.data == p;
      && Increasing(dlq) && Has(dlq, e)
      && InDlq(dlq, p) == InDlq(s.dlq, p) + (if more then 1 else 0)
      && Retries(dlq, p) == Retries(s.dlq, p) + (if more then RetryCount(retry) else 0)
  {
    var e' := Entry(s.nextId, e.source, e.data, retry);
    assert (s.dlq + [e'])[..|s.dlq|] == s.dlq;
  }

  /** Whatever fails, an event that is not published by the handling is not lost, and nothing leaves the poison
      stream. */
  lemma HandledHolds(order: Order, s: Store, e: Entry, script: Script, p: Payload)
    requires Valid(s) && Has(s.dlq, e) && (e.data == p ==> !Publishes(e, script))
    ensures Held(Handled(order, s, e, script), p) >= Held(s, p)
    ensures InPoison(Handled(order, s, e, script).poison, p) >= InPoison(s.poison, p)
  {
    if !e.retry.Garbage? {
      HandledShape(order, s, e, script);
      AddPoisonHolds(s, e, script.add, p);
      AddBackHolds(s, e, PutBack(order, e.retry), script.add, p);
      WithoutTakesOne(s.dlq, e, p);
      WithoutTakesOne(AddBack(s, e, PutBack(order, e.retry), script.add).dlq, e, p);
    }
  }

  lemma PoisoningSpends(s: Store, e: Entry, script: Script, p: Payload)
    requires Valid(s) && Has(s.dlq, e) && e.retry == Number(DLQ_MAX_RETRIES)
    requires script.add == Done && script.delete == Done
    ensures var s' := Handled(Meant, s, e, script); var got := if e.data == p then 1 else 0;
      && InDlq(s'.dlq, p) == InDlq(s.dlq, p) - got && InPoison(s'.poison, p) == InPoison(s.poison, p) + got
      && Retries(s'.dlq, p) == Retries(s.dlq, p) - DLQ_MAX_RETRIES * got
  {
    HandledShape(Meant, s, e, script);
    AddPoisonHolds(s, e, script.add, p);
    WithoutTakesOne(s.dlq, e, p);
    WithoutTakesRetries(s.dlq, e, p);
  }

  lemma RetrySpends(s: Store, e: Entry, script: Script, p: Payload)
    requires Valid(s) && Has(s.dlq, e) && !e.retry.Garbage? && !Exhausted(e) && (e.data == p ==> !Publishes(e, script))
    requires script.add == Done && script.delete == Done
    ensures var s' := Handled(Meant, s, e, script); var got := if e.data == p then 1 else 0;
      && InDlq(s'.dlq, p) == InDlq(s.dlq, p) && s'.poison == s.poison
      && Retries(s'.dlq, p) == Retries(s.dlq, p) + got
  {
    HandledShape(Meant, s, e, script);
    if Publishes(e, script) {
      WithoutTakesOne(s.dlq, e, p);
      WithoutTakesRetries(s.dlq, e, p);
    } else {
      var back := AddBack(s, e, PutBack(Meant, e.retry), script.add).dlq;
      AddBackHolds(s, e, PutBack(Meant, e.retry), script.add, p);
      WithoutTakesOne(back, e, p);
      WithoutTakesRetries(back, e, p);
    }
  }

  /** With Redis working and the meant order, a handling whose publish fails is accounted for. */
  lemma HandledSpends(s: Store, e: Entry, script: Script, p: Payload)
    requires Valid(s) && Has(s.dlq, e) && (e.data == p ==> !Publishes(e, script))
    requires Tame(Meant, e.retry) && script.add == Done && script.delete == Done
    ensures var s' := Handled(Meant, s, e, script);
      && Held(s', p) == Held(s, p)
      && Spent(s', p) == Spent(s, p) + if e.data == p then 1 else 0
  {
    if Exhausted(e) {
      PoisoningSpends(s, e, script, p);
    } else {
      RetrySpends(s, e, script, p);
    }
  }

  // ----- batches and runs

  /** No publish of the event in the batch goes through. */
  ghost predicate NoPublish(batch: seq<Entry>, scripts: seq<Script>, p: Payload)
    requires |scripts| == |batch|
  {
    forall i :: 0 <= i < |batch| && batch[i].data == p ==> !Publishes(batch[i], scripts[i])
  }

  /** How often a batch handles the event. */
  function InBatch(batch: seq<Entry>, p: Payload): nat {
    if batch == [] then 0 else (if batch[0].data == p then 1 else 0) + InBatch(batch[1..], p)
  }

  lemma {:induction false} BatchHolds(order: Order, s: Store, batch: seq<Entry>, scripts: seq<Script>, p: Payload)
    requires |scripts| == |batch| && Valid(s) && Waiting(s, batch) && NoPublish(batch, scripts, p)
    ensures Held(AfterBatch(order, s, batch, scripts), p) >= Held(s, p)
    ensures InPoison(AfterBatch(order, s, batch, scripts).poison, p) >= InPoison(s.poison, p)
    decreases |batch|
  {
    if batch != [] {
      HandledHolds(order, s, batch[0], scripts[0], p);
      if Completes(batch[0], scripts[0]) {
        HandlingKeepsWaiting(order, s, batch, scripts[0], p);
        BatchHolds(order, Handled(order, s, batch[0], scripts[0]), batch[1..], scripts[1..], p);
      }
    }
  }

  lemma {:induction false} BatchSpends(s: Store, batch: seq<Entry>, scripts: seq<Script>, p: Payload)
    requires |scripts| == |batch| && Valid(s) && Waiting(s, batch) && NoPublish(batch, scripts, p)
    requires Works(scripts) && AllTame(Meant, batch)
    ensures var s' := AfterBatch(Meant, s, batch, scripts);
      Held(s', p) == Held(s, p) && Spent(s', p) == Spent(s, p) + InBatch(batch, p)
    decreases |batch|
  {
    if batch != [] {
      HandledSpends(s, batch[0], scripts[0], p);
      HandlingKeepsWaiting(Meant, s, batch, scripts[0], p);
      BatchSpends(Handled(Meant, s, batch[0], scripts[0]), batch[1..], scripts[1..], p);
    }
  }

  function Batch(s: Store, t: Turn): seq<Entry>
    requires t.Replay?
  {
    s.dlq[..BatchSize(s, t)]
  }

  function Scripts(s: Store, t: Turn): (scripts: seq<Script>)
    requires t.Replay?
    ensures |scripts| == |Batch(s, t)|
  {
    t.scripts[..BatchSize(s, t)]
  }

  /** Over the whole run no publish of the event goes through. */
  ghost predicate NeverPublished(order: Order, s: Store, turns: seq<Turn>, p: Payload)
    decreases |turns|
  {
    turns != [] ==>
      && (turns[0].Replay? ==> NoPublish(Batch(s, turns[0]), Scripts(s, turns[0]), p))
      && NeverPublished(order, AfterTurn(order, s, turns[0]), turns[1..], p)
  }

  /** Over the whole run every Redis command works. */
  ghost predicate AllWork(order: Order, s: Store, turns: seq<Turn>)
    decreases |turns|
  {
    turns != [] ==>
      && (turns[0].Replay? ==> Works(Scripts(s, turns[0])))
      && AllWork(order, AfterTurn(order, s, turns[0]), turns[1..])
  }

  /** How often the event arrives. */
  function Arrivals(turns: seq<Turn>, p: Payload): nat
    decreases |turns|
  {
    if turns == [] then 0
    else (if turns[0].Arrive? && turns[0].data == p then 1 else 0) + Arrivals(turns[1..], p)
  }

  /** How often the run handles it. */
  function Handlings(order: Order, s: Store, turns: seq<Turn>, p: Payload): nat
    decreases |turns|
  {
    if turns == [] then 0
    else
      var t := turns[0];
      (if t.Replay? then InBatch(Batch(s, t), p) else 0) + Handlings(order, AfterTurn(order, s, t), turns[1..], p)
  }

  lemma ArrivalHolds(order: Order, s: Store, t: Turn, p: Payload)
    requires t.Arrive?
    ensures var s' := AfterTurn(order, s, t);
      && Held(s', p) == Held(s, p) + (if t.data == p then 1 else 0) && s'.poison == s.poison
      && Spent(s', p) == Spent(s, p)
  {
    assert (s.dlq + [Entry(s.nextId, t.source, t.data, Absent)])[..|s.dlq|] == s.dlq;
  }

  /** Over every run in which the event is never published, whatever fails in Redis: every arrival of it still
      waits or is poisoned. */
  lemma {:induction false} RunHolds(order: Order, s: Store, turns: seq<Turn>, p: Payload)
    requires Valid(s) && NeverPublished(order, s, turns, p)
    ensures var s' := RunTurns(order, s, turns);
      Held(s', p) >= Held(s, p) + Arrivals(turns, p) && InPoison(s'.poison, p) >= InPoison(s.poison, p)
    decreases |turns|
  {
    if turns != [] {
      var t := turns[0];
      TurnKeepsValid(order, s, t);
      if t.Replay? {
        TurnIsBatch(order, s, t);
        BatchWaits(s, BatchSize(s, t));
        BatchHolds(order, s, Batch(s, t), Scripts(s, t), p);
      } else {
        ArrivalHolds(order, s, t, p);
      }
      RunHolds(order, AfterTurn(order, s, t), turns[1..], p);
    }
  }

  /** The literal code: over every run in which an event is never published, whatever fails in Redis, every
      arrival of it waits for ever, and nothing is poisoned. */
  lemma LiteralRetriesForEver(s: Store, turns: seq<Turn>, p: Payload)
    requires Valid(s) && Quiet(s.dlq) && NeverPublished(Literal, s, turns, p)
    ensures var s' := RunTurns(Literal, s, turns);
      InDlq(s'.dlq, p) >= InDlq(s.dlq, p) + Arrivals(turns, p) && s'.poison == s.poison
  {
    RunHolds(Literal, s, turns, p);
    LiteralNeverPoisons(s, turns);
  }

  /** The meant order, with Redis working: over every run in which an event is never published its arrivals
      are conserved and its handlings are accounted for, exactly, by its counters and its poisonings. */
  lemma {:induction false} MeantRunSpends(s: Store, turns: seq<Turn>, p: Payload)
    requires Valid(s) && AllTame(Meant, s.dlq)
    requires NeverPublished(Meant, s, turns, p) && AllWork(Meant, s, turns)
    ensures var s' := RunTurns(Meant, s, turns);
      && Held(s', p) == Held(s, p) + Arrivals(turns, p)
      && Spent(s', p) == Spent(s, p) + Handlings(Meant, s, turns, p)
    decreases |turns|
  {
    if turns != [] {
      var t := turns[0];
      var s1 := AfterTurn(Meant, s, t);
      TurnKeepsValid(Meant, s, t);
      RunsKeepCountersTame(Meant, s, [t]);
      OneTurn(Meant, s, t);
      if t.Replay? {
        TurnIsBatch(Meant, s, t);
        BatchWaits(s, BatchSize(s, t));
        BatchSpends(s, Batch(s, t), Scripts(s, t), p);
      } else {
        ArrivalHolds(Meant, s, t, p);
      }
      MeantRunSpends(s1, turns[1..], p);
    }
  }

  lemma {:induction false} RetriesBounded(dlq: seq<Entry>, p: Payload)
    requires AllTame(Meant, dlq)
    ensures 0 <= Retries(dlq, p) <= DLQ_MAX_RETRIES * InDlq(dlq, p)
  {
    if dlq != [] {
      RetriesBounded(dlq[..|dlq| - 1], p);
    }
  }

  /** Where an event is that has been handled h times. */
  ghost predicate Fate(s: Store, p: Payload, h: nat) {
    && h <= 4
    && (h <= 3 ==> InPoison(s.poison, p) == 0 && InDlq(s.dlq, p) == 1 && Retries(s.dlq, p) == h)
    && (h == 4 ==> InPoison(s.poison, p) == 1 && InDlq(s.dlq, p) == 0)
  }

  lemma SpentDecidesFate(s: Store, p: Payload, h: nat)
    requires AllTame(Meant, s.dlq) && Held(s, p) == 1 && Spent(s, p) == h
    ensures Fate(s, p, h)
  {
    RetriesBounded(s.dlq, p);
  }

  /** The meant order, with Redis working: an event that arrives once and is never published, whatever else
      arrives and is handled in between, waits with one retry more after each of its first three handlings,
      is poisoned once by the fourth, and is handled no more. */
  lemma MeantPoisonsAfterThreeRetries(s: Store, turns: seq<Turn>, p: Payload)
    requires Valid(s) && AllTame(Meant, s.dlq) && Held(s, p) == 0
    requires NeverPublished(Meant, s, turns, p) && AllWork(Meant, s, turns) && Arrivals(turns, p) == 1
    ensures Fate(RunTurns(Meant, s, turns), p, Handlings(Meant, s, turns, p))
  {
    MeantRunSpends(s, turns, p);
    RunsKeepCountersTame(Meant, s, turns);
    RetriesBounded(s.dlq, p);
    SpentDecidesFate(RunTurns(Meant, s, turns), p, Handlings(Meant, s, turns, p));
  }

  // ----- and it does get its handlings

  /** How many turns replay the whole stream. */
  function Rounds(order: Order, s: Store, turns: seq<Turn>): nat
    decreases |turns|
  {
    if turns == [] then 0
    else
      var t := turns[0];
      (if t.Replay? && |t.scripts| >= |s.dlq| then 1 else 0) + Rounds(order, AfterTurn(order, s, t), turns[1..])
  }

  lemma {:induction false} InBatchOneMore(batch: seq<Entry>, e: Entry, p: Payload)
    ensures InBatch(batch + [e], p) == InBatch(batch, p) + if e.data == p then 1 else 0
  {
    if batch == [] {
      assert (batch + [e])[1..] == [];
    } else {
      InBatchOneMore(batch[1..], e, p);
      assert (batch + [e])[1..] == batch[1..] + [e];
    }
  }

  lemma {:induction false} WholeBatch(dlq: seq<Entry>, p: Payload)
    ensures InBatch(dlq, p) == InDlq(dlq, p)
  {
    if dlq != [] {
      var init, last := dlq[..|dlq| - 1], dlq[|dlq| - 1];
      WholeBatch(init, p);
      InBatchOneMore(init, last, p);
      assert init + [last] == dlq;
    }
  }

  lemma {:induction false} RoundsHandle(s: Store, turns: seq<Turn>, p: Payload)
    requires Valid(s) && Held(s, p) >= 1 && NeverPublished(Meant, s, turns, p)
    requires InPoison(RunTurns(Meant, s, turns).poison, p) == 0
    ensures Handlings(Meant, s, turns, p) >= Rounds(Meant, s, turns)
    decreases |turns|
  {
    if turns != [] {
      var t := turns[0];
      var s1 := AfterTurn(Meant, s, t);
      TurnKeepsValid(Meant, s, t);
      RunHolds(Meant, s, turns, p);
      RunHolds(Meant, s, [t], p);
      OneTurn(Meant, s, t);
      if t.Replay? && |t.scripts| >= |s.dlq| {
        assert Batch(s, t) == s.dlq;
        WholeBatch(s.dlq, p);
      }
      RoundsHandle(s1, turns[1..], p);
    }
  }

  /** An event that waits and is never published is poisoned by the time the whole stream has been replayed
      four times. */
  lemma MeantPoisonsWithinFourRounds(s: Store, turns: seq<Turn>, p: Payload)
    requires Valid(s) && AllTame(Meant, s.dlq) && InDlq(s.dlq, p) == 1 && InPoison(s.poison, p) == 0
    requires NeverPublished(Meant, s, turns, p) && AllWork(Meant, s, turns) && Arrivals(turns, p) == 0
    requires Rounds(Meant, s, turns) >= 4
    ensures var s' := RunTurns(Meant, s, turns); InPoison(s'.poison, p) == 1 && InDlq(s'.dlq, p) == 0
  {
    var s' := RunTurns(Meant, s, turns);
    MeantRunSpends(s, turns, p);
    RunsKeepCountersTame(Meant, s, turns);
    RetriesBounded(s.dlq, p);
    RetriesBounded(s'.dlq, p);
    if InPoison(s'.poison, p) == 0 {
      RoundsHandle(s, turns, p);
      assert false;
    }
  }
}
