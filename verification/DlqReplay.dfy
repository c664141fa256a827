/** The replay of the Solana dead-letter stream (_solana_dlq_replay_loop in main.py): every Redis command
    may fail, before or after it took effect, and the task may stop between any two of them. */
module DlqReplay {

  /** The text of an event; NO_DATA stands for a missing or an empty one. */
  type Payload = int

  const NO_DATA: Payload := 0
  const DLQ_MAX_RETRIES := 3

  /** The _retry_count field: missing, a number, or text that is not one. */
  datatype RetryField = Absent | Number(n: int) | Garbage

  datatype Entry = Entry(id: nat, source: int, data: Payload, retry: RetryField)

  datatype Poison = Poison(originalId: nat, source: int, data: Payload)

  /** The two streams, what was published, and the next stream id. */
  datatype Store = Store(dlq: seq<Entry>, poison: seq<Poison>, published: seq<Payload>, nextId: nat)

  /** How a command ends: it works, it fails without effect, or it takes effect and fails all the same. */
  datatype Effect = Done | Lost | Ambiguous

  /** Which of the old and the new counter wins when an entry is put back: the source writes the new one
      first and spreads the old fields over it. */
  datatype Order = Literal | Meant

  function RetryCount(r: RetryField): int {
    if r.Number? then r.n else 0
  }

  function PutBack(order: Order, r: RetryField): RetryField {
    if order == Literal && r.Number? then r else Number(RetryCount(r) + 1)
  }

  // ----- commands

  function Without(dlq: seq<Entry>, id: nat): seq<Entry> {
    if dlq == [] then []
    else
      var init, last := Without(dlq[..|dlq| - 1], id), dlq[|dlq| - 1];
      if last.id == id then init else init + [last]
  }

  function AddPoison(s: Store, e: Entry, effect: Effect): Store {
    if effect == Lost then s else s.(poison := s.poison + [Poison(e.id, e.source, e.data)])
  }

  function AddBack(s: Store, e: Entry, retry: RetryField, effect: Effect): Store {
    if effect == Lost then s
    else s.(dlq := s.dlq + [Entry(s.nextId, e.source, e.data, retry)], nextId := s.nextId + 1)
  }

  function Publish(s: Store, data: Payload, effect: Effect): Store {
    if effect == Lost then s else s.(published := s.published + [data])
  }

  function Delete(s: Store, id: nat, effect: Effect): Store {
    if effect == Lost then s else s.(dlq := Without(s.dlq, id))
  }

  // ----- one entry

  /** How the commands for one entry end. A publish also fails when the text is not JSON. */
  datatype Script = Script(publish: Effect, add: Effect, delete: Effect)

  predicate Exhausted(e: Entry) {
    RetryCount(e.retry) >= DLQ_MAX_RETRIES
  }

  predicate Publishes(e: Entry, script: Script) {
    e.data != NO_DATA && script.publish == Done
  }

  /** The stores that the handling of one entry goes through, one after every command. */
  function Handling(order: Order, s: Store, e: Entry, script: Script): seq<Store> {
    if e.retry.Garbage? then []
    else if Exhausted(e) then
      var s1 := AddPoison(s, e, script.add);
      if script.add != Done then [s1] else [s1, Delete(s1, e.id, script.delete)]
    else
      var s1 := if e.data != NO_DATA then Publish(s, e.data, script.publish) else s;
      var first := if e.data != NO_DATA then [s1] else [];
      if Publishes(e, script) then first + [Delete(s1, e.id, script.delete)]
      else
        var s2 := AddBack(s1, e, PutBack(order, e.retry), script.add);
        if script.add != Done then first + [s2] else first + [s2, Delete(s2, e.id, script.delete)]
  }

  function Last(s: Store, stores: seq<Store>): Store {
    if stores == [] then s else stores[|stores| - 1]
  }

  /** The store after the handling. */
  function Handled(order: Order, s: Store, e: Entry, script: Script): Store {
    Last(s, Handling(order, s, e, script))
  }

  /** Whether the loop goes on to the next entry: every command worked, except perhaps the publish. */
  predicate Completes(e: Entry, script: Script) {
    !e.retry.Garbage? && script.delete == Done && (script.add == Done || (!Exhausted(e) && Publishes(e, script)))
  }

  // ----- where a payload is

  function InDlq(dlq: seq<Entry>, p: Payload): nat {
    if dlq == [] then 0 else InDlq(dlq[..|dlq| - 1], p) + if dlq[|dlq| - 1].data == p then 1 else 0
  }

  function InPoison(poison: seq<Poison>, p: Payload): nat {
    if poison == [] then 0 else InPoison(poison[..|poison| - 1], p) + if poison[|poison| - 1].data == p then 1 else 0
  }

  function InPublished(published: seq<Payload>, p: Payload): nat {
    if published == [] then 0
    else InPublished(published[..|published| - 1], p) + if published[|published| - 1] == p then 1 else 0
  }

  /** How often a payload is waiting, poisoned or published. */
  function Copies(s: Store, p: Payload): nat {
    InDlq(s.dlq, p) + InPoison(s.poison, p) + InPublished(s.published, p)
  }

  predicate Has(dlq: seq<Entry>, e: Entry) {
    dlq != [] && (dlq[|dlq| - 1] == e || Has(dlq[..|dlq| - 1], e))
  }

  ghost predicate Increasing(dlq: seq<Entry>) {
    forall i, j :: 0 <= i < j < |dlq| ==> dlq[i].id < dlq[j].id
  }

  /** Stream ids grow and are below the next one. */
  ghost predicate Valid(s: Store) {
    Increasing(s.dlq) && forall i :: 0 <= i < |s.dlq| ==> s.dlq[i].id < s.nextId
  }

  lemma {:induction false} WithoutAbsent(dlq: seq<Entry>, id: nat)
    requires forall i :: 0 <= i < |dlq| ==> dlq[i].id != id
    ensures Without(dlq, id) == dlq
  {
    if dlq != [] {
      WithoutAbsent(dlq[..|dlq| - 1], id);
    }
  }

  lemma {:induction false} HasIndex(dlq: seq<Entry>, e: Entry)
    requires Has(dlq, e)
    ensures exists i :: 0 <= i < |dlq| && dlq[i] == e
  {
    if dlq[|dlq| - 1] != e {
      HasIndex(dlq[..|dlq| - 1], e);
    }
  }

  /** Deleting a waiting entry takes away one copy of its payload. */
  lemma {:induction false} WithoutTakesOne(dlq: seq<Entry>, e: Entry, p: Payload)
    requires Has(dlq, e) && Increasing(dlq)
    ensures InDlq(Without(dlq, e.id), p) == InDlq(dlq, p) - if e.data == p then 1 else 0
  {
    var init, last := dlq[..|dlq| - 1], dlq[|dlq| - 1];
    if last == e {
      WithoutAbsent(init, e.id);
    } else {
      HasIndex(init, e);
      WithoutTakesOne(init, e, p);
      var rest := Without(init, e.id);
      assert (rest + [last])[..|rest|] == rest;
    }
  }

  lemma {:induction false} WithoutKeepsOthers(dlq: seq<Entry>, id: nat, x: Entry)
    requires Has(dlq, x) && x.id != id
    ensures Has(Without(dlq, id), x)
  {
    var init, last := dlq[..|dlq| - 1], dlq[|dlq| - 1];
    var rest := Without(init, id);
    assert (rest + [last])[..|rest|] == rest;
    if last != x {
      WithoutKeepsOthers(init, id, x);
    }
  }

  lemma {:induction false} WithoutKeepsOrder(dlq: seq<Entry>, id: nat, bound: nat)
    requires Increasing(dlq) && forall i :: 0 <= i < |dlq| ==> dlq[i].id < bound
    ensures Increasing(Without(dlq, id))
    ensures forall i :: 0 <= i < |Without(dlq, id)| ==> Without(dlq, id)[i].id < bound
  {
    if dlq != [] {
      WithoutKeepsOrder(dlq[..|dlq| - 1], id, dlq[|dlq| - 1].id);
    }
  }

  // ----- what every command does to the copies, the order and the other entries

  lemma AddPoisonEffect(s: Store, e: Entry, effect: Effect, p: Payload)
    ensures Copies(AddPoison(s, e, effect), p) == Copies(s, p) + if effect != Lost && e.data == p then 1 else 0
  {
    assert (s.poison + [Poison(e.id, e.source, e.data)])[..|s.poison|] == s.poison;
  }

  lemma PublishEffect(s: Store, data: Payload, effect: Effect, p: Payload)
    ensures Copies(Publish(s, data, effect), p) == Copies(s, p) + if effect != Lost && data == p then 1 else 0
  {
    assert (s.published + [data])[..|s.published|] == s.published;
  }

  lemma AddBackEffect(s: Store, e: Entry, retry: RetryField, effect: Effect, p: Payload)
    requires Valid(s)
    ensures var s' := AddBack(s, e, retry, effect);
      && Copies(s', p) == Copies(s, p) + (if effect != Lost && e.data == p then 1 else 0)
      && Valid(s')
      && (forall x :: Has(s.dlq, x) ==> Has(s'.dlq, x))
  {
    var e' := Entry(s.nextId, e.source, e.data, retry);
    assert (s.dlq + [e'])[..|s.dlq|] == s.dlq;
  }

  lemma DeleteEffect(s: Store, e: Entry, effect: Effect, p: Payload)
    requires Valid(s) && Has(s.dlq, e)
    ensures var s' := Delete(s, e.id, effect);
      && Copies(s', p) == Copies(s, p) - (if effect != Lost && e.data == p then 1 else 0)
      && Valid(s')
      && (forall x :: Has(s.dlq, x) && x.id != e.id ==> Has(s'.dlq, x))
  {
    WithoutTakesOne(s.dlq, e, p);
    WithoutKeepsOrder(s.dlq, e.id, s.nextId);
    forall x | Has(s.dlq, x) && x.id != e.id ensures Has(Without(s.dlq, e.id), x) {
      WithoutKeepsOthers(s.dlq, e.id, x);
    }
  }

  // ----- nothing is lost

  /** A store is no worse than another one for a payload, and keeps the other waiting entries. */
  ghost predicate Keeps(s: Store, s': Store, e: Entry, p: Payload) {
    && Valid(s')
    && Copies(s', p) >= Copies(s, p)
    && (forall x :: Has(s.dlq, x) && x.id != e.id ==> Has(s'.dlq, x))
  }

  /** s1 is s with one more copy of the payload of e. */
  ghost predicate Copied(s: Store, s1: Store, e: Entry, p: Payload) {
    && Valid(s1)
    && Copies(s1, p) == Copies(s, p) + (if e.data == p then 1 else 0)
    && (forall x :: Has(s.dlq, x) ==> Has(s1.dlq, x))
  }

  /** Once there is another copy, deleting the entry gives back what there was. */
  lemma DeleteAfterCopy(s: Store, s1: Store, e: Entry, effect: Effect, p: Payload)
    requires Has(s.dlq, e) && Copied(s, s1, e, p)
    ensures Keeps(s, Delete(s1, e.id, effect), e, p)
    ensures effect == Done ==> Copies(Delete(s1, e.id, effect), p) == Copies(s, p)
  {
    DeleteEffect(s1, e, effect, p);
  }

  lemma KeepsExhausted(s: Store, e: Entry, script: Script, p: Payload)
    requires Valid(s) && Has(s.dlq, e)
    ensures Keeps(s, AddPoison(s, e, script.add), e, p)
    ensures script.add == Done ==> Keeps(s, Delete(AddPoison(s, e, script.add), e.id, script.delete), e, p)
  {
    AddPoisonEffect(s, e, script.add, p);
    if script.add == Done {
      DeleteAfterCopy(s, AddPoison(s, e, script.add), e, script.delete, p);
    }
  }

  lemma KeepsPublished(s: Store, e: Entry, script: Script, p: Payload)
    requires Valid(s) && Has(s.dlq, e)
    ensures Keeps(s, Publish(s, e.data, script.publish), e, p) && Has(Publish(s, e.data, script.publish).dlq, e)
    ensures script.publish == Done ==> Keeps(s, Delete(Publish(s, e.data, script.publish), e.id, script.delete), e, p)
  {
    PublishEffect(s, e.data, script.publish, p);
    if script.publish == Done {
      DeleteAfterCopy(s, Publish(s, e.data, script.publish), e, script.delete, p);
    }
  }

  lemma KeepsPutBack(s: Store, e: Entry, retry: RetryField, script: Script, p: Payload)
    requires Valid(s) && Has(s.dlq, e)
    ensures Keeps(s, AddBack(s, e, retry, script.add), e, p)
    ensures script.add == Done ==> Keeps(s, Delete(AddBack(s, e, retry, script.add), e.id, script.delete), e, p)
  {
    AddBackEffect(s, e, retry, script.add, p);
    if script.add == Done {
      DeleteAfterCopy(s, AddBack(s, e, retry, script.add), e, script.delete, p);
    }
  }

  ghost predicate AllKeep(s: Store, stores: seq<Store>, e: Entry, p: Payload) {
    forall k :: 0 <= k < |stores| ==> Keeps(s, stores[k], e, p)
  }

  lemma PutBackKeepsAll(s: Store, s1: Store, e: Entry, retry: RetryField, script: Script, p: Payload)
    requires Has(s.dlq, e) && Has(s1.dlq, e) && Keeps(s, s1, e, p)
    ensures var s2 := AddBack(s1, e, retry, script.add);
      AllKeep(s, [s2], e, p) && (script.add == Done ==> AllKeep(s, [s2, Delete(s2, e.id, script.delete)], e, p))
  {
    KeepsPutBack(s1, e, retry, script, p);
    var s2 := AddBack(s1, e, retry, script.add);
    assert Keeps(s, s2, e, p);
    assert script.add == Done ==> Keeps(s, Delete(s2, e.id, script.delete), e, p);
  }

  lemma PublishedShape(order: Order, s: Store, e: Entry, script: Script)
    requires !Exhausted(e) && !e.retry.Garbage? && Publishes(e, script)
    ensures var s1 := Publish(s, e.data, Done);
      Handling(order, s, e, script) == [s1, Delete(s1, e.id, script.delete)]
  {
  }

  lemma PublishedKeepsAll(order: Order, s: Store, e: Entry, script: Script, p: Payload)
    requires Valid(s) && Has(s.dlq, e) && !Exhausted(e) && !e.retry.Garbage? && Publishes(e, script)
    ensures AllKeep(s, Handling(order, s, e, script), e, p)
  {
    KeepsPublished(s, e, script, p);
    PublishedShape(order, s, e, script);
  }

  lemma UnpublishedShape(order: Order, s: Store, e: Entry, script: Script)
    requires !Exhausted(e) && !e.retry.Garbage? && !Publishes(e, script)
    ensures var s1 := if e.data != NO_DATA then Publish(s, e.data, script.publish) else s;
      var s2 := AddBack(s1, e, PutBack(order, e.retry), script.add);
      Handling(order, s, e, script) == (if e.data != NO_DATA then [s1] else [])
        + if script.add != Done then [s2] else [s2, Delete(s2, e.id, script.delete)]
  {
  }

  lemma UnpublishedKeepsAll(order: Order, s: Store, e: Entry, script: Script, p: Payload)
    requires Valid(s) && Has(s.dlq, e) && !Exhausted(e) && !e.retry.Garbage? && !Publishes(e, script)
    ensures AllKeep(s, Handling(order, s, e, script), e, p)
  {
    var s1 := if e.data != NO_DATA then Publish(s, e.data, script.publish) else s;
    KeepsPublished(s, e, script, p);
    PutBackKeepsAll(s, s1, e, PutBack(order, e.retry), script, p);
    UnpublishedShape(order, s, e, script);
  }

  /** Nothing is lost at any point of the handling of an entry, whichever commands fail and wherever the
      task is stopped, with either order of the counters; and the other entries stay. */
  lemma NothingIsLost(order: Order, s: Store, e: Entry, script: Script, p: Payload)
    requires Valid(s) && Has(s.dlq, e)
    ensures AllKeep(s, Handling(order, s, e, script), e, p)
  {
    if Exhausted(e) {
      KeepsExhausted(s, e, script, p);
    } else if !e.retry.Garbage? {
      if Publishes(e, script) {
        PublishedKeepsAll(order, s, e, script, p);
      } else {
        UnpublishedKeepsAll(order, s, e, script, p);
      }
    }
  }

  /** What a handling with working Redis does to the entry itself: it is published, put back once with the
      next counter, or poisoned once. */
  lemma HandlingDecides(order: Order, s: Store, e: Entry, script: Script)
    requires Completes(e, script)
    ensures var s' := Handled(order, s, e, script);
      if Exhausted(e) then s' == Delete(AddPoison(s, e, Done), e.id, Done)
      else
        var s1 := if e.data != NO_DATA then Publish(s, e.data, script.publish) else s;
        s' == Delete(if Publishes(e, script) then s1 else AddBack(s1, e, PutBack(order, e.retry), Done), e.id, Done)
  {
  }

  /** With every Redis command working and a publish that fails without effect, if it fails, the handling
      of an entry moves its payload: no copy is lost and none is made. */
  lemma FailureFreeStepConserves(order: Order, s: Store, e: Entry, script: Script, p: Payload)
    requires Valid(s) && Has(s.dlq, e)
    requires Completes(e, script) && script.publish != Ambiguous
    ensures Copies(Handled(order, s, e, script), p) == Copies(s, p)
  {
    HandlingDecides(order, s, e, script);
    AddPoisonEffect(s, e, Done, p);
    PublishEffect(s, e.data, Done, p);
    AddBackEffect(s, e, PutBack(order, e.retry), Done, p);
    var s1 := if Exhausted(e) then AddPoison(s, e, Done)
              else if Publishes(e, script) then Publish(s, e.data, Done)
              else AddBack(s, e, PutBack(order, e.retry), Done);
    DeleteAfterCopy(s, s1, e, Done, p);
    assert Handled(order, s, e, script) == Delete(s1, e.id, Done);
  }

  // ----- the loop

  /** The handling of a batch: the entries in order, up to the first that does not complete. */
  function BatchStores(order: Order, s: Store, batch: seq<Entry>, scripts: seq<Script>): seq<Store>
    requires |scripts| == |batch|
    decreases |batch|
  {
    if batch == [] then []
    else
      Handling(order, s, batch[0], scripts[0]) +
        if Completes(batch[0], scripts[0])
        then BatchStores(order, Handled(order, s, batch[0], scripts[0]), batch[1..], scripts[1..]) else []
  }

  /** The store after the batch. */
  function AfterBatch(order: Order, s: Store, batch: seq<Entry>, scripts: seq<Script>): Store
    requires |scripts| == |batch|
    decreases |batch|
  {
    if batch == [] then s
    else
      var s' := Handled(order, s, batch[0], scripts[0]);
      if Completes(batch[0], scripts[0]) then AfterBatch(order, s', batch[1..], scripts[1..]) else s'
  }

  lemma {:induction false} BatchEndsInLast(order: Order, s: Store, batch: seq<Entry>, scripts: seq<Script>)
    requires |scripts| == |batch|
    ensures AfterBatch(order, s, batch, scripts) == Last(s, BatchStores(order, s, batch, scripts))
    decreases |batch|
  {
    if batch != [] && Completes(batch[0], scripts[0]) {
      BatchEndsInLast(order, Handled(order, s, batch[0], scripts[0]), batch[1..], scripts[1..]);
    }
  }

  lemma BatchStep(order: Order, s: Store, batch: seq<Entry>, scripts: seq<Script>, k: nat)
    requires |scripts| == |batch| && k < |batch|
    ensures var s', going := Handled(order, s, batch[k], scripts[k]), Completes(batch[k], scripts[k]);
      && AfterBatch(order, s, batch[k..], scripts[k..])
         == (if going then AfterBatch(order, s', batch[k + 1..], scripts[k + 1..]) else s')
      && BatchStores(order, s, batch[k..], scripts[k..])
         == Handling(order, s, batch[k], scripts[k])
            + if going then BatchStores(order, s', batch[k + 1..], scripts[k + 1..]) else []
  {
    assert batch[k..][1..] == batch[k + 1..] && scripts[k..][1..] == scripts[k + 1..];
  }

  /** The rest of the batch leads from the store to the goal, and on from the history to all the stores. */
  ghost predicate LeadsTo(order: Order, s: Store, history: seq<Store>, batch: seq<Entry>, scripts: seq<Script>,
                          goal: Store, stores: seq<Store>)
    requires |scripts| == |batch|
  {
    && goal == AfterBatch(order, s, batch, scripts)
    && stores == history + BatchStores(order, s, batch, scripts)
  }

  lemma LeadsOn(order: Order, s: Store, history: seq<Store>, batch: seq<Entry>, scripts: seq<Script>, k: nat,
                goal: Store, stores: seq<Store>)
    requires |scripts| == |batch| && k < |batch|
    requires LeadsTo(order, s, history, batch[k..], scripts[k..], goal, stores)
    ensures var s', stores' := Handled(order, s, batch[k], scripts[k]), Handling(order, s, batch[k], scripts[k]);
      var history' := history + stores';
      if Completes(batch[k], scripts[k])
      then LeadsTo(order, s', history', batch[k + 1..], scripts[k + 1..], goal, stores)
      else s' == goal && history' == stores
  {
    BatchStep(order, s, batch, scripts, k);
    var rest := BatchStores(order, Handled(order, s, batch[k], scripts[k]), batch[k + 1..], scripts[k + 1..]);
    var handling := Handling(order, s, batch[k], scripts[k]);
    AppendIsAssociative(history, handling, rest);
  }

  lemma AppendIsAssociative(a: seq<Store>, b: seq<Store>, c: seq<Store>)
    ensures (a + b) + c == a + (b + c) && b + [] == b
  {
  }

  /** Waiting entries, each once. */
  ghost predicate Waiting(s: Store, batch: seq<Entry>) {
    && (forall i :: 0 <= i < |batch| ==> Has(s.dlq, batch[i]))
    && (forall i, j :: 0 <= i < j < |batch| ==> batch[i].id != batch[j].id)
  }

  lemma HandlingKeepsWaiting(order: Order, s: Store, batch: seq<Entry>, script: Script, p: Payload)
    requires Valid(s) && batch != [] && Waiting(s, batch)
    ensures var s' := Handled(order, s, batch[0], script);
      Valid(s') && Copies(s', p) >= Copies(s, p) && Waiting(s', batch[1..])
  {
    NothingIsLost(order, s, batch[0], script, p);
  }

  /** Nothing is lost at any point of a batch read from the stream. */
  lemma {:induction false} BatchLosesNothing(order: Order, s: Store, batch: seq<Entry>,
                                            scripts: seq<Script>, p: Payload)
    requires |scripts| == |batch| && Valid(s) && Waiting(s, batch)
    ensures forall k :: 0 <= k < |BatchStores(order, s, batch, scripts)| ==>
      Valid(BatchStores(order, s, batch, scripts)[k]) &&
      Copies(BatchStores(order, s, batch, scripts)[k], p) >= Copies(s, p)
    decreases |batch|
  {
    if batch != [] {
      var e, script := batch[0], scripts[0];
      NothingIsLost(order, s, e, script, p);
      HandlingKeepsWaiting(order, s, batch, script, p);
      if Completes(e, script) {
        BatchLosesNothing(order, Handled(order, s, e, script), batch[1..], scripts[1..], p);
      }
      assert forall k :: 0 <= k < |Handling(order, s, e, script)| ==> Keeps(s, Handling(order, s, e, script)[k], e, p);
    }
  }

  /** What happens to the stream over time: a new event arrives, or a batch is replayed, of as many
      entries as there are scripts. */
  datatype Turn = Arrive(source: int, data: Payload) | Replay(scripts: seq<Script>)

  function BatchSize(s: Store, t: Turn): nat
    requires t.Replay?
  {
    if |s.dlq| <= |t.scripts| then |s.dlq| else |t.scripts|
  }

  /** All the stores of a turn. */
  function TurnStores(order: Order, s: Store, t: Turn): seq<Store> {
    match t
    case Arrive(source, data) => [s.(dlq := s.dlq + [Entry(s.nextId, source, data, Absent)], nextId := s.nextId + 1)]
    case Replay(scripts) => BatchStores(order, s, s.dlq[..BatchSize(s, t)], scripts[..BatchSize(s, t)])
  }

  function AfterTurn(order: Order, s: Store, t: Turn): Store {
    Last(s, TurnStores(order, s, t))
  }

  lemma {:induction false} HasAt(dlq: seq<Entry>, i: nat)
    requires i < |dlq|
    ensures Has(dlq, dlq[i])
  {
    if i < |dlq| - 1 {
      HasAt(dlq[..|dlq| - 1], i);
    }
  }

  lemma TurnLosesNothing(order: Order, s: Store, t: Turn, p: Payload)
    requires Valid(s)
    ensures forall k :: 0 <= k < |TurnStores(order, s, t)| ==>
      Valid(TurnStores(order, s, t)[k]) && Copies(TurnStores(order, s, t)[k], p) >= Copies(s, p)
  {
    if t.Arrive? {
      var e := Entry(s.nextId, t.source, t.data, Absent);
      assert (s.dlq + [e])[..|s.dlq|] == s.dlq;
    } else {
      var batch := s.dlq[..BatchSize(s, t)];
      forall i | 0 <= i < |batch| ensures Has(s.dlq, batch[i]) {
        HasAt(s.dlq, i);
      }
      BatchLosesNothing(order, s, batch, t.scripts[..BatchSize(s, t)], p);
    }
  }

  function RunTurns(order: Order, s: Store, turns: seq<Turn>): Store
    decreases |turns|
  {
    if turns == [] then s else RunTurns(order, AfterTurn(order, s, turns[0]), turns[1..])
  }

  /** Over every run: arrivals and replays in any order, with any failures. */
  lemma {:induction false} RunLosesNothing(order: Order, s: Store, turns: seq<Turn>, p: Payload)
    requires Valid(s)
    ensures Valid(RunTurns(order, s, turns)) && Copies(RunTurns(order, s, turns), p) >= Copies(s, p)
    decreases |turns|
  {
    if turns != [] {
      TurnLosesNothing(order, s, turns[0], p);
      RunLosesNothing(order, AfterTurn(order, s, turns[0]), turns[1..], p);
    }
  }

  class Replayer {
    const order: Order
    var store: Store
    ghost var history: seq<Store>  // the store after every command

    constructor (order: Order, store: Store)
      ensures this.store == store && this.order == order && history == []
    {
      this.store, this.order, history := store, order, [];
    }

    /** The body of the loop over a batch: one entry. */
    method HandleMessage(e: Entry, script: Script) returns (completed: bool)
      modifies this
      ensures store == Handled(order, old(store), e, script)
      ensures history == old(history) + Handling(order, old(store), e, script)
      ensures completed == Completes(e, script)
    {
      if e.retry.Garbage? {  // int(...) raises
        return false;
      }
      var retryCount := RetryCount(e.retry);
      if retryCount >= DLQ_MAX_RETRIES {
        store := AddPoison(store, e, script.add);
        history := history + [store];
        if script.add != Done {
          return false;
        }
        store := Delete(store, e.id, script.delete);
        history := history + [store];
        return script.delete == Done;
      }
      var success := false;
      if e.data != NO_DATA {
        store := Publish(store, e.data, script.publish);
        history := history + [store];
        success := script.publish == Done;
      }
      if !success {
        store := AddBack(store, e, PutBack(order, e.retry), script.add);
        history := history + [store];
        if script.add != Done {
          return false;
        }
      }
      store := Delete(store, e.id, script.delete);
      history := history + [store];
      return script.delete == Done;
    }

    /** One turn of the loop: the entries read from the head of the stream. */
    method ReplayBatch(batch: seq<Entry>, scripts: seq<Script>)
      requires |scripts| == |batch|
      modifies this
      ensures store == AfterBatch(order, old(store), batch, scripts)
      ensures history == old(history) + BatchStores(order, old(store), batch, scripts)
    {
      ghost var goal := AfterBatch(order, store, batch, scripts);
      ghost var stores := history + BatchStores(order, store, batch, scripts);
      var k, going := 0, true;
      assert batch[0..] == batch && scripts[0..] == scripts;
      while going && k < |batch|
        invariant 0 <= k <= |batch|
        invariant if going then LeadsTo(order, store, history, batch[k..], scripts[k..], goal, stores)
                  else store == goal && history == stores
        decreases |batch| - k, going
      {
        LeadsOn(order, store, history, batch, scripts, k, goal, stores);
        going := HandleMessage(batch[k], scripts[k]);
        k := k + 1;
      }
    }
  }

  // ----- retries

  /** The counter after k handlings whose publish failed. */
  function CountAfter(order: Order, r: RetryField, k: nat): RetryField {
    if k == 0 then r else PutBack(order, CountAfter(order, r, k - 1))
  }

  /** With the order that is evidently meant, an entry that keeps failing is poisoned at its first handling
      after three retries. */
  lemma {:induction false} MeantRetriesAreBounded(r: RetryField, k: nat)
    requires !r.Garbage?
    ensures RetryCount(CountAfter(Meant, r, k)) == RetryCount(r) + k
    ensures RetryCount(CountAfter(Meant, r, k)) >= DLQ_MAX_RETRIES <==> k >= DLQ_MAX_RETRIES - RetryCount(r)
  {
    if k > 0 {
      MeantRetriesAreBounded(r, k - 1);
    }
  }

  /** In the literal order the old counter wins: a new entry's counter is 1 from the first retry on. */
  lemma {:induction false} LiteralCounterIsPinned(r: RetryField, k: nat)
    requires !r.Garbage?
    ensures CountAfter(Literal, r, k) == if k == 0 then r else if r.Absent? then Number(1) else r
  {
    if k > 0 {
      LiteralCounterIsPinned(r, k - 1);
    }
  }

  /** Redis works and the publish fails without effect. */
  const FAILED_PUBLISH := Script(Lost, Done, Done)

  /** An event through n handlings whose publish fails: the store, and the entry that carries it. */
  function Retried(order: Order, s: Store, e: Entry, n: nat): (Store, Entry) {
    if n == 0 then (s, e)
    else
      var (s', e') := Retried(order, s, e, n - 1);
      (Handled(order, s', e', FAILED_PUBLISH), Entry(s'.nextId, e'.source, e'.data, PutBack(order, e'.retry)))
  }

  /** The event of e0 is still waiting, as e, and nothing was poisoned or published since s0. */
  ghost predicate StillWaits(s0: Store, e0: Entry, s: Store, e: Entry) {
    && Valid(s) && Has(s.dlq, e) && !e.retry.Garbage?
    && e.data == e0.data && e.source == e0.source
    && s.poison == s0.poison && s.published == s0.published
  }

  lemma OneRetry(order: Order, s: Store, e: Entry)
    requires Valid(s) && Has(s.dlq, e) && !e.retry.Garbage? && !Exhausted(e)
    ensures StillWaits(s, e, Handled(order, s, e, FAILED_PUBLISH),
                        Entry(s.nextId, e.source, e.data, PutBack(order, e.retry)))
  {
    var retry := PutBack(order, e.retry);
    var s1, e' := AddBack(s, e, retry, Done), Entry(s.nextId, e.source, e.data, retry);
    HandlingDecides(order, s, e, FAILED_PUBLISH);
    AddBackEffect(s, e, retry, Done, e.data);
    assert Has(s1.dlq, e');
    HasIndex(s.dlq, e);
    DeleteEffect(s1, e, Done, e.data);
  }

  /** As long as its counter stays below the limit, the event is put back with the next counter. */
  lemma {:induction false} RetriedGoesRound(order: Order, s: Store, e: Entry, n: nat)
    requires Valid(s) && Has(s.dlq, e) && !e.retry.Garbage?
    requires forall k: nat :: k < n ==> RetryCount(CountAfter(order, e.retry, k)) < DLQ_MAX_RETRIES
    ensures var (s', e') := Retried(order, s, e, n);
      StillWaits(s, e, s', e') && e'.retry == CountAfter(order, e.retry, n)
  {
    if n > 0 {
      RetriedGoesRound(order, s, e, n - 1);
      var (s', e') := Retried(order, s, e, n - 1);
      assert RetryCount(CountAfter(order, e.retry, n - 1)) < DLQ_MAX_RETRIES;
      OneRetry(order, s', e');
      var next := Entry(s'.nextId, e'.source, e'.data, PutBack(order, e'.retry));
      assert Retried(order, s, e, n) == (Handled(order, s', e', FAILED_PUBLISH), next);
    }
  }
}
