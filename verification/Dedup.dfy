/** Duplicate suppression in front of publishing: an in-memory cache of the last accepted hashes, backed
    by Redis keys that expire (_is_duplicate and _publish_normalized in polymarket_ws.py, with dedup.py). */
module Dedup {
  import opened Options

  /** An event hash; only its identity matters. */
  type Hash = int

  const MAX_HASH_CACHE := 1000
  const DEDUP_TTL_SECONDS := 3600.0

  /** One call for a hash, with the clock at the Redis lookup and at the Redis write and whether each of
      them goes through; a failing one has no effect and is swallowed. */
  datatype Call = Call(hash: Hash, check: real, checkOk: bool, mark: real, markOk: bool)

  /** recent and order are the in-memory cache; redis maps a hash to the time its key expires. */
  datatype Cache = Cache(recent: set<Hash>, order: seq<Hash>, redis: map<Hash, real>)

  const EMPTY := Cache({}, [], map[])

  predicate InRedis(c: Cache, h: Hash, now: real) {
    h in c.redis && now < c.redis[h]
  }

  predicate IsDuplicate(enabled: bool, c: Cache, call: Call) {
    call.hash in c.recent || (enabled && call.checkOk && InRedis(c, call.hash, call.check))
  }

  function Remember(enabled: bool, c: Cache, call: Call): Cache {
    var order := c.order + [call.hash];
    var redis := if enabled && call.markOk then c.redis[call.hash := call.mark + DEDUP_TTL_SECONDS] else c.redis;
    if |order| > MAX_HASH_CACHE then Cache(c.recent + {call.hash} - {order[0]}, order[1..], redis)
    else Cache(c.recent + {call.hash}, order, redis)
  }

  function Apply(enabled: bool, c: Cache, call: Call): Cache {
    if IsDuplicate(enabled, c, call) then c else Remember(enabled, c, call)
  }

  class Ingester {
    const dedupRedisEnabled: bool
    var recentHashes: set<Hash>
    var recentHashOrder: seq<Hash>
    var redis: map<Hash, real>
    var duplicateEventsDetected: nat
    var redisDedupHits: nat
    var redisDedupSkipped: nat
    var published: seq<Hash>
    var dropped: nat

    ghost function View(): Cache
      reads this
    {
      Cache(recentHashes, recentHashOrder, redis)
    }

    constructor (enabled: bool)
      ensures View() == EMPTY && dedupRedisEnabled == enabled && published == [] && dropped == 0
      ensures duplicateEventsDetected == 0
    {
      dedupRedisEnabled := enabled;
      recentHashes, recentHashOrder, redis := {}, [], map[];
      duplicateEventsDetected, redisDedupHits, redisDedupSkipped := 0, 0, 0;
      published, dropped := [], 0;
    }

    method CheckDuplicate(call: Call) returns (duplicate: bool)
      modifies this
      ensures View() == Apply(dedupRedisEnabled, old(View()), call)
      ensures duplicate <==> IsDuplicate(dedupRedisEnabled, old(View()), call)
      ensures duplicateEventsDetected == old(duplicateEventsDetected) + if duplicate then 1 else 0
      ensures redisDedupHits == old(redisDedupHits) + if duplicate && call.hash !in old(recentHashes) then 1 else 0
      ensures redisDedupSkipped == old(redisDedupSkipped) + if dedupRedisEnabled && !duplicate then 1 else 0
      ensures published == old(published) && dropped == old(dropped)
    {
      if call.hash in recentHashes {
        duplicateEventsDetected := duplicateEventsDetected + 1;
        return true;
      }
      if dedupRedisEnabled {
        var redisDup := call.checkOk && call.hash in redis && call.check < redis[call.hash];
        if redisDup {
          redisDedupHits := redisDedupHits + 1;
          duplicateEventsDetected := duplicateEventsDetected + 1;
          return true;
        }
        redisDedupSkipped := redisDedupSkipped + 1;
      }
      recentHashes := recentHashes + {call.hash};
      recentHashOrder := recentHashOrder + [call.hash];
      if |recentHashOrder| > MAX_HASH_CACHE {
        var oldest := recentHashOrder[0];
        recentHashOrder := recentHashOrder[1..];
        recentHashes := recentHashes - {oldest};
      }
      if dedupRedisEnabled && call.markOk {
        redis := redis[call.hash := call.mark + DEDUP_TTL_SECONDS];
      }
      return false;
    }

    /** A normalized event: dropped when invalid, a duplicate or not publishable. Its hash is remembered
        before the publish, so a publish that fails is not retried. */
    method PublishNormalized(valid: bool, call: Call, publishOk: bool)
      modifies this
      ensures View() == if valid then Apply(dedupRedisEnabled, old(View()), call) else old(View())
      ensures var accepted := valid && !IsDuplicate(dedupRedisEnabled, old(View()), call);
        && published == (if accepted && publishOk then old(published) + [call.hash] else old(published))
        && dropped == old(dropped) + (if accepted && publishOk then 0 else 1)
    {
      if !valid {
        dropped := dropped + 1;
        return;
      }
      var duplicate := CheckDuplicate(call);
      if duplicate {
        dropped := dropped + 1;
        return;
      }
      if publishOk {
        published := published + [call.hash];
      } else {
        dropped := dropped + 1;
      }
    }
  }

  // ----- whole runs

  function Run(enabled: bool, calls: seq<Call>): Cache {
    if calls == [] then EMPTY else Apply(enabled, Run(enabled, calls[..|calls| - 1]), calls[|calls| - 1])
  }

  /** The calls that were accepted. */
  function Accepted(enabled: bool, calls: seq<Call>): (accepted: seq<Call>)
    ensures |accepted| <= |calls|
  {
    if calls == [] then []
    else
      var init, call := calls[..|calls| - 1], calls[|calls| - 1];
      if IsDuplicate(enabled, Run(enabled, init), call) then Accepted(enabled, init)
      else Accepted(enabled, init) + [call]
  }

  /** The first index of the last MAX_HASH_CACHE entries of a list of length n. */
  function CacheStart(n: nat): nat {
    if n <= MAX_HASH_CACHE then 0 else n - MAX_HASH_CACHE
  }

  function Hashes(calls: seq<Call>): (hashes: seq<Hash>)
    ensures |hashes| == |calls| && forall i :: 0 <= i < |calls| ==> hashes[i] == calls[i].hash
  {
    seq(|calls|, i requires 0 <= i < |calls| => calls[i].hash)
  }

  ghost predicate Distinct(hashes: seq<Hash>) {
    forall i, j :: 0 <= i < j < |hashes| ==> hashes[i] != hashes[j]
  }

  /** The cache agrees with the history: the order list holds the hashes of the last accepted calls, up to
      1000 of them, without repeats, and the set holds the same hashes. */
  ghost predicate AgreesWith(c: Cache, accepted: seq<Call>) {
    && c.order == Hashes(accepted)[CacheStart(|accepted|)..]
    && Distinct(c.order)
    && (forall h :: h in c.recent <==> h in c.order)
  }

  lemma AddOne(recent: set<Hash>, order: seq<Hash>, h: Hash)
    requires Distinct(order) && (forall x :: x in recent <==> x in order) && h !in recent
    ensures Distinct(order + [h])
    ensures forall x :: x in recent + {h} <==> x in order + [h]
  {
  }

  lemma DropOldest(recent: set<Hash>, order: seq<Hash>)
    requires Distinct(order) && order != [] && (forall x :: x in recent <==> x in order)
    ensures Distinct(order[1..])
    ensures forall x :: x in recent - {order[0]} <==> x in order[1..]
  {
    forall x ensures x in order <==> x == order[0] || x in order[1..] {
    }
    assert order[0] !in order[1..];
  }

  lemma HashesOneMore(accepted: seq<Call>, call: Call)
    ensures Hashes(accepted + [call]) == Hashes(accepted) + [call.hash]
  {
  }

  lemma LastOneMore(hashes: seq<Hash>, start: nat, h: Hash)
    requires start <= |hashes|
    ensures hashes[start..] + [h] == (hashes + [h])[start..]
    ensures (hashes[start..] + [h])[1..] == (hashes + [h])[start + 1..]
  {
  }

  lemma StillFits(c: Cache, accepted: seq<Call>, call: Call)
    requires AgreesWith(c, accepted) && call.hash !in c.recent && |c.order| < MAX_HASH_CACHE
    ensures c.order + [call.hash] == Hashes(accepted + [call])[CacheStart(|accepted| + 1)..]
  {
    HashesOneMore(accepted, call);
    LastOneMore(Hashes(accepted), 0, call.hash);
  }

  lemma PushesOutOldest(c: Cache, accepted: seq<Call>, call: Call)
    requires AgreesWith(c, accepted) && call.hash !in c.recent && |c.order| >= MAX_HASH_CACHE
    ensures (c.order + [call.hash])[1..] == Hashes(accepted + [call])[CacheStart(|accepted| + 1)..]
  {
    HashesOneMore(accepted, call);
    LastOneMore(Hashes(accepted), CacheStart(|accepted|), call.hash);
  }

  lemma RememberKeepsAgreement(enabled: bool, c: Cache, accepted: seq<Call>, call: Call)
    requires AgreesWith(c, accepted) && call.hash !in c.recent
    ensures AgreesWith(Remember(enabled, c, call), accepted + [call])
  {
    AddOne(c.recent, c.order, call.hash);
    if |c.order| < MAX_HASH_CACHE {
      StillFits(c, accepted, call);
    } else {
      PushesOutOldest(c, accepted, call);
      DropOldest(c.recent + {call.hash}, c.order + [call.hash]);
    }
  }

  lemma CachedIfRecent(c: Cache, accepted: seq<Call>, i: nat)
    requires AgreesWith(c, accepted) && CacheStart(|accepted|) <= i < |accepted|
    ensures accepted[i].hash in c.recent
  {
    assert c.order[i - CacheStart(|accepted|)] == accepted[i].hash;
  }

  lemma {:induction false} CacheAgreesWithHistory(enabled: bool, calls: seq<Call>)
    ensures AgreesWith(Run(enabled, calls), Accepted(enabled, calls))
  {
    if calls != [] {
      var init, call := calls[..|calls| - 1], calls[|calls| - 1];
      CacheAgreesWithHistory(enabled, init);
      if !IsDuplicate(enabled, Run(enabled, init), call) {
        RememberKeepsAgreement(enabled, Run(enabled, init), Accepted(enabled, init), call);
      }
    }
  }

  /** A hash that the cache does not know was last accepted long ago. */
  lemma NewHashIsOld(c: Cache, accepted: seq<Call>, i: nat, h: Hash)
    requires AgreesWith(c, accepted) && h !in c.recent && i < |accepted| && accepted[i].hash == h
    ensures |accepted| - i - 1 >= MAX_HASH_CACHE
  {
    if CacheStart(|accepted|) <= i {
      CachedIfRecent(c, accepted, i);
    }
  }

  /** Even with Redis down, two acceptances of one hash have at least 1000 others between them. */
  lemma {:induction false} AcceptancesFarApart(enabled: bool, calls: seq<Call>, i: nat, j: nat)
    requires i < j < |Accepted(enabled, calls)|
    requires Accepted(enabled, calls)[i].hash == Accepted(enabled, calls)[j].hash
    ensures j - i - 1 >= 1000
    decreases |calls|
  {
    var init, call := calls[..|calls| - 1], calls[|calls| - 1];
    var before, c := Accepted(enabled, init), Run(enabled, init);
    if j < |before| {
      AcceptancesFarApart(enabled, init, i, j);
    } else {
      CacheAgreesWithHistory(enabled, init);
      NewHashIsOld(c, before, i, call.hash);
    }
  }

  ghost predicate Monotone(start: real, calls: seq<Call>)
    decreases |calls|
  {
    calls != [] ==>
      var init, call := calls[..|calls| - 1], calls[|calls| - 1];
      Monotone(start, init) && Clock(start, init) <= call.check <= call.mark
  }

  function Clock(start: real, calls: seq<Call>): real {
    if calls == [] then start else calls[|calls| - 1].mark
  }

  /** Every acceptance whose write went through is still covered by its Redis key. */
  lemma {:induction false} MarksAreKept(enabled: bool, start: real, calls: seq<Call>, i: nat)
    requires enabled && Monotone(start, calls) && i < |Accepted(enabled, calls)| && Accepted(enabled, calls)[i].markOk
    ensures var a, c := Accepted(enabled, calls)[i], Run(enabled, calls);
      && a.mark <= Clock(start, calls)
      && a.hash in c.redis && c.redis[a.hash] >= a.mark + DEDUP_TTL_SECONDS
    decreases |calls|
  {
    var init := calls[..|calls| - 1];
    if i < |Accepted(enabled, init)| {
      MarksAreKept(enabled, start, init, i);
    }
  }

  /** With Redis working at the first acceptance's write and at the second one's lookup, two acceptances
      of one hash are at least the TTL apart. */
  lemma {:induction false} NoRepeatWithinTtl(enabled: bool, start: real, calls: seq<Call>, i: nat, j: nat)
    requires enabled && Monotone(start, calls) && i < j < |Accepted(enabled, calls)|
    requires var a := Accepted(enabled, calls); a[i].hash == a[j].hash && a[i].markOk && a[j].checkOk
    ensures Accepted(enabled, calls)[j].check - Accepted(enabled, calls)[i].mark >= DEDUP_TTL_SECONDS
    decreases |calls|
  {
    var init := calls[..|calls| - 1];
    if j < |Accepted(enabled, init)| {
      NoRepeatWithinTtl(enabled, start, init, i, j);
    } else {
      MarksAreKept(enabled, start, init, i);
    }
  }

  /** When the key of a hash was last written. */
  function LastMark(accepted: seq<Call>, h: Hash): Option<real> {
    if accepted == [] then None
    else
      var last := accepted[|accepted| - 1];
      if last.hash == h && last.markOk then Some(last.mark) else LastMark(accepted[..|accepted| - 1], h)
  }

  lemma LastMarkOneMore(accepted: seq<Call>, call: Call, h: Hash)
    ensures LastMark(accepted + [call], h)
      == if call.hash == h && call.markOk then Some(call.mark) else LastMark(accepted, h)
  {
    assert (accepted + [call])[..|accepted|] == accepted;
  }

  /** A key is there exactly when an acceptance wrote it, and expires 3600 seconds after the last one did. */
  lemma {:induction false} KeysAreMarks(calls: seq<Call>, h: Hash)
    ensures var redis, mark := Run(true, calls).redis, LastMark(Accepted(true, calls), h);
      (h in redis <==> mark.Some?) && (h in redis ==> redis[h] == mark.value + 3600.0)
  {
    if calls != [] {
      var init, call := calls[..|calls| - 1], calls[|calls| - 1];
      KeysAreMarks(init, h);
      LastMarkOneMore(Accepted(true, init), call, h);
    }
  }

  /** The last 1000 of a list. */
  function Last1000(hashes: seq<Hash>): seq<Hash> {
    if |hashes| <= 1000 then hashes else hashes[|hashes| - 1000..]
  }

  /** With Redis on, a call is rejected if and only if its hash is among the last 1000 accepted ones, or the
      lookup works and finds a key written less than 3600 seconds before. So a hash older than that and out of
      the cache is accepted again. */
  lemma RejectedIffKnown(calls: seq<Call>, call: Call)
    ensures var accepted := Accepted(true, calls); var mark := LastMark(accepted, call.hash);
      IsDuplicate(true, Run(true, calls), call) <==>
        || call.hash in Last1000(Hashes(accepted))
        || (call.checkOk && mark.Some? && call.check < mark.value + 3600.0)
  {
    CacheAgreesWithHistory(true, calls);
    KeysAreMarks(calls, call.hash);
  }

  /** With Redis off, a call is rejected exactly when its hash is among the last 1000 accepted ones. */
  lemma RejectedIffRecentlyAccepted(calls: seq<Call>, call: Call)
    ensures var accepted := Accepted(false, calls);
      IsDuplicate(false, Run(false, calls), call) <==> call.hash in Last1000(Hashes(accepted))
  {
    CacheAgreesWithHistory(false, calls);
  }

  // ----- what is published

  /** A call of the publisher: whether the event is valid, its call for the hash, whether the publish works. */
  datatype Attempt = Attempt(valid: bool, call: Call, publishOk: bool)

  /** The calls for a hash that the attempts make. */
  function Calls(attempts: seq<Attempt>): seq<Call> {
    if attempts == [] then []
    else
      var init, a := attempts[..|attempts| - 1], attempts[|attempts| - 1];
      if a.valid then Calls(init) + [a.call] else Calls(init)
  }

  /** The attempt is accepted after the others. */
  predicate Accepts(enabled: bool, attempts: seq<Attempt>, a: Attempt) {
    a.valid && !IsDuplicate(enabled, Run(enabled, Calls(attempts)), a.call)
  }

  /** The hashes published, as the publisher adds them. */
  function Published(enabled: bool, attempts: seq<Attempt>): seq<Hash> {
    if attempts == [] then []
    else
      var init, a := attempts[..|attempts| - 1], attempts[|attempts| - 1];
      if Accepts(enabled, init, a) && a.publishOk then Published(enabled, init) + [a.call.hash]
      else Published(enabled, init)
  }

  /** Where the published ones stand among the accepted calls. */
  function Places(enabled: bool, attempts: seq<Attempt>): seq<nat> {
    if attempts == [] then []
    else
      var init, a := attempts[..|attempts| - 1], attempts[|attempts| - 1];
      var place := |Accepted(enabled, Calls(init))|;
      if Accepts(enabled, init, a) && a.publishOk then Places(enabled, init) + [place] else Places(enabled, init)
  }

  lemma AcceptedOneMore(enabled: bool, attempts: seq<Attempt>, a: Attempt)
    ensures Accepted(enabled, Calls(attempts + [a]))
      == if Accepts(enabled, attempts, a) then Accepted(enabled, Calls(attempts)) + [a.call]
         else Accepted(enabled, Calls(attempts))
  {
    assert (attempts + [a])[..|attempts|] == attempts;
    var calls := Calls(attempts);
    assert (calls + [a.call])[..|calls|] == calls;
  }

  ghost predicate PlacedIn(published: seq<Hash>, places: seq<nat>, accepted: seq<Call>) {
    && |published| == |places|
    && (forall k :: 0 <= k < |places| ==> places[k] < |accepted| && accepted[places[k]].hash == published[k])
    && (forall j, k :: 0 <= j < k < |places| ==> places[j] < places[k])
  }

  lemma PlacedOneMore(published: seq<Hash>, places: seq<nat>, accepted: seq<Call>, call: Call)
    requires PlacedIn(published, places, accepted)
    ensures PlacedIn(published, places, accepted + [call])
    ensures PlacedIn(published + [call.hash], places + [|accepted|], accepted + [call])
  {
  }

  /** Over every run the published hashes are accepted ones, each acceptance published at most once, in order. */
  lemma {:induction false} PublishedAreAccepted(enabled: bool, attempts: seq<Attempt>)
    ensures PlacedIn(Published(enabled, attempts), Places(enabled, attempts), Accepted(enabled, Calls(attempts)))
  {
    if attempts != [] {
      var init, a := attempts[..|attempts| - 1], attempts[|attempts| - 1];
      PublishedAreAccepted(enabled, init);
      AcceptedOneMore(enabled, init, a);
      assert init + [a] == attempts;
      PlacedOneMore(Published(enabled, init), Places(enabled, init), Accepted(enabled, Calls(init)), a.call);
    }
  }

  /** So two publications of one hash have at least 1000 acceptances between them. */
  lemma PublicationsFarApart(enabled: bool, attempts: seq<Attempt>, j: nat, k: nat)
    requires j < k < |Published(enabled, attempts)|
    requires Published(enabled, attempts)[j] == Published(enabled, attempts)[k]
    ensures j < k < |Places(enabled, attempts)|
    ensures Places(enabled, attempts)[k] - Places(enabled, attempts)[j] - 1 >= MAX_HASH_CACHE
  {
    PublishedAreAccepted(enabled, attempts);
    AcceptancesFarApart(enabled, Calls(attempts), Places(enabled, attempts)[j], Places(enabled, attempts)[k]);
  }

  /** The last acceptance of a hash stands at i. */
  ghost predicate LastAccepted(accepted: seq<Call>, h: Hash, i: nat) {
    i < |accepted| && accepted[i].hash == h && forall j :: i < j < |accepted| ==> accepted[j].hash != h
  }

  lemma PublishesIffAccepts(enabled: bool, attempts: seq<Attempt>, a: Attempt)
    requires a.publishOk
    ensures Published(enabled, attempts + [a]) == Published(enabled, attempts) + [a.call.hash]
      <==> Accepts(enabled, attempts, a)
  {
    var before := Published(enabled, attempts);
    assert (attempts + [a])[..|attempts|] == attempts;
    assert |before + [a.call.hash]| == |before| + 1;
  }

  /** A hash that was accepted, whether or not its publish worked, is published again if and only if at least
      1000 others have been accepted since and Redis does not report it. So an event whose publish failed is
      dropped until then. */
  lemma PublishedAgainIff(enabled: bool, attempts: seq<Attempt>, a: Attempt, i: nat)
    requires a.valid && a.publishOk && LastAccepted(Accepted(enabled, Calls(attempts)), a.call.hash, i)
    ensures var accepted, c := Accepted(enabled, Calls(attempts)), Run(enabled, Calls(attempts));
      Published(enabled, attempts + [a]) == Published(enabled, attempts) + [a.call.hash] <==>
        && |accepted| - i - 1 >= MAX_HASH_CACHE
        && !(enabled && a.call.checkOk && InRedis(c, a.call.hash, a.call.check))
  {
    var calls := Calls(attempts);
    CacheAgreesWithHistory(enabled, calls);
    KnownIffRecent(Run(enabled, calls), Accepted(enabled, calls), a.call.hash, i);
    PublishesIffAccepts(enabled, attempts, a);
  }

  lemma KnownIffRecent(c: Cache, accepted: seq<Call>, h: Hash, i: nat)
    requires AgreesWith(c, accepted) && LastAccepted(accepted, h, i)
    ensures h in c.recent <==> |accepted| - i - 1 < MAX_HASH_CACHE
  {
    if CacheStart(|accepted|) <= i {
      CachedIfRecent(c, accepted, i);
    } else {
      assert forall k :: 0 <= k < |c.order| ==> c.order[k] == accepted[CacheStart(|accepted|) + k].hash;
    }
  }
}
