/** The block cursor of the Polygon listener (_poll_blocks in polygon_rpc.py): polling cycles that may break
    off at any RPC call and at any publish. */
module BlockCursor {
  import opened Options

  type Tx = int

  /** A log of one of the exchanges; blocks are never reorganised. */
  datatype Log = Log(block: nat, tx: Tx)

  datatype Event = Trade(block: nat, tx: Tx) | BlockProcessed(block: nat, txCount: nat)

  predicate Has(logs: seq<Log>, l: Log) {
    logs != [] && (logs[|logs| - 1] == l || Has(logs[..|logs| - 1], l))
  }

  predicate HasBlock(logs: seq<Log>, b: nat) {
    logs != [] && (logs[|logs| - 1].block == b || HasBlock(logs[..|logs| - 1], b))
  }

  /** get_logs: the logs of a range of blocks. */
  function FetchLogs(chain: seq<Log>, from: nat, to: nat): seq<Log> {
    if chain == [] then []
    else
      var init, last := FetchLogs(chain[..|chain| - 1], from, to), chain[|chain| - 1];
      if from <= last.block <= to then init + [last] else init
  }

  // ----- what a cycle publishes

  /** One trade for every transaction of every block, at its first log. */
  function Trades(logs: seq<Log>): seq<Event> {
    if logs == [] then []
    else
      var init, last := logs[..|logs| - 1], logs[|logs| - 1];
      if Has(init, last) then Trades(init) else Trades(init) + [Trade(last.block, last.tx)]
  }

  /** The blocks with a log, in order of appearance. */
  function Blocks(logs: seq<Log>): seq<nat> {
    if logs == [] then []
    else
      var init, last := logs[..|logs| - 1], logs[|logs| - 1];
      if HasBlock(init, last.block) then Blocks(init) else Blocks(init) + [last.block]
  }

  /** The number of different transactions with a log in block b. */
  function TxCount(logs: seq<Log>, b: nat): nat {
    if logs == [] then 0
    else
      var init, last := logs[..|logs| - 1], logs[|logs| - 1];
      TxCount(init, b) + if last.block == b && !Has(init, last) then 1 else 0
  }

  function Summaries(blocks: seq<nat>, logs: seq<Log>): (events: seq<Event>)
    ensures |events| == |blocks|
  {
    if blocks == [] then []
    else
      var b := blocks[|blocks| - 1];
      Summaries(blocks[..|blocks| - 1], logs) + [BlockProcessed(b, TxCount(logs, b))]
  }

  /** Everything a complete cycle publishes, in order. */
  function Messages(logs: seq<Log>): seq<Event> {
    Trades(logs) + Summaries(Blocks(logs), logs)
  }

  // ----- cycles

  /** How the publishing of a cycle goes: to the end, or it breaks off after some events. */
  datatype Publishing = Complete | Breaks(after: nat)

  /** A polling cycle: the latest block if the node answers, whether the logs are fetched, the publishing. */
  datatype Cycle = Cycle(latest: Option<nat>, fetchOk: bool, publishing: Publishing)

  datatype State = State(lastBlock: Option<nat>, published: seq<Event>)

  /** Whether a cycle has a range of blocks to process. A cursor at block 0 counts as missing. */
  predicate Ahead(s: State, c: Cycle) {
    s.lastBlock.Some? && s.lastBlock.value != 0 && c.latest.Some? && c.latest.value > s.lastBlock.value && c.fetchOk
  }

  function Prefix(events: seq<Event>, n: nat): seq<Event> {
    if n <= |events| then events[..n] else events
  }

  function Poll(chain: seq<Log>, s: State, c: Cycle): State {
    if !Ahead(s, c) then s
    else
      var messages := Messages(FetchLogs(chain, s.lastBlock.value + 1, c.latest.value));
      match c.publishing
      case Complete => State(c.latest, s.published + messages)
      case Breaks(n) => s.(published := s.published + Prefix(messages, n))
  }

  /** The cycle's table of transactions by block. */
  function Table(logs: seq<Log>): map<nat, set<Tx>> {
    if logs == [] then map[]
    else
      var t, last := Table(logs[..|logs| - 1]), logs[|logs| - 1];
      t[last.block := (if last.block in t then t[last.block] else {}) + {last.tx}]
  }

  lemma {:induction false} TableExact(logs: seq<Log>)
    ensures forall b :: b in Table(logs) <==> HasBlock(logs, b)
    ensures forall b, t :: b in Table(logs) ==> (t in Table(logs)[b] <==> Has(logs, Log(b, t)))
    ensures forall b :: b in Table(logs) ==> |Table(logs)[b]| == TxCount(logs, b)
  {
    if logs != [] {
      var init, last := logs[..|logs| - 1], logs[|logs| - 1];
      TableExact(init);
      NoBlockNoTx(init, last);
    }
  }

  lemma TradesOneMore(logs: seq<Log>, l: Log)
    ensures Trades(logs + [l]) == if Has(logs, l) then Trades(logs) else Trades(logs) + [Trade(l.block, l.tx)]
  {
    assert (logs + [l])[..|logs|] == logs;
  }

  lemma SliceOneMore(logs: seq<Log>, i: nat)
    requires i < |logs|
    ensures logs[..i] + [logs[i]] == logs[..i + 1] <= logs
  {
  }

  lemma AppendIsAssociative(a: seq<Event>, b: seq<Event>, e: Event)
    ensures (a + b) + [e] == a + (b + [e])
  {
  }

  class Listener {
    const chain: seq<Log>  // the node's logs
    var lastBlock: Option<nat>
    var published: seq<Event>

    ghost function View(): State
      reads this
    {
      State(lastBlock, published)
    }

    constructor (chain: seq<Log>, lastBlock: Option<nat>)
      ensures this.chain == chain && View() == State(lastBlock, [])
    {
      this.chain, this.lastBlock, published := chain, lastBlock, [];
    }

    /** Enters a log into the table; whether its transaction is new there. */
    method Note(perBlock: map<nat, set<Tx>>, blocks: seq<nat>, ghost logs: seq<Log>, l: Log)
      returns (perBlock': map<nat, set<Tx>>, blocks': seq<nat>, isNew: bool)
      requires perBlock == Table(logs) && blocks == Blocks(logs)
      ensures isNew <==> !Has(logs, l)
      ensures perBlock' == Table(logs + [l]) && blocks' == Blocks(logs + [l])
    {
      assert (logs + [l])[..|logs|] == logs;
      TableExact(logs);
      NoBlockNoTx(logs, l);
      perBlock', blocks' := perBlock, blocks;
      if l.block !in perBlock' {
        perBlock' := perBlock'[l.block := {}];
        blocks' := blocks' + [l.block];
      }
      isNew := l.tx !in perBlock'[l.block];
      if isNew {
        perBlock' := perBlock'[l.block := perBlock'[l.block] + {l.tx}];
      } else {
        assert perBlock'[l.block] + {l.tx} == perBlock'[l.block];
      }
    }

    /** The loop over the logs: the transactions seen so far, by block, and one trade for each; done are the
        logs it gets to. */
    method PublishTrades(logs: seq<Log>, publishing: Publishing)
      returns (perBlock: map<nat, set<Tx>>, blocks: seq<nat>, sent: nat, broken: bool, ghost done: seq<Log>)
      modifies this`published
      ensures done <= logs && published == old(published) + Trades(done) && sent == |Trades(done)|
      ensures perBlock == Table(done) && blocks == Blocks(done)
      ensures if broken then publishing == Breaks(sent) else done == logs
      ensures !broken && publishing.Breaks? ==> sent < publishing.after
    {
      perBlock, blocks, sent, broken, done := map[], [], 0, publishing == Breaks(0), [];
      if broken {
        return;
      }
      ghost var before := published;
      for i := 0 to |logs|
        invariant done == logs[..i] <= logs && !broken
        invariant sent == |Trades(done)| && published == before + Trades(done)
        invariant publishing.Breaks? ==> sent < publishing.after
        invariant perBlock == Table(done) && blocks == Blocks(done)
      {
        TradesOneMore(done, logs[i]);
        SliceOneMore(logs, i);
        AppendIsAssociative(before, Trades(done), Trade(logs[i].block, logs[i].tx));
        var isNew;
        perBlock, blocks, isNew := Note(perBlock, blocks, done, logs[i]);
        done := done + [logs[i]];
        if isNew {
          published := published + [Trade(logs[i].block, logs[i].tx)];
          sent := sent + 1;
          if publishing == Breaks(sent) {
            broken := true;
            return;
          }
        }
      }
      assert done == logs;
    }

    /** The loop over the blocks seen: a summary for each; sent events went before. */
    method PublishSummaries(perBlock: map<nat, set<Tx>>, blocks: seq<nat>,
                             ghost logs: seq<Log>, sent: nat, publishing: Publishing)
      returns (more: nat, broken: bool)
      requires perBlock == Table(logs) && blocks == Blocks(logs)
      requires publishing.Breaks? ==> sent < publishing.after
      modifies this`published
      ensures more <= |blocks| && published == old(published) + Summaries(blocks, logs)[..more]
      ensures broken ==> publishing == Breaks(sent + more)
      ensures !broken ==> more == |blocks| && (publishing.Breaks? ==> sent + more < publishing.after)
    {
      more, broken := 0, false;
      while more < |blocks|
        invariant more <= |blocks| && published == old(published) + Summaries(blocks, logs)[..more]
        invariant publishing.Breaks? ==> sent + more < publishing.after
      {
        TableAt(logs, more);
        SummaryAt(blocks, logs, more);
        published := published + [BlockProcessed(blocks[more], |perBlock[blocks[more]]|)];
        more := more + 1;
        if publishing == Breaks(sent + more) {
          broken := true;
          return;
        }
      }
    }

    /** The publishing of a cycle. */
    method Publish(logs: seq<Log>, publishing: Publishing) returns (done: bool)
      modifies this`published
      ensures done == publishing.Complete?
      ensures done ==> published == old(published) + Messages(logs)
      ensures !done ==> published == old(published) + Prefix(Messages(logs), publishing.after)
    {
      var perBlock, blocks, sent, broken, done' := PublishTrades(logs, publishing);
      TradesPrefix(logs, done');
      var more := 0;
      if !broken {
        more, broken := PublishSummaries(perBlock, blocks, logs, sent, publishing);
      }
      MessagesPrefix(logs, sent, more);
      done := !broken && publishing.Complete?;
    }

    /** One cycle. */
    method PollCycle(c: Cycle)
      modifies this
      ensures View() == Poll(chain, old(View()), c)
    {
      if c.latest.None? {
        return;
      }
      var currentBlock := c.latest.value;
      if lastBlock.Some? && lastBlock.value != 0 && currentBlock > lastBlock.value {
        var blockFrom, blockTo := lastBlock.value + 1, currentBlock;
        if !c.fetchOk {
          return;
        }
        var logs := FetchLogs(chain, blockFrom, blockTo);
        var done := Publish(logs, c.publishing);
        if !done {
          return;
        }
        lastBlock := Some(currentBlock);
      }
    }
  }

  // ----- facts about one cycle

  lemma {:induction false} NoBlockNoTx(logs: seq<Log>, l: Log)
    ensures !HasBlock(logs, l.block) ==> !Has(logs, l) && TxCount(logs, l.block) == 0
    ensures !HasBlock(logs, l.block) ==> forall t :: !Has(logs, Log(l.block, t))
  {
    if logs != [] {
      NoBlockNoTx(logs[..|logs| - 1], l);
    }
  }

  lemma {:induction false} TradesPrefix(logs: seq<Log>, done: seq<Log>)
    requires done <= logs
    ensures |Trades(done)| <= |Trades(logs)| && Trades(done) == Trades(logs)[..|Trades(done)|]
    decreases |logs|
  {
    if |done| < |logs| {
      TradesPrefix(logs[..|logs| - 1], done);
    } else {
      assert done == logs;
    }
  }

  lemma MessagesPrefix(logs: seq<Log>, sent: nat, more: nat)
    requires sent <= |Trades(logs)| && more <= |Blocks(logs)|
    requires more > 0 ==> sent == |Trades(logs)|
    ensures Prefix(Messages(logs), sent + more) == Trades(logs)[..sent] + Summaries(Blocks(logs), logs)[..more]
    ensures forall n :: n > |Trades(logs)| + |Blocks(logs)| ==> Prefix(Messages(logs), n) == Messages(logs)
    ensures sent + more == |Messages(logs)| ==> Prefix(Messages(logs), sent + more) == Messages(logs)
  {
  }

  lemma {:induction false} SummaryAt(blocks: seq<nat>, logs: seq<Log>, j: nat)
    requires j < |blocks|
    ensures Summaries(blocks, logs)[j] == BlockProcessed(blocks[j], TxCount(logs, blocks[j]))
    decreases |blocks|
  {
    if j < |blocks| - 1 {
      SummaryAt(blocks[..|blocks| - 1], logs, j);
    }
  }

  lemma {:induction false} BlocksExact(logs: seq<Log>)
    ensures forall i :: 0 <= i < |Blocks(logs)| ==> HasBlock(logs, Blocks(logs)[i])
    ensures forall i, j :: 0 <= i < j < |Blocks(logs)| ==> Blocks(logs)[i] != Blocks(logs)[j]
    ensures forall b :: HasBlock(logs, b) ==> exists i :: 0 <= i < |Blocks(logs)| && Blocks(logs)[i] == b
  {
    if logs != [] {
      var init, last := logs[..|logs| - 1], logs[|logs| - 1];
      BlocksExact(init);
      forall b | HasBlock(logs, b) ensures exists i :: 0 <= i < |Blocks(logs)| && Blocks(logs)[i] == b {
        if HasBlock(init, b) {
          var i :| 0 <= i < |Blocks(init)| && Blocks(init)[i] == b;
          assert Blocks(logs)[i] == b;
        } else {
          assert Blocks(logs)[|Blocks(init)|] == b;
        }
      }
    }
  }

  lemma TableAt(logs: seq<Log>, j: nat)
    requires j < |Blocks(logs)|
    ensures Blocks(logs)[j] in Table(logs) && |Table(logs)[Blocks(logs)[j]]| == TxCount(logs, Blocks(logs)[j])
  {
    BlocksExact(logs);
    TableExact(logs);
  }

  function Occurs(events: seq<Event>, e: Event): nat {
    if events == [] then 0 else Occurs(events[..|events| - 1], e) + if events[|events| - 1] == e then 1 else 0
  }

  lemma {:induction false} OccursAppend(a: seq<Event>, b: seq<Event>, e: Event)
    ensures Occurs(a + b, e) == Occurs(a, e) + Occurs(b, e)
  {
    if b == [] {
      assert a + b == a;
    } else {
      OccursAppend(a, b[..|b| - 1], e);
      assert (a + b)[..|a + b| - 1] == a + b[..|b| - 1];
    }
  }

  lemma {:induction false} SummariesAreNoTrades(blocks: seq<nat>, logs: seq<Log>, l: Log)
    ensures Occurs(Summaries(blocks, logs), Trade(l.block, l.tx)) == 0
  {
    if blocks != [] {
      SummariesAreNoTrades(blocks[..|blocks| - 1], logs, l);
    }
  }

  /** Within a complete cycle every transaction with a log is published exactly once, and no other. */
  lemma {:induction false} EachTradeOnce(logs: seq<Log>, l: Log)
    ensures Occurs(Trades(logs), Trade(l.block, l.tx)) == if Has(logs, l) then 1 else 0
  {
    if logs != [] {
      EachTradeOnce(logs[..|logs| - 1], l);
      var init, last := logs[..|logs| - 1], logs[|logs| - 1];
      if !Has(init, last) {
        assert Trades(logs)[..|Trades(init)|] == Trades(init);
      }
    }
  }

  lemma {:induction false} SummaryOccurs(blocks: seq<nat>, logs: seq<Log>, b: nat, n: nat)
    requires forall i, j :: 0 <= i < j < |blocks| ==> blocks[i] != blocks[j]
    ensures Occurs(Summaries(blocks, logs), BlockProcessed(b, n))
      == if b in blocks && n == TxCount(logs, b) then 1 else 0
  {
    if blocks != [] {
      var init, last := blocks[..|blocks| - 1], blocks[|blocks| - 1];
      SummaryOccurs(init, logs, b, n);
      var before := Summaries(init, logs);
      assert Summaries(blocks, logs)[..|before|] == before;
      assert b in blocks <==> b in init || b == last;
      assert last !in init;
    }
  }

  lemma {:induction false} TradesAreNoSummaries(logs: seq<Log>, b: nat, n: nat)
    ensures Occurs(Trades(logs), BlockProcessed(b, n)) == 0
  {
    if logs != [] {
      var init, last := logs[..|logs| - 1], logs[|logs| - 1];
      TradesAreNoSummaries(init, b, n);
      if !Has(init, last) {
        assert Trades(logs)[..|Trades(init)|] == Trades(init);
      }
    }
  }

  /** Within a complete cycle every block with a log is summarised exactly once, with the number of its
      transactions, and no other. */
  lemma EachBlockOnce(logs: seq<Log>, b: nat, n: nat)
    ensures Occurs(Messages(logs), BlockProcessed(b, n)) == if HasBlock(logs, b) && n == TxCount(logs, b) then 1 else 0
  {
    BlocksExact(logs);
    SummaryOccurs(Blocks(logs), logs, b, n);
    TradesAreNoSummaries(logs, b, n);
    OccursAppend(Trades(logs), Summaries(Blocks(logs), logs), BlockProcessed(b, n));
    assert b in Blocks(logs) <==> HasBlock(logs, b);
  }

  function TotalTx(blocks: seq<nat>, logs: seq<Log>): nat {
    if blocks == [] then 0 else TotalTx(blocks[..|blocks| - 1], logs) + TxCount(logs, blocks[|blocks| - 1])
  }

  lemma {:induction false} TotalTxOneMore(blocks: seq<nat>, logs: seq<Log>, l: Log)
    requires forall i, j :: 0 <= i < j < |blocks| ==> blocks[i] != blocks[j]
    ensures TotalTx(blocks, logs + [l]) == TotalTx(blocks, logs)
      + if !Has(logs, l) && (exists i :: 0 <= i < |blocks| && blocks[i] == l.block) then 1 else 0
  {
    assert (logs + [l])[..|logs|] == logs;
    if blocks != [] {
      var init, b := blocks[..|blocks| - 1], blocks[|blocks| - 1];
      TotalTxOneMore(init, logs, l);
      if exists i :: 0 <= i < |init| && init[i] == l.block {
        var i :| 0 <= i < |init| && init[i] == l.block;
        assert blocks[i] == l.block;
      } else if b == l.block {
        assert blocks[|blocks| - 1] == l.block;
      }
    }
  }

  /** The transaction counts of the block messages sum to the trades published. */
  lemma {:induction false} CountsSumToTrades(logs: seq<Log>)
    ensures TotalTx(Blocks(logs), logs) == |Trades(logs)|
  {
    if logs != [] {
      var init, last := logs[..|logs| - 1], logs[|logs| - 1];
      CountsSumToTrades(init);
      BlocksExact(init);
      TotalTxOneMore(Blocks(init), init, last);
      assert init + [last] == logs;
      NoBlockNoTx(init, last);
      if !HasBlock(init, last.block) {
        assert Blocks(logs)[..|Blocks(init)|] == Blocks(init);
        assert forall i :: 0 <= i < |Blocks(init)| ==> Blocks(init)[i] != last.block;
      }
    }
  }

  lemma {:induction false} FetchExact(chain: seq<Log>, from: nat, to: nat, l: Log)
    ensures Has(FetchLogs(chain, from, to), l) <==> Has(chain, l) && from <= l.block <= to
  {
    if chain != [] {
      var init, last := FetchLogs(chain[..|chain| - 1], from, to), chain[|chain| - 1];
      FetchExact(chain[..|chain| - 1], from, to, l);
      if from <= last.block <= to {
        assert FetchLogs(chain, from, to)[..|init|] == init;
      }
    }
  }

  lemma {:induction false} PrefixOccurs(events: seq<Event>, n: nat, e: Event)
    ensures Occurs(Prefix(events, n), e) <= Occurs(events, e)
    decreases |events|
  {
    if events != [] && n < |events| {
      PrefixOccurs(events[..|events| - 1], n, e);
      assert Prefix(events[..|events| - 1], n) == Prefix(events, n);
    } else {
      assert Prefix(events, n) == events;
    }
  }

  // ----- whole runs

  function Run(chain: seq<Log>, start: nat, cycles: seq<Cycle>): State {
    if cycles == [] then State(Some(start), [])
    else Poll(chain, Run(chain, start, cycles[..|cycles| - 1]), cycles[|cycles| - 1])
  }

  /** The block ranges of the cycles that completed. */
  function Ranges(chain: seq<Log>, start: nat, cycles: seq<Cycle>): seq<(nat, nat)> {
    if cycles == [] then []
    else
      var init, c := cycles[..|cycles| - 1], cycles[|cycles| - 1];
      var s := Run(chain, start, init);
      if Ahead(s, c) && c.publishing.Complete? then
        Ranges(chain, start, init) + [(s.lastBlock.value + 1, c.latest.value)]
      else Ranges(chain, start, init)
  }

  /** The completed ranges follow one another without gap or overlap from start + 1 to the cursor; so the
      cursor never moves back. */
  lemma {:induction false} RangesAreContiguous(chain: seq<Log>, start: nat, cycles: seq<Cycle>)
    ensures var ranges, last := Ranges(chain, start, cycles), Run(chain, start, cycles).lastBlock;
      && last.Some? && last.value >= start
      && (forall i :: 0 <= i < |ranges| ==> ranges[i].0 <= ranges[i].1)
      && (forall i :: 0 <= i < |ranges| ==> ranges[i].0 == if i == 0 then start + 1 else ranges[i - 1].1 + 1)
      && last.value == if ranges == [] then start else ranges[|ranges| - 1].1
  {
    if cycles != [] {
      RangesAreContiguous(chain, start, cycles[..|cycles| - 1]);
    }
  }

  lemma CursorNeverMovesBack(chain: seq<Log>, s: State, c: Cycle)
    requires s.lastBlock.Some?
    ensures Poll(chain, s, c).lastBlock.Some? && Poll(chain, s, c).lastBlock.value >= s.lastBlock.value
  {
  }

  lemma PollOccurs(chain: seq<Log>, s: State, c: Cycle, l: Log)
    ensures var e := Trade(l.block, l.tx);
      && Occurs(Poll(chain, s, c).published, e) >= Occurs(s.published, e)
      && (Occurs(Poll(chain, s, c).published, e) > Occurs(s.published, e) ==> Has(chain, l))
      && (Ahead(s, c) && c.publishing.Complete? ==>
            Occurs(Poll(chain, s, c).published, e)
            == Occurs(s.published, e) + if Has(chain, l) && s.lastBlock.value < l.block <= c.latest.value then 1 else 0)
  {
    if Ahead(s, c) {
      var e := Trade(l.block, l.tx);
      var from, to := s.lastBlock.value + 1, c.latest.value;
      var logs := FetchLogs(chain, from, to);
      FetchExact(chain, from, to, l);
      EachTradeOnce(logs, l);
      SummariesAreNoTrades(Blocks(logs), logs, l);
      OccursAppend(Trades(logs), Summaries(Blocks(logs), logs), e);
      OccursAppend(s.published, Messages(logs), e);
      if c.publishing.Breaks? {
        PrefixOccurs(Messages(logs), c.publishing.after, e);
        OccursAppend(s.published, Prefix(Messages(logs), c.publishing.after), e);
      }
    }
  }

  /** The cursor covers the chain: over every run of cycles, whatever fails, every transaction with a log
      in a block after start and up to the cursor has been published, and nothing that has no log was. */
  lemma {:induction false} CursorCoversChain(chain: seq<Log>, start: nat, cycles: seq<Cycle>, l: Log)
    ensures var s := Run(chain, start, cycles); var e := Trade(l.block, l.tx);
      && (Has(chain, l) && s.lastBlock.Some? && start < l.block <= s.lastBlock.value ==> Occurs(s.published, e) >= 1)
      && (Occurs(s.published, e) >= 1 ==> Has(chain, l))
  {
    if cycles != [] {
      var init, c := cycles[..|cycles| - 1], cycles[|cycles| - 1];
      var s := Run(chain, start, init);
      CursorCoversChain(chain, start, init, l);
      RangesAreContiguous(chain, start, init);
      PollOccurs(chain, s, c, l);
    }
  }

  /** When no cycle breaks off, every such transaction is published exactly once. */
  lemma {:induction false} ExactlyOnceWithoutBreaks(chain: seq<Log>, start: nat, cycles: seq<Cycle>, l: Log)
    requires forall k :: 0 <= k < |cycles| ==> cycles[k].publishing.Complete?
    ensures var s := Run(chain, start, cycles);
      s.lastBlock.Some? &&
      Occurs(s.published, Trade(l.block, l.tx)) ==
      if Has(chain, l) && start < l.block <= s.lastBlock.value then 1 else 0
  {
    if cycles != [] {
      var init, c := cycles[..|cycles| - 1], cycles[|cycles| - 1];
      assert forall k :: 0 <= k < |init| ==> init[k] == cycles[k];
      ExactlyOnceWithoutBreaks(chain, start, init, l);
      RangesAreContiguous(chain, start, init);
      PollOccurs(chain, Run(chain, start, init), c, l);
    }
  }

  /** The cycle runs to its end over a range that ends in a block newer than b. */
  predicate RunsBeyond(c: Cycle, b: nat) {
    c.latest.Some? && c.latest.value > b && c.fetchOk && c.publishing.Complete?
  }

  /** Such a cycle moves the cursor to its latest block if and only if the cursor is not 0; no other cycle
      moves it. */
  lemma MovesIffNotZero(chain: seq<Log>, s: State, c: Cycle)
    requires s.lastBlock.Some?
    ensures var b := s.lastBlock.value;
      && (Poll(chain, s, c).lastBlock != s.lastBlock <==> RunsBeyond(c, b) && b != 0)
      && (RunsBeyond(c, b) && b != 0 ==> Poll(chain, s, c).lastBlock == c.latest)
  {
  }

  /** Over a run the cursor leaves its start if and only if that is not 0 and some cycle runs beyond it. */
  lemma {:induction false} LeavesStartIff(chain: seq<Log>, start: nat, cycles: seq<Cycle>)
    ensures Run(chain, start, cycles).lastBlock != Some(start)
      <==> start != 0 && exists k :: 0 <= k < |cycles| && RunsBeyond(cycles[k], start)
  {
    if cycles != [] {
      var init, n := cycles[..|cycles| - 1], |cycles| - 1;
      LeavesStartIff(chain, start, init);
      RangesAreContiguous(chain, start, init);
      MovesIffNotZero(chain, Run(chain, start, init), cycles[n]);
      if k :| 0 <= k < |init| && RunsBeyond(init[k], start) {
        assert RunsBeyond(cycles[k], start);
      } else {
        assert forall k :: 0 <= k < |cycles| && RunsBeyond(cycles[k], start) ==> k == n || RunsBeyond(init[k], start);
      }
    }
  }

  /** A listener that connects at block 0 never polls anything. */
  lemma {:induction false} StuckAtBlockZero(chain: seq<Log>, cycles: seq<Cycle>)
    ensures Run(chain, 0, cycles) == State(Some(0), [])
  {
    if cycles != [] {
      StuckAtBlockZero(chain, cycles[..|cycles| - 1]);
    }
  }
}
