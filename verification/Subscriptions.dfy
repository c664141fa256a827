/** The websocket ingester's subscription index and its periodic refresh (_refresh_mappings,
    _get_asset_ids and _subscription_refresher in polymarket_ws.py). */
module Subscriptions {
  import opened Options

  type Condition = int
  type Asset = int

  /** The token id that Python counts as false. */
  const NO_ASSET: Asset := 0
  const CHUNK_SIZE := 200

  /** One market row: its condition and its token ids, if it has any. */
  datatype Row = Row(condition: Condition, tokens: Option<seq<Asset>>)

  function Live(tokens: seq<Asset>): (ids: seq<Asset>)
    ensures forall a :: a in ids <==> a in tokens && a != NO_ASSET
  {
    if tokens == [] then []
    else
      var init, last := Live(tokens[..|tokens| - 1]), tokens[|tokens| - 1];
      if last == NO_ASSET then init else init + [last]
  }

  predicate Skipped(row: Row) {
    row.tokens.None? || row.tokens.value == []
  }

  function Ids(row: Row): seq<Asset> {
    if Skipped(row) then [] else Live(row.tokens.value)
  }

  /** An entry of the condition index. The index is a Python dict: a list in insertion order. */
  datatype Entry = Entry(condition: Condition, ids: seq<Asset>)

  /** Sets a key of the condition index: in place when it is there, at the end otherwise. */
  function Put(index: seq<Entry>, condition: Condition, ids: seq<Asset>): seq<Entry> {
    if index == [] then [Entry(condition, ids)]
    else if index[0].condition == condition then [Entry(condition, ids)] + index[1..]
    else [index[0]] + Put(index[1..], condition, ids)
  }

  /** Points every id at a condition in the asset index. */
  function Assign(assets: map<Asset, Condition>, ids: seq<Asset>, condition: Condition): (r: map<Asset, Condition>)
    ensures forall a :: a in r <==> a in assets || a in ids
    ensures forall a :: a in r ==> r[a] == if a in ids then condition else assets[a]
  {
    if ids == [] then assets
    else Assign(assets, ids[..|ids| - 1], condition)[ids[|ids| - 1] := condition]
  }

  // ----- the two indexes as folds over the rows

  function IndexOf(rows: seq<Row>): seq<Entry> {
    if rows == [] then []
    else
      var init, row := IndexOf(rows[..|rows| - 1]), rows[|rows| - 1];
      if Skipped(row) then init else Put(init, row.condition, Ids(row))
  }

  function AssetsOf(rows: seq<Row>): map<Asset, Condition> {
    if rows == [] then map[]
    else
      var init, row := AssetsOf(rows[..|rows| - 1]), rows[|rows| - 1];
      if Skipped(row) then init else Assign(init, Ids(row), row.condition)
  }

  /** The assets of all conditions, one condition after the other. */
  function AllAssets(index: seq<Entry>): seq<Asset> {
    if index == [] then [] else AllAssets(index[..|index| - 1]) + index[|index| - 1].ids
  }

  ghost predicate Distinct(xs: seq<Asset>) {
    forall i, j :: 0 <= i < j < |xs| ==> xs[i] != xs[j]
  }

  /** Conditions are keys, as the markets table guarantees. */
  ghost predicate DistinctConditions(rows: seq<Row>) {
    forall i, j :: 0 <= i < j < |rows| ==> rows[i].condition != rows[j].condition
  }

  /** No asset belongs to two rows. */
  ghost predicate Disjoint(rows: seq<Row>) {
    forall i, j, a {:trigger a in Ids(rows[i]), a in Ids(rows[j])} ::
      0 <= i < j < |rows| && a in Ids(rows[i]) ==> a !in Ids(rows[j])
  }

  /** No row lists an asset twice. */
  ghost predicate RowsDistinct(rows: seq<Row>) {
    forall i :: 0 <= i < |rows| ==> Distinct(Ids(rows[i]))
  }

  /** The asset index is the exact inverse of the condition index. */
  ghost predicate Inverse(assets: map<Asset, Condition>, index: seq<Entry>) {
    && (forall i, a {:trigger a in index[i].ids} :: 0 <= i < |index| && a in index[i].ids ==>
         a in assets && assets[a] == index[i].condition)
    && (forall a :: a in assets ==> exists i :: 0 <= i < |index| && a in index[i].ids)
    && (forall i, j :: 0 <= i < j < |index| ==> index[i].condition != index[j].condition)
  }

  lemma {:induction false} PutFresh(index: seq<Entry>, condition: Condition, ids: seq<Asset>)
    requires forall i :: 0 <= i < |index| ==> index[i].condition != condition
    ensures Put(index, condition, ids) == index + [Entry(condition, ids)]
  {
    if index != [] {
      PutFresh(index[1..], condition, ids);
      assert [index[0]] + (index[1..] + [Entry(condition, ids)]) == index + [Entry(condition, ids)];
    }
  }

  /** The entry is that of one of the rows that list tokens. */
  ghost predicate ComesFrom(e: Entry, rows: seq<Row>) {
    exists i :: 0 <= i < |rows| && IsEntryOf(e, rows[i])
  }

  predicate IsEntryOf(e: Entry, row: Row) {
    e.condition == row.condition && row.tokens.Some? && row.tokens.value != [] && e.ids == Live(row.tokens.value)
  }

  lemma {:induction false} EntriesComeFromRows(rows: seq<Row>)
    requires DistinctConditions(rows)
    ensures forall k :: 0 <= k < |IndexOf(rows)| ==> ComesFrom(IndexOf(rows)[k], rows)
    ensures rows != [] && !Skipped(rows[|rows| - 1]) ==>
      IndexOf(rows) == IndexOf(rows[..|rows| - 1]) + [Entry(rows[|rows| - 1].condition, Ids(rows[|rows| - 1]))]
  {
    if rows != [] {
      var init, row := rows[..|rows| - 1], rows[|rows| - 1];
      EntriesComeFromRows(init);
      forall k | 0 <= k < |IndexOf(init)|
        ensures ComesFrom(IndexOf(init)[k], rows) && IndexOf(init)[k].condition != row.condition
      {
        var i :| 0 <= i < |init| && IsEntryOf(IndexOf(init)[k], init[i]);
        assert rows[i] == init[i];
      }
      if !Skipped(row) {
        PutFresh(IndexOf(init), row.condition, Ids(row));
        assert ComesFrom(Entry(row.condition, Ids(row)), rows);
      }
    }
  }

  ghost predicate HasEntry(index: seq<Entry>, row: Row) {
    exists k :: 0 <= k < |index| && index[k] == Entry(row.condition, Ids(row))
  }

  lemma {:induction false} RowsHaveEntries(rows: seq<Row>, i: nat)
    requires DistinctConditions(rows) && i < |rows| && rows[i].tokens.Some? && rows[i].tokens.value != []
    ensures HasEntry(IndexOf(rows), rows[i])
  {
    var init, row := rows[..|rows| - 1], rows[|rows| - 1];
    EntriesComeFromRows(rows);
    if i < |init| {
      RowsHaveEntries(init, i);
      var k :| 0 <= k < |IndexOf(init)| && IndexOf(init)[k] == Entry(rows[i].condition, Ids(rows[i]));
      assert Skipped(row) || IndexOf(rows)[k] == IndexOf(init)[k];
    } else {
      assert IndexOf(rows)[|IndexOf(init)|] == Entry(row.condition, Ids(row));
    }
  }

  lemma {:induction false} DisjointMakesInverse(rows: seq<Row>)
    requires DistinctConditions(rows) && Disjoint(rows)
    ensures Inverse(AssetsOf(rows), IndexOf(rows))
  {
    if rows != [] {
      var init, row := rows[..|rows| - 1], rows[|rows| - 1];
      DisjointMakesInverse(init);
      EntriesComeFromRows(init);
      EntriesComeFromRows(rows);
      if !Skipped(row) {
        AppendKeepsInverse(AssetsOf(init), IndexOf(init), init, row);
      }
    }
  }

  lemma InverseMakesDisjoint(rows: seq<Row>)
    requires DistinctConditions(rows) && Inverse(AssetsOf(rows), IndexOf(rows))
    ensures Disjoint(rows)
  {
    forall i, j, a | 0 <= i < j < |rows| && a in Ids(rows[i]) ensures a !in Ids(rows[j]) {
      if a in Ids(rows[j]) {
        RowsHaveEntries(rows, i);
        RowsHaveEntries(rows, j);
        assert false;
      }
    }
  }

  /** The asset index is the inverse of the condition index if and only if no asset belongs to two rows; a row
      may list an asset twice. */
  lemma IndexesAreInverse(rows: seq<Row>)
    requires DistinctConditions(rows)
    ensures Inverse(AssetsOf(rows), IndexOf(rows)) <==> Disjoint(rows)
  {
    if Disjoint(rows) {
      DisjointMakesInverse(rows);
    } else if Inverse(AssetsOf(rows), IndexOf(rows)) {
      InverseMakesDisjoint(rows);
    }
  }

  lemma EntryIsApart(e: Entry, init: seq<Row>, row: Row)
    requires DistinctConditions(init + [row]) && Disjoint(init + [row]) && ComesFrom(e, init)
    ensures e.condition != row.condition && forall a :: a in e.ids ==> a !in Ids(row)
  {
    var rows := init + [row];
    var i :| 0 <= i < |init| && IsEntryOf(e, init[i]);
    assert rows[i] == init[i] && rows[|init|] == row;
    assert Ids(rows[i]) == e.ids;
  }

  lemma AppendKeepsInverse(assets: map<Asset, Condition>, index: seq<Entry>, init: seq<Row>, row: Row)
    requires DistinctConditions(init + [row]) && Disjoint(init + [row]) && Inverse(assets, index)
    requires forall k :: 0 <= k < |index| ==> ComesFrom(index[k], init)
    ensures Inverse(Assign(assets, Ids(row), row.condition), index + [Entry(row.condition, Ids(row))])
  {
    var e := Entry(row.condition, Ids(row));
    var index' := index + [e];
    forall k | 0 <= k < |index|
      ensures index[k].condition != row.condition && forall a :: a in index[k].ids ==> a !in e.ids
    {
      EntryIsApart(index[k], init, row);
    }
    assert index'[|index|] == e;
    forall a | a in Assign(assets, Ids(row), row.condition)
      ensures exists i :: 0 <= i < |index'| && a in index'[i].ids
    {
      if a in e.ids {
        assert a in index'[|index|].ids;
      } else {
        var i :| 0 <= i < |index| && a in index[i].ids;
        assert a in index'[i].ids;
      }
    }
  }

  lemma DistinctAppend(xs: seq<Asset>, ys: seq<Asset>)
    requires Distinct(xs) && Distinct(ys) && forall a :: a in xs ==> a !in ys
    ensures Distinct(xs + ys)
  {
    forall i, j | 0 <= i < j < |xs + ys| ensures (xs + ys)[i] != (xs + ys)[j] {
      if i < |xs| <= j {
        assert xs[i] in xs && ys[j - |xs|] in ys;
      }
    }
  }

  ghost predicate InSome(rows: seq<Row>, a: Asset) {
    exists i :: 0 <= i < |rows| && a in Ids(rows[i])
  }

  /** The indexed assets are exactly the live token ids of the rows. */
  lemma {:induction false} AssetsComeFromRows(rows: seq<Row>, a: Asset)
    ensures a in AssetsOf(rows) <==> InSome(rows, a)
  {
    if rows != [] {
      var init, row := rows[..|rows| - 1], rows[|rows| - 1];
      AssetsComeFromRows(init, a);
      assert a in AssetsOf(rows) <==> a in AssetsOf(init) || a in Ids(row);
      assert forall i :: 0 <= i < |init| ==> init[i] == rows[i];
    }
  }

  /** The current asset list holds exactly the assets that are indexed. */
  lemma {:induction false} CurrentAssetsAreIndexed(rows: seq<Row>)
    requires DistinctConditions(rows)
    ensures forall a :: a in AllAssets(IndexOf(rows)) <==> a in AssetsOf(rows)
  {
    if rows != [] {
      CurrentAssetsAreIndexed(rows[..|rows| - 1]);
      OneMoreRow(rows);
    }
  }

  lemma OneMoreRow(rows: seq<Row>)
    requires DistinctConditions(rows) && rows != []
    ensures AllAssets(IndexOf(rows)) == AllAssets(IndexOf(rows[..|rows| - 1])) + Ids(rows[|rows| - 1])
  {
    var init, row := rows[..|rows| - 1], rows[|rows| - 1];
    if Skipped(row) {
      assert AllAssets(IndexOf(init)) + [] == AllAssets(IndexOf(init));
    } else {
      EntriesComeFromRows(rows);
      var index, e := IndexOf(init), Entry(row.condition, Ids(row));
      assert (index + [e])[..|index|] == index;
    }
  }

  lemma DistinctSplit(xs: seq<Asset>, ys: seq<Asset>)
    ensures Distinct(xs + ys) <==> Distinct(xs) && Distinct(ys) && forall a :: a in xs ==> a !in ys
  {
    if Distinct(xs + ys) {
      assert forall i :: 0 <= i < |xs| ==> (xs + ys)[i] == xs[i];
      assert forall i :: 0 <= i < |ys| ==> (xs + ys)[|xs| + i] == ys[i];
      forall a | a in xs ensures a !in ys {
        var i :| 0 <= i < |xs| && xs[i] == a;
        assert (xs + ys)[i] == a;
      }
    } else if Distinct(xs) && Distinct(ys) && forall a :: a in xs ==> a !in ys {
      DistinctAppend(xs, ys);
    }
  }

  lemma DisjointOneMore(init: seq<Row>, row: Row)
    ensures Disjoint(init + [row]) <==> Disjoint(init) && forall a :: a in Ids(row) ==> !InSome(init, a)
  {
    var rows := init + [row];
    assert rows[|init|] == row && forall i :: 0 <= i < |init| ==> rows[i] == init[i];
    if Disjoint(rows) {
      forall a | a in Ids(row) ensures !InSome(init, a) {
        assert forall i :: 0 <= i < |init| && a in Ids(init[i]) ==> a in Ids(rows[i]);
      }
    }
    if Disjoint(init) && forall a :: a in Ids(row) ==> !InSome(init, a) {
      forall i, j, a | 0 <= i < j < |rows| && a in Ids(rows[i]) ensures a !in Ids(rows[j]) {
        if j == |init| {
          assert a in Ids(init[i]);
        }
      }
    }
  }

  lemma DisjointFromIndexed(init: seq<Row>, row: Row)
    requires DistinctConditions(init)
    ensures (forall a :: a in AllAssets(IndexOf(init)) ==> a !in Ids(row)) <==>
      forall a :: a in Ids(row) ==> !InSome(init, a)
  {
    CurrentAssetsAreIndexed(init);
    forall a ensures a in AllAssets(IndexOf(init)) <==> InSome(init, a) {
      AssetsComeFromRows(init, a);
    }
  }

  /** And it has no repeats if and only if no asset is listed twice, in one row or in two. */
  lemma {:induction false} CurrentAssetsAreDistinct(rows: seq<Row>)
    requires DistinctConditions(rows)
    ensures Distinct(AllAssets(IndexOf(rows))) <==> RowsDistinct(rows) && Disjoint(rows)
  {
    if rows != [] {
      var init, row := rows[..|rows| - 1], rows[|rows| - 1];
      assert init + [row] == rows;
      RowsDistinctOneMore(init, row);
      DisjointOneMore(init, row);
      DisjointFromIndexed(init, row);
      OneMoreRow(rows);
      DistinctSplit(AllAssets(IndexOf(init)), Ids(row));
      CurrentAssetsAreDistinct(init);
    }
  }

  lemma RowsDistinctOneMore(init: seq<Row>, row: Row)
    ensures RowsDistinct(init + [row]) <==> RowsDistinct(init) && Distinct(Ids(row))
  {
    var rows := init + [row];
    assert rows[|init|] == row && forall i :: 0 <= i < |init| ==> rows[i] == init[i];
  }

  // ----- the refresh of the subscriptions

  function Missing(current: seq<Asset>, subscribed: seq<Asset>): (missing: seq<Asset>)
    ensures forall a :: a in missing <==> a in current && a !in subscribed
  {
    if current == [] then []
    else
      var init, last := Missing(current[..|current| - 1], subscribed), current[|current| - 1];
      if last in subscribed then init else init + [last]
  }

  /** As often as it is current, or not at all. */
  lemma {:induction false} MissingCounts(current: seq<Asset>, subscribed: seq<Asset>, a: Asset)
    ensures multiset(Missing(current, subscribed))[a] == if a in subscribed then 0 else multiset(current)[a]
  {
    if current != [] {
      var init, last := current[..|current| - 1], current[|current| - 1];
      MissingCounts(init, subscribed, a);
      assert current == init + [last];
    }
  }

  /** In the order of the current list. */
  lemma {:induction false} MissingFollows(xs: seq<Asset>, ys: seq<Asset>, subscribed: seq<Asset>)
    ensures Missing(xs + ys, subscribed) == Missing(xs, subscribed) + Missing(ys, subscribed)
  {
    if ys == [] {
      assert xs + ys == xs;
    } else {
      MissingFollows(xs, ys[..|ys| - 1], subscribed);
      assert (xs + ys)[..|xs + ys| - 1] == xs + ys[..|ys| - 1];
    }
  }

  /** The live ids of a row are its token ids without the empty ones, as often as it lists them, in order. */
  lemma {:induction false} LiveCounts(tokens: seq<Asset>, a: Asset)
    ensures multiset(Live(tokens))[a] == if a == NO_ASSET then 0 else multiset(tokens)[a]
  {
    if tokens != [] {
      var init, last := tokens[..|tokens| - 1], tokens[|tokens| - 1];
      LiveCounts(init, a);
      assert tokens == init + [last];
    }
  }

  lemma {:induction false} LiveFollows(xs: seq<Asset>, ys: seq<Asset>)
    ensures Live(xs + ys) == Live(xs) + Live(ys)
  {
    if ys == [] {
      assert xs + ys == xs;
    } else {
      LiveFollows(xs, ys[..|ys| - 1]);
      assert (xs + ys)[..|xs + ys| - 1] == xs + ys[..|ys| - 1];
    }
  }

  /** The subscription list after a refresh. */
  function Refreshed(subscribed: seq<Asset>, current: seq<Asset>): seq<Asset> {
    var extended := subscribed + Missing(current, subscribed);
    if |extended| > |current| then current else extended
  }

  function Elements(xs: seq<Asset>): set<Asset> {
    set x | x in xs
  }

  lemma {:induction false} ElementsSize(xs: seq<Asset>)
    ensures |Elements(xs)| <= |xs|
    ensures |Elements(xs)| == |xs| <==> Distinct(xs)
  {
    if xs != [] {
      var init, last := xs[..|xs| - 1], xs[|xs| - 1];
      ElementsSize(init);
      assert Elements(xs) == Elements(init) + {last};
      if last in init {
        assert Elements(xs) == Elements(init);
        var i :| 0 <= i < |init| && init[i] == last;
        assert xs[i] == xs[|xs| - 1];
      } else {
        assert Distinct(xs) <==> Distinct(init) by {
          if Distinct(init) {
            forall i, j | 0 <= i < j < |xs| ensures xs[i] != xs[j] {
              assert init[i] in init;
            }
          }
          if Distinct(xs) {
            assert forall i, j :: 0 <= i < j < |init| ==> init[i] == xs[i] && init[j] == xs[j];
          }
        }
      }
    }
  }

  lemma SubsetOfSameSize<T>(a: set<T>, b: set<T>)
    requires a <= b && |b| <= |a|
    ensures a == b
  {
    if exists x :: x in b && x !in a {
      var x :| x in b && x !in a;
      SubsetSize(a + {x}, b);
    }
  }

  lemma {:induction false} SubsetSize<T>(a: set<T>, b: set<T>)
    requires a <= b
    ensures |a| <= |b|
  {
    if a != {} {
      var x :| x in a;
      SubsetSize(a - {x}, b - {x});
    }
  }

  /** Although pruning compares lengths only: from a current list without repeats, the refreshed list is
      the current set, without repeats, whatever was subscribed before. */
  lemma RefreshIsExact(subscribed: seq<Asset>, current: seq<Asset>)
    requires Distinct(current)
    ensures Distinct(Refreshed(subscribed, current))
    ensures forall a :: a in Refreshed(subscribed, current) <==> a in current
  {
    var extended := subscribed + Missing(current, subscribed);
    if |extended| <= |current| {
      forall a | a in current ensures a in extended {
        assert a in subscribed || a in Missing(current, subscribed);
      }
      ElementsSize(extended);
      ElementsSize(current);
      SubsetSize(Elements(current), Elements(extended));
      SubsetOfSameSize(Elements(current), Elements(extended));
      assert forall a :: a in extended <==> a in Elements(extended);
    }
  }

  /** For all lists: the refreshed list holds exactly the current assets if and only if it is longer than the
      current list before the pruning, or nothing stale was subscribed. */
  lemma RefreshIsExactIff(subscribed: seq<Asset>, current: seq<Asset>)
    ensures (forall a :: a in Refreshed(subscribed, current) <==> a in current)
      <==> |subscribed + Missing(current, subscribed)| > |current| || forall a :: a in subscribed ==> a in current
  {
    var extended := subscribed + Missing(current, subscribed);
    if |extended| <= |current| {
      assert forall a :: a in extended <==> a in subscribed || a in Missing(current, subscribed);
    }
  }

  /** After a refresh from market rows: the condition of the indexes, no asset listed twice, is enough,
      whatever was subscribed before. */
  lemma RefreshFromRows(subscribed: seq<Asset>, rows: seq<Row>)
    requires DistinctConditions(rows) && RowsDistinct(rows) && Disjoint(rows)
    ensures var refreshed := Refreshed(subscribed, AllAssets(IndexOf(rows)));
      Distinct(refreshed) && forall a :: a in refreshed <==> a in AssetsOf(rows)
  {
    CurrentAssetsAreDistinct(rows);
    CurrentAssetsAreIndexed(rows);
    RefreshIsExact(subscribed, AllAssets(IndexOf(rows)));
  }

  function OneToken(c: Condition, a: Asset): Row {
    Row(c, Some([a]))
  }

  function TokenTwice(c: Condition, a: Asset): Row {
    Row(c, Some([a, a]))
  }

  /** Two markets of one asset each are subscribed; then the second one closes and the first one lists its
      asset twice: the refresh keeps the asset that is no longer current. */
  lemma RepeatedAssetHidesStaleOne(c: Condition, d: Condition, a: Asset, b: Asset)
    requires c != d && a != b && a != NO_ASSET && b != NO_ASSET
    ensures var before, after := [OneToken(c, a), OneToken(d, b)], [TokenTwice(c, a)];
      && DistinctConditions(before) && DistinctConditions(after) && b !in AssetsOf(after)
      && Refreshed([], AllAssets(IndexOf(before))) == [a, b]
      && Refreshed([a, b], AllAssets(IndexOf(after))) == [a, b]
  {
    AssetsBefore(c, d, a, b);
    AssetsAfter(c, a, b);
    MissingFromNone(a, b);
    MissingTwice(a, b);
  }

  lemma AssetsBefore(c: Condition, d: Condition, a: Asset, b: Asset)
    requires c != d && a != NO_ASSET && b != NO_ASSET
    ensures AllAssets(IndexOf([OneToken(c, a), OneToken(d, b)])) == [a, b]
  {
    ShortRows(c, a);
    ShortRows(d, b);
    AssetsOfTwo(OneToken(c, a), OneToken(d, b));
  }

  lemma AssetsAfter(c: Condition, a: Asset, b: Asset)
    requires a != b && a != NO_ASSET
    ensures AllAssets(IndexOf([TokenTwice(c, a)])) == [a, a] && b !in AssetsOf([TokenTwice(c, a)])
  {
    ShortRows(c, a);
    AssetsOfOne(TokenTwice(c, a));
    AssetsComeFromRows([TokenTwice(c, a)], b);
  }

  lemma AssetsOfOne(row: Row)
    ensures AllAssets(IndexOf([row])) == Ids(row)
  {
    OneMoreRow([row]);
  }

  lemma AssetsOfTwo(first: Row, second: Row)
    requires first.condition != second.condition
    ensures AllAssets(IndexOf([first, second])) == Ids(first) + Ids(second)
  {
    AssetsOfOne(first);
    OneMoreRow([first, second]);
    assert [first, second][..1] == [first];
  }

  lemma ShortRows(c: Condition, a: Asset)
    requires a != NO_ASSET
    ensures Ids(OneToken(c, a)) == [a] && Ids(TokenTwice(c, a)) == [a, a]
  {
    assert [a][..0] == [] && [a, a][..1] == [a];
    assert Live([a]) == [a];
  }

  lemma MissingFromNone(a: Asset, b: Asset)
    ensures Missing([a, b], []) == [a, b]
  {
    assert [a][..0] == [] && [a, b][..1] == [a];
    assert Missing([a], []) == [a];
  }

  lemma MissingTwice(a: Asset, b: Asset)
    ensures Missing([a, a], [a, b]) == []
  {
    assert [a][..0] == [] && [a, a][..1] == [a];
    assert Missing([a], [a, b]) == [];
  }

  function Join(messages: seq<seq<Asset>>): seq<Asset> {
    if messages == [] then [] else Join(messages[..|messages| - 1]) + messages[|messages| - 1]
  }

  lemma JoinOneMore(messages: seq<seq<Asset>>, chunk: seq<Asset>)
    ensures Join(messages + [chunk]) == Join(messages) + chunk
  {
    assert (messages + [chunk])[..|messages|] == messages;
  }

  class Subscriber {
    var assetToCondition: map<Asset, Condition>
    var conditionToAsset: seq<Entry>
    var subscribedAssets: seq<Asset>

    constructor ()
      ensures assetToCondition == map[] && conditionToAsset == [] && subscribedAssets == []
    {
      assetToCondition, conditionToAsset, subscribedAssets := map[], [], [];
    }

    /** Rebuilds both indexes from the rows, or leaves both alone when the query fails. */
    method RefreshMappings(rows: Option<seq<Row>>)
      modifies this`assetToCondition, this`conditionToAsset
      ensures rows.None? ==> assetToCondition == old(assetToCondition) && conditionToAsset == old(conditionToAsset)
      ensures rows.Some? ==> assetToCondition == AssetsOf(rows.value) && conditionToAsset == IndexOf(rows.value)
    {
      if rows.None? {
        return;
      }
      var newAssets: map<Asset, Condition>, newIndex: seq<Entry> := map[], [];
      for i := 0 to |rows.value|
        invariant newAssets == AssetsOf(rows.value[..i]) && newIndex == IndexOf(rows.value[..i])
        invariant assetToCondition == old(assetToCondition) && conditionToAsset == old(conditionToAsset)
      {
        var row := rows.value[i];
        assert rows.value[..i + 1][..i] == rows.value[..i];
        if row.tokens.None? || row.tokens.value == [] {
          continue;
        }
        var ids := Live(row.tokens.value);
        newIndex := Put(newIndex, row.condition, ids);
        ghost var before := newAssets;
        for t := 0 to |ids|
          invariant newAssets == Assign(before, ids[..t], row.condition)
        {
          assert ids[..t + 1][..t] == ids[..t];
          newAssets := newAssets[ids[t] := row.condition];
        }
        assert ids[..|ids|] == ids;
      }
      assert rows.value[..|rows.value|] == rows.value;
      assetToCondition, conditionToAsset := newAssets, newIndex;
    }

    method GetAssetIds() returns (allIds: seq<Asset>)
      ensures allIds == AllAssets(conditionToAsset)
    {
      allIds := [];
      for i := 0 to |conditionToAsset|
        invariant allIds == AllAssets(conditionToAsset[..i])
      {
        assert conditionToAsset[..i + 1][..i] == conditionToAsset[..i];
        allIds := allIds + conditionToAsset[i].ids;
      }
      assert conditionToAsset[..|conditionToAsset|] == conditionToAsset;
    }

    /** The subscribe messages for the ids: 200 ids each, but for the last one. */
    method Chunks(ids: seq<Asset>) returns (messages: seq<seq<Asset>>)
      ensures Join(messages) == ids
      ensures forall k :: 0 <= k < |messages| ==> 0 < |messages[k]| <= 200
      ensures forall k :: 0 <= k < |messages| - 1 ==> |messages[k]| == 200
    {
      messages := [];
      var i := 0;
      while i < |ids|
        invariant 0 <= i && Join(messages) == ids[..if i <= |ids| then i else |ids|]
        invariant forall k :: 0 <= k < |messages| ==> 0 < |messages[k]| <= 200
        invariant forall k :: 0 <= k < |messages| - 1 ==> |messages[k]| == 200
        invariant messages != [] && i <= |ids| ==> |messages[|messages| - 1]| == 200
      {
        var chunk := ids[i..if i + CHUNK_SIZE <= |ids| then i + CHUNK_SIZE else |ids|];
        JoinOneMore(messages, chunk);
        messages := messages + [chunk];
        i := i + CHUNK_SIZE;
      }
    }

    /** One round of the refresher. messages are the ids put into subscribe messages, in order; whether they
        arrive makes no difference to the list. */
    method Refresh(rows: Option<seq<Row>>) returns (messages: seq<seq<Asset>>)
      modifies this
      ensures rows.None? ==> conditionToAsset == old(conditionToAsset)
      ensures rows.Some? ==> conditionToAsset == IndexOf(rows.value) && assetToCondition == AssetsOf(rows.value)
      ensures subscribedAssets == Refreshed(old(subscribedAssets), AllAssets(conditionToAsset))
      ensures Join(messages) == Missing(AllAssets(conditionToAsset), old(subscribedAssets))
      ensures forall k :: 0 <= k < |messages| ==> 0 < |messages[k]| <= 200
      ensures forall k :: 0 <= k < |messages| - 1 ==> |messages[k]| == 200
    {
      RefreshMappings(rows);
      var currentIds := GetAssetIds();
      var newIds := Missing(currentIds, subscribedAssets);
      messages := [];
      if newIds != [] {
        messages := Chunks(newIds);
        subscribedAssets := subscribedAssets + newIds;
      }
      var staleCount := |subscribedAssets| - |currentIds|;
      if staleCount > 0 {
        subscribedAssets := currentIds;
      }
    }
  }
}
