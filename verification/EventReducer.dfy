/** The dashboard's event reducer: list-based upserts, and the keyed maps they stand for
    (eventApplier.ts). */
module EventReducer {
  import opened Options

  /** A JavaScript value; only equality matters. */
  datatype Value = Undefined | Of(n: int)

  datatype Field = Id | TradeId | OrderId | MarketId | Side | Size | FilledSize | Price | Pnl | Status | Other(n: nat)

  /** A JavaScript object; reading a missing property gives Undefined, and spreading is map union. */
  type Obj = map<Field, Value>

  function Get(o: Obj, f: Field): Value {
    if f in o then o[f] else Undefined
  }

  const ZERO := Of(0)
  const OPEN := Of(1)
  const MAX_ALERTS := 200

  datatype EventType = FillCreated | OrderUpdated | TradeUpdated | PortfolioSnapshot | PnlUpdated
                       | AlertCreated | UnknownType

  datatype WsEvent = WsEvent(eventType: EventType, eventId: Value, payload: Obj)

  datatype State = State(snapshot: Option<Obj>, positions: seq<Obj>,
                         orders: seq<Obj>, trades: seq<Obj>, alerts: seq<Obj>)

  // ----- lists

  /** findIndex: the first object whose field f is key, or the length of the list. */
  function Find(list: seq<Obj>, f: Field, key: Value): (i: nat)
    ensures i <= |list|
    ensures i < |list| ==> Get(list[i], f) == key
    ensures forall j :: 0 <= j < i ==> Get(list[j], f) != key
  {
    if list == [] then 0
    else if Get(list[0], f) == key then 0
    else 1 + Find(list[1..], f, key)
  }

  /** What an upsert does: which field is the key, what it merges into an object that is there, and what
      it puts in front when there is none. */
  datatype Change = Change(f: Field, key: Value, patch: Obj, created: Obj)

  /** The change keeps the key, and inserting does what inserting and merging does. */
  predicate WellFormed(c: Change) {
    Get(c.created, c.f) == c.key && (c.f in c.patch ==> c.patch[c.f] == c.key) && c.created + c.patch == c.created
  }

  function Upsert(list: seq<Obj>, c: Change): seq<Obj> {
    var i := Find(list, c.f, c.key);
    if i < |list| then list[i := list[i] + c.patch] else [c.created] + list
  }

  function FillChange(fill: Obj): Change {
    Change(TradeId, Get(fill, TradeId),
      map[FilledSize := Get(fill, Size), Price := Get(fill, Price)],
      map[TradeId := Get(fill, TradeId), MarketId := Get(fill, MarketId), Side := Get(fill, Side),
          Size := Get(fill, Size),
          FilledSize := Get(fill, Size), Price := Get(fill, Price), Pnl := ZERO, Status := OPEN])
  }

  function MergeChange(f: Field, payload: Obj): Change {
    Change(f, Get(payload, f), payload, payload)
  }

  lemma ChangesAreWellFormed(o: Obj, f: Field)
    ensures WellFormed(FillChange(o)) && WellFormed(MergeChange(f, o))
  {
    var c := FillChange(o);
    assert c.created + c.patch == c.created;
    assert o + o == o;
  }

  function Alert(e: WsEvent): Obj {
    e.payload[Id := e.eventId]
  }

  function AddAlert(alerts: seq<Obj>, alert: Obj): seq<Obj> {
    if Find(alerts, Id, Get(alert, Id)) < |alerts| then alerts
    else
      var all := [alert] + alerts;
      if |all| <= MAX_ALERTS then all else all[..MAX_ALERTS]
  }

  function Apply(e: WsEvent, s: State): State {
    match e.eventType
    case FillCreated => s.(positions := Upsert(s.positions, FillChange(e.payload)))
    case OrderUpdated => s.(orders := Upsert(s.orders, MergeChange(OrderId, e.payload)))
    case TradeUpdated => s.(trades := Upsert(s.trades, MergeChange(TradeId, e.payload)))
    case PortfolioSnapshot => s.(snapshot := Some(e.payload))
    case PnlUpdated => if s.snapshot.None? then s else s.(snapshot := Some(s.snapshot.value + e.payload))
    case AlertCreated => s.(alerts := AddAlert(s.alerts, Alert(e)))
    case UnknownType => s
  }

  /** The three handlers that edit a fresh copy of a list in place: on the map that the list stands for, an
      upsert of the key. The other objects keep their order, and a new one goes to the front. */
  method ApplyUpsert(list: seq<Obj>, c: Change) returns (newList: seq<Obj>)
    ensures newList == Upsert(list, c)
    ensures WellFormed(c) ==> View(newList, c.f) == MapUpsert(View(list, c.f), c)
    ensures WellFormed(c) && Unique(list, c.f) ==> Unique(newList, c.f)
    ensures c.key !in View(list, c.f) ==> |newList| == |list| + 1 && newList[1..] == list
    ensures c.key in View(list, c.f) ==> |newList| == |list|
    ensures c.key in View(list, c.f) ==>
      forall i :: 0 <= i < |list| && newList[i] != list[i] ==> Get(list[i], c.f) == c.key
  {
    ViewFinds(list, c.f, c.key);
    if WellFormed(c) {
      UpsertRefinesMap(list, c);
    }
    var existingIdx := Find(list, c.f, c.key);
    newList := list;
    if existingIdx < |list| {
      newList := newList[existingIdx := newList[existingIdx] + c.patch];
    } else {
      newList := [c.created] + newList;
    }
  }

  // ----- keyed maps

  /** The map a list stands for: an earlier object hides a later one with the same key. */
  function View(list: seq<Obj>, f: Field): map<Value, Obj> {
    if list == [] then map[] else View(list[1..], f)[Get(list[0], f) := list[0]]
  }

  function MapUpsert(m: map<Value, Obj>, c: Change): map<Value, Obj> {
    m[c.key := if c.key in m then m[c.key] + c.patch else c.created]
  }

  ghost predicate Unique(list: seq<Obj>, f: Field) {
    forall i, j :: 0 <= i < j < |list| ==> Get(list[i], f) != Get(list[j], f)
  }

  lemma {:induction false} ViewFinds(list: seq<Obj>, f: Field, key: Value)
    ensures key in View(list, f) <==> Find(list, f, key) < |list|
    ensures key in View(list, f) ==> View(list, f)[key] == list[Find(list, f, key)]
  {
    if list != [] {
      ViewFinds(list[1..], f, key);
    }
  }

  lemma ViewCons(o: Obj, list: seq<Obj>, f: Field)
    ensures View([o] + list, f) == View(list, f)[Get(o, f) := o]
  {
    assert ([o] + list)[1..] == list;
  }

  lemma UpdatesCommute(m: map<Value, Obj>, j: Value, k: Value, a: Obj, b: Obj)
    requires j != k
    ensures m[j := a][k := b] == m[k := b][j := a]
  {
  }

  lemma {:induction false} ViewReplace(list: seq<Obj>, f: Field, key: Value, o: Obj)
    requires Find(list, f, key) < |list| && Get(o, f) == key
    ensures View(list[Find(list, f, key) := o], f) == View(list, f)[key := o]
  {
    var i, rest := Find(list, f, key), list[1..];
    if i > 0 {
      ViewReplace(rest, f, key, o);
      assert list[i := o] == [list[0]] + rest[i - 1 := o];
      ViewCons(list[0], rest[i - 1 := o], f);
      UpdatesCommute(View(rest, f), key, Get(list[0], f), o, list[0]);
    } else {
      assert list[0 := o] == [o] + rest;
      ViewCons(o, rest, f);
    }
  }

  lemma PatchKeepsKey(o: Obj, c: Change)
    requires WellFormed(c) && Get(o, c.f) == c.key
    ensures Get(o + c.patch, c.f) == c.key
  {
  }

  /** An upsert on the list is an upsert on the map, and keeps the keys unique. */
  lemma UpsertRefinesMap(list: seq<Obj>, c: Change)
    requires WellFormed(c)
    ensures View(Upsert(list, c), c.f) == MapUpsert(View(list, c.f), c)
    ensures Unique(list, c.f) ==> Unique(Upsert(list, c), c.f)
  {
    var i := Find(list, c.f, c.key);
    ViewFinds(list, c.f, c.key);
    if i < |list| {
      PatchKeepsKey(list[i], c);
      ViewReplace(list, c.f, c.key, list[i] + c.patch);
    } else {
      assert ([c.created] + list)[1..] == list;
    }
  }

  lemma UpsertIsIdempotent(list: seq<Obj>, c: Change)
    requires WellFormed(c)
    ensures Upsert(Upsert(list, c), c) == Upsert(list, c)
  {
    var i := Find(list, c.f, c.key);
    var once := Upsert(list, c);
    if i < |list| {
      PatchKeepsKey(list[i], c);
      assert (list[i] + c.patch) + c.patch == list[i] + c.patch;
      FirstIs(once, c.f, c.key, i);
    } else {
      FirstIs(once, c.f, c.key, 0);
    }
  }

  lemma {:induction false} FirstIs(list: seq<Obj>, f: Field, key: Value, i: nat)
    requires i < |list| && Get(list[i], f) == key && forall j :: 0 <= j < i ==> Get(list[j], f) != key
    ensures Find(list, f, key) == i
  {
    if i > 0 {
      FirstIs(list[1..], f, key, i - 1);
    }
  }

  lemma MapUpsertsCommute(m: map<Value, Obj>, c: Change, d: Change)
    requires c.key != d.key
    ensures MapUpsert(MapUpsert(m, c), d) == MapUpsert(MapUpsert(m, d), c)
  {
  }

  /** All objects but the one with the key are the same in both maps. */
  ghost predicate OthersStay(m: map<Value, Obj>, m': map<Value, Obj>, key: Value) {
    forall x :: x != key ==> (x in m' <==> x in m) && (x in m ==> m'[x] == m[x])
  }

  lemma FilledPosition(o: Obj, fill: Obj, f: Field)
    ensures var o' := o + FillChange(fill).patch;
      && Get(o', FilledSize) == Get(fill, Size) && Get(o', Price) == Get(fill, Price)
      && (f != FilledSize && f != Price ==> Get(o', f) == Get(o, f))
  {
  }

  lemma OpenedPosition(fill: Obj, f: Field)
    ensures var o := FillChange(fill).created;
      && Get(o, FilledSize) == Get(fill, Size) && Get(o, Price) == Get(fill, Price)
      && (f == TradeId || f == MarketId || f == Side || f == Size ==> Get(o, f) == Get(fill, f))
      && Get(o, Pnl) == ZERO && Get(o, Status) == OPEN
      && (f in o ==> f == TradeId || f == MarketId || f == Side || f == Size || f == FilledSize || f == Price
                     || f == Pnl || f == Status)
  {
  }

  /** A fill sets filled size and price of its position and nothing else, or opens a position with the
      fill's terms and no other field. */
  ghost predicate Filled(m: map<Value, Obj>, m': map<Value, Obj>, fill: Obj, f: Field) {
    var k := Get(fill, TradeId);
    && OthersStay(m, m', k) && k in m'
    && Get(m'[k], FilledSize) == Get(fill, Size) && Get(m'[k], Price) == Get(fill, Price)
    && (k in m && f != FilledSize && f != Price ==> Get(m'[k], f) == Get(m[k], f))
    && (k !in m ==>
          match f
          case TradeId | MarketId | Side | Size => Get(m'[k], f) == Get(fill, f)
          case Pnl => Get(m'[k], f) == ZERO
          case Status => Get(m'[k], f) == OPEN
          case FilledSize | Price => true
          case _ => f !in m'[k])
  }

  lemma FillEffect(positions: seq<Obj>, fill: Obj, f: Field)
    ensures Filled(View(positions, TradeId), View(Upsert(positions, FillChange(fill)), TradeId), fill, f)
  {
    var c, m := FillChange(fill), View(positions, TradeId);
    ChangesAreWellFormed(fill, TradeId);
    UpsertRefinesMap(positions, c);
    if c.key in m {
      FilledPosition(m[c.key], fill, f);
    } else {
      OpenedPosition(fill, f);
    }
  }

  /** An order or trade update overwrites the fields it brings and keeps the others. */
  ghost predicate Merged(m: map<Value, Obj>, m': map<Value, Obj>, key: Field, payload: Obj, f: Field) {
    var k := Get(payload, key);
    && OthersStay(m, m', k) && k in m'
    && Get(m'[k], f) == if f in payload then payload[f] else if k in m then Get(m[k], f) else Undefined
  }

  lemma MergeEffect(list: seq<Obj>, key: Field, payload: Obj, f: Field)
    ensures Merged(View(list, key), View(Upsert(list, MergeChange(key, payload)), key), key, payload, f)
  {
    ChangesAreWellFormed(payload, key);
    UpsertRefinesMap(list, MergeChange(key, payload));
    MapMergeEffect(View(list, key), key, payload, f);
  }

  lemma MapMergeEffect(m: map<Value, Obj>, key: Field, payload: Obj, f: Field)
    ensures Merged(m, MapUpsert(m, MergeChange(key, payload)), key, payload, f)
  {
  }

  /** What every event does to the state, field by field: a fill to the positions, an order or a trade update to
      its list, a snapshot replaces the portfolio, and figures are merged into it, if it is there. */
  lemma EventEffect(e: WsEvent, s: State, f: Field)
    requires !e.eventType.AlertCreated?
    ensures var s', p := Apply(e, s), e.payload;
      match e.eventType
      case FillCreated =>
        s' == s.(positions := s'.positions) && Filled(View(s.positions, TradeId), View(s'.positions, TradeId), p, f)
      case OrderUpdated =>
        s' == s.(orders := s'.orders) && Merged(View(s.orders, OrderId), View(s'.orders, OrderId), OrderId, p, f)
      case TradeUpdated =>
        s' == s.(trades := s'.trades) && Merged(View(s.trades, TradeId), View(s'.trades, TradeId), TradeId, p, f)
      case PortfolioSnapshot => s' == s.(snapshot := Some(p))
      case PnlUpdated =>
        && s' == s.(snapshot := s'.snapshot) && (s.snapshot.None? <==> s'.snapshot.None?)
        && (s.snapshot.Some? ==>
              Get(s'.snapshot.value, f) == if f in p then p[f] else Get(s.snapshot.value, f))
      case _ => s' == s
  {
    match e.eventType
    case FillCreated => FillEffect(s.positions, e.payload, f);
    case OrderUpdated => MergeEffect(s.orders, OrderId, e.payload, f);
    case TradeUpdated => MergeEffect(s.trades, TradeId, e.payload, f);
    case _ =>
  }

  /** A new alert carries every field of the payload under the event's id and goes to the front; the others
      follow, up to 200 in all. A known one changes nothing. */
  lemma AlertEffect(e: WsEvent, s: State, f: Field)
    requires e.eventType.AlertCreated? && |s.alerts| <= 200
    ensures var s' := Apply(e, s);
      && s' == s.(alerts := s'.alerts)
      && (HasAlert(s.alerts, e.eventId) ==> s'.alerts == s.alerts)
      && (!HasAlert(s.alerts, e.eventId) ==>
            && |s'.alerts| == (if |s.alerts| < 200 then |s.alerts| + 1 else 200)
            && Get(s'.alerts[0], f) == (if f == Id then e.eventId else Get(e.payload, f))
            && s'.alerts[1..] == s.alerts[..|s'.alerts| - 1])
  {
    AddAlertIds(s.alerts, Alert(e), e.eventId);
  }

  // ----- the whole state

  /** The state as keyed maps; the alerts stay a list. */
  datatype MapState = MapState(
    snapshot: Option<Obj>, positions: map<Value, Obj>, orders: map<Value, Obj>,
    trades: map<Value, Obj>, alerts: seq<Obj>)

  function Abs(s: State): MapState {
    MapState(s.snapshot, View(s.positions, TradeId), View(s.orders, OrderId), View(s.trades, TradeId), s.alerts)
  }

  function MapApply(e: WsEvent, s: MapState): MapState {
    match e.eventType
    case FillCreated => s.(positions := MapUpsert(s.positions, FillChange(e.payload)))
    case OrderUpdated => s.(orders := MapUpsert(s.orders, MergeChange(OrderId, e.payload)))
    case TradeUpdated => s.(trades := MapUpsert(s.trades, MergeChange(TradeId, e.payload)))
    case PortfolioSnapshot => s.(snapshot := Some(e.payload))
    case PnlUpdated => if s.snapshot.None? then s else s.(snapshot := Some(s.snapshot.value + e.payload))
    case AlertCreated => s.(alerts := AddAlert(s.alerts, Alert(e)))
    case UnknownType => s
  }

  ghost predicate Tidy(s: State) {
    && Unique(s.positions, TradeId) && Unique(s.orders, OrderId) && Unique(s.trades, TradeId)
    && Unique(s.alerts, Id) && |s.alerts| <= MAX_ALERTS
  }

  lemma AddAlertKeepsTidy(alerts: seq<Obj>, alert: Obj)
    requires Unique(alerts, Id) && |alerts| <= MAX_ALERTS
    ensures Unique(AddAlert(alerts, alert), Id) && |AddAlert(alerts, alert)| <= MAX_ALERTS
  {
  }

  lemma ApplyRefinesMaps(e: WsEvent, s: State)
    ensures Abs(Apply(e, s)) == MapApply(e, Abs(s))
    ensures Tidy(s) ==> Tidy(Apply(e, s))
  {
    ChangesAreWellFormed(e.payload, OrderId);
    ChangesAreWellFormed(e.payload, TradeId);
    match e.eventType
    case FillCreated => UpsertRefinesMap(s.positions, FillChange(e.payload));
    case OrderUpdated => UpsertRefinesMap(s.orders, MergeChange(OrderId, e.payload));
    case TradeUpdated => UpsertRefinesMap(s.trades, MergeChange(TradeId, e.payload));
    case AlertCreated =>
      if Tidy(s) {
        AddAlertKeepsTidy(s.alerts, Alert(e));
      }
    case _ =>
  }

  function Run(s: State, events: seq<WsEvent>): State {
    if events == [] then s else Apply(events[|events| - 1], Run(s, events[..|events| - 1]))
  }

  function MapRun(s: MapState, events: seq<WsEvent>): MapState {
    if events == [] then s else MapApply(events[|events| - 1], MapRun(s, events[..|events| - 1]))
  }

  /** After any events from a tidy state: ids are still unique, at most 200 alerts are kept, and the lists
      are the fold of the keyed upserts. */
  lemma {:induction false} ReducerRefinesMaps(s: State, events: seq<WsEvent>)
    requires Tidy(s)
    ensures Tidy(Run(s, events)) && Abs(Run(s, events)) == MapRun(Abs(s), events)
  {
    if events != [] {
      ReducerRefinesMaps(s, events[..|events| - 1]);
      ApplyRefinesMaps(events[|events| - 1], Run(s, events[..|events| - 1]));
    }
  }

  /** Receiving an event twice in a row is receiving it once. */
  lemma ReplayIsNoOp(e: WsEvent, s: State)
    ensures Apply(e, Apply(e, s)) == Apply(e, s)
  {
    ChangesAreWellFormed(e.payload, OrderId);
    ChangesAreWellFormed(e.payload, TradeId);
    match e.eventType
    case FillCreated => UpsertIsIdempotent(s.positions, FillChange(e.payload));
    case OrderUpdated => UpsertIsIdempotent(s.orders, MergeChange(OrderId, e.payload));
    case TradeUpdated => UpsertIsIdempotent(s.trades, MergeChange(TradeId, e.payload));
    case PnlUpdated =>
      if s.snapshot.Some? {
        assert (s.snapshot.value + e.payload) + e.payload == s.snapshot.value + e.payload;
      }
    case AlertCreated =>
      var alerts, id := AddAlert(s.alerts, Alert(e)), e.eventId;
      if Find(s.alerts, Id, id) == |s.alerts| {
        FirstIs(alerts, Id, id, 0);
      }
    case _ =>
  }

  // ----- order of events

  /** What an event is about. */
  datatype Entity = Position(key: Value) | Order(key: Value) | Trade(key: Value)
                    | Portfolio | AlertOf(key: Value) | Nothing

  function About(e: WsEvent): Entity {
    match e.eventType
    case FillCreated => Position(Get(e.payload, TradeId))
    case OrderUpdated => Order(Get(e.payload, OrderId))
    case TradeUpdated => Trade(Get(e.payload, TradeId))
    case PortfolioSnapshot | PnlUpdated => Portfolio
    case AlertCreated => AlertOf(e.eventId)
    case UnknownType => Nothing
  }

  /** Events about distinct entities commute, as maps; two alerts do not always. */
  lemma DistinctEntitiesCommute(d: WsEvent, e: WsEvent, s: State)
    requires About(d) != About(e) && !(d.eventType == AlertCreated && e.eventType == AlertCreated)
    ensures Abs(Apply(e, Apply(d, s))) == Abs(Apply(d, Apply(e, s)))
  {
    ApplyRefinesMaps(d, s);
    ApplyRefinesMaps(e, s);
    ApplyRefinesMaps(e, Apply(d, s));
    ApplyRefinesMaps(d, Apply(e, s));
    MapAppliesCommute(d, e, Abs(s));
  }

  lemma MapAppliesCommute(d: WsEvent, e: WsEvent, s: MapState)
    requires About(d) != About(e) && !(d.eventType == AlertCreated && e.eventType == AlertCreated)
    ensures MapApply(e, MapApply(d, s)) == MapApply(d, MapApply(e, s))
  {
    if d.eventType == e.eventType {
      match d.eventType
      case FillCreated => MapUpsertsCommute(s.positions, FillChange(d.payload), FillChange(e.payload));
      case OrderUpdated => MapUpsertsCommute(s.orders,
        MergeChange(OrderId, d.payload), MergeChange(OrderId, e.payload));
      case TradeUpdated => MapUpsertsCommute(s.trades,
        MergeChange(TradeId, d.payload), MergeChange(TradeId, e.payload));
      case _ =>
    }
  }

  // ----- two alerts

  ghost predicate HasAlert(alerts: seq<Obj>, id: Value) {
    exists i :: 0 <= i < |alerts| && Get(alerts[i], Id) == id
  }

  ghost predicate SameAlerts(a: seq<Obj>, b: seq<Obj>) {
    forall id :: HasAlert(a, id) <==> HasAlert(b, id)
  }

  /** What is left of the alerts when a new one is put in front. */
  function Kept(alerts: seq<Obj>): seq<Obj> {
    if |alerts| < MAX_ALERTS then alerts else alerts[..MAX_ALERTS - 1]
  }

  lemma AddAlertIds(alerts: seq<Obj>, a: Obj, id: Value)
    ensures HasAlert(alerts, Get(a, Id)) ==> AddAlert(alerts, a) == alerts
    ensures !HasAlert(alerts, Get(a, Id)) ==>
      && AddAlert(alerts, a) == [a] + Kept(alerts)
      && (HasAlert(AddAlert(alerts, a), id) <==> id == Get(a, Id) || HasAlert(Kept(alerts), id))
  {
    if HasAlert(alerts, Get(a, Id)) {
      var i :| 0 <= i < |alerts| && Get(alerts[i], Id) == Get(a, Id);
      assert Find(alerts, Id, Get(a, Id)) <= i;
    } else {
      var kept := Kept(alerts);
      assert Find(alerts, Id, Get(a, Id)) == |alerts|;
      assert AddAlert(alerts, a) == [a] + kept;
      FrontId(a, kept, id);
    }
  }

  lemma FrontId(a: Obj, rest: seq<Obj>, id: Value)
    ensures HasAlert([a] + rest, id) <==> id == Get(a, Id) || HasAlert(rest, id)
  {
    if id == Get(a, Id) {
      assert Get(([a] + rest)[0], Id) == id;
    }
    if HasAlert(rest, id) {
      var i :| 0 <= i < |rest| && Get(rest[i], Id) == id;
      assert Get(([a] + rest)[i + 1], Id) == id;
    }
    if HasAlert([a] + rest, id) && id != Get(a, Id) {
      var i :| 0 <= i < |[a] + rest| && Get(([a] + rest)[i], Id) == id;
      assert Get(rest[i - 1], Id) == id;
    }
  }

  /** The first alert is new and the second one is the oldest of a full list, about to be pushed out. */
  ghost predicate PushesOut(alerts: seq<Obj>, a: Obj, b: Obj) {
    !HasAlert(alerts, Get(a, Id)) && HasAlert(alerts, Get(b, Id)) && !HasAlert(Kept(alerts), Get(b, Id))
  }

  lemma PushesOutMeansOldest(alerts: seq<Obj>, a: Obj, b: Obj)
    requires Unique(alerts, Id) && |alerts| <= MAX_ALERTS
    ensures PushesOut(alerts, a, b)
      <==> !HasAlert(alerts, Get(a, Id)) && |alerts| == MAX_ALERTS && Get(alerts[MAX_ALERTS - 1], Id) == Get(b, Id)
  {
    var kept, id := Kept(alerts), Get(b, Id);
    if HasAlert(alerts, id) && !HasAlert(kept, id) {
      var i :| 0 <= i < |alerts| && Get(alerts[i], Id) == id;
      assert i < |kept| ==> Get(kept[i], Id) == id;
    }
  }

  lemma OneNewAlert(alerts: seq<Obj>, a: Obj, b: Obj)
    requires |alerts| <= MAX_ALERTS && Get(a, Id) != Get(b, Id)
    requires !HasAlert(alerts, Get(a, Id)) && HasAlert(alerts, Get(b, Id))
    ensures SameAlerts(AddAlert(AddAlert(alerts, a), b), AddAlert(AddAlert(alerts, b), a)) <==> !PushesOut(alerts, a, b)
  {
    var front := AddAlert(alerts, a);
    AddAlertIds(alerts, b, Get(b, Id));
    AddAlertIds(alerts, a, Get(b, Id));
    AddAlertIds(front, b, Get(b, Id));
    if PushesOut(alerts, a, b) {
      assert HasAlert(AddAlert(front, b), Get(b, Id)) && !HasAlert(front, Get(b, Id));
    }
  }

  lemma TwoNewAlerts(alerts: seq<Obj>, a: Obj, b: Obj)
    requires |alerts| <= MAX_ALERTS && Get(a, Id) != Get(b, Id)
    requires !HasAlert(alerts, Get(a, Id)) && !HasAlert(alerts, Get(b, Id))
    ensures SameAlerts(AddAlert(AddAlert(alerts, a), b), AddAlert(AddAlert(alerts, b), a))
  {
    forall id
      ensures HasAlert(AddAlert(AddAlert(alerts, a), b), id) <==> HasAlert(AddAlert(AddAlert(alerts, b), a), id)
    {
      TwoNewAlertIds(alerts, a, b, id);
      TwoNewAlertIds(alerts, b, a, id);
    }
  }

  /** The alerts that stay when two new ones come in. */
  function KeptTwice(alerts: seq<Obj>): seq<Obj> {
    if |alerts| < MAX_ALERTS - 1 then alerts else alerts[..MAX_ALERTS - 2]
  }

  lemma TwoNewAlertIds(alerts: seq<Obj>, a: Obj, b: Obj, id: Value)
    requires |alerts| <= MAX_ALERTS && Get(a, Id) != Get(b, Id)
    requires !HasAlert(alerts, Get(a, Id)) && !HasAlert(alerts, Get(b, Id))
    ensures HasAlert(AddAlert(AddAlert(alerts, a), b), id)
      <==> id == Get(a, Id) || id == Get(b, Id) || HasAlert(KeptTwice(alerts), id)
  {
    var front := [a] + Kept(alerts);
    AddAlertIds(alerts, a, id);
    assert !HasAlert(front, Get(b, Id)) by {
      FrontId(a, Kept(alerts), Get(b, Id));
      assert HasAlert(Kept(alerts), Get(b, Id)) ==> HasAlert(alerts, Get(b, Id));
    }
    AddAlertIds(front, b, id);
    assert Kept(front) == [a] + KeptTwice(alerts);
    FrontId(a, KeptTwice(alerts), id);
  }

  /** Two alerts commute, as sets of ids, exactly when neither is new while the other one is the oldest of a
      full list: the new one would push the old one out and the old one would come back as new. */
  lemma AlertsCommuteIff(alerts: seq<Obj>, a: Obj, b: Obj)
    requires |alerts| <= MAX_ALERTS && Get(a, Id) != Get(b, Id)
    ensures SameAlerts(AddAlert(AddAlert(alerts, a), b), AddAlert(AddAlert(alerts, b), a))
      <==> !PushesOut(alerts, a, b) && !PushesOut(alerts, b, a)
  {
    AddAlertIds(alerts, a, Get(a, Id));
    AddAlertIds(alerts, b, Get(b, Id));
    if HasAlert(alerts, Get(a, Id)) {
      if !HasAlert(alerts, Get(b, Id)) {
        OneNewAlert(alerts, b, a);
      }
    } else if HasAlert(alerts, Get(b, Id)) {
      OneNewAlert(alerts, a, b);
    } else {
      TwoNewAlerts(alerts, a, b);
    }
  }
}
