/**
 * Steam reconciliation: owned assets are bound to acquisition evidence at one of four
 * confidence levels. Identifiers, names and currencies are numbered in the order of
 * their strings; 0 is the empty string, and time 0 the zero time. Times are seconds.
 */
module SteamMatching {
  import opened Prelude

  const DAY := 24 * 3600
  const MEDIUM_WINDOW := 72 * 3600

  datatype Kind = MarketBuy | Traded | Received | Crafted | Earned | MarketReturn | MarketList | Used | Unboxed | OtherKind

  datatype Event = Event(id: nat, time: nat, kind: Kind, name: nat, quantity: int, asset: nat, classId: nat, instanceId: nat)

  datatype Item = Item(asset: nat, classId: nat, instanceId: nat, name: nat, amount: int)

  datatype Tx = Tx(id: nat, time: nat, isBuy: bool, name: nat, quantity: int, gross: real, currency: nat)

  datatype Trade = Trade(id: nat, time: nat, received: seq<nat>)

  datatype Acquisition = ByPurchase | ByExchange | ByCraft | ByDrop | ByReturn | UnknownAcquisition

  /** What an asset was matched with: two exact forms, one high, one medium. */
  datatype Evidence = NoEvidence | SnapshotEvent(ev: Event) | TradeEcho(trade: Trade)
                    | MarketPair(ev: Event, tx: Tx) | AttributeEvent(ev: Event)

  datatype Resolution = Resolution(item: Item, evidence: Evidence, acquiredAt: Option<nat>, acquisition: Acquisition,
                                   reference: nat, costBasis: Option<real>, costCurrency: nat)

  /** What a reconciliation reads: the last snapshot's assets (none before the first), the history, the market
      rows by identifier, the trades, and the clock. */
  datatype Context = Context(before: Option<set<nat>>, events: seq<Event>, market: map<nat, Tx>, trades: seq<Trade>, now: nat)

  predicate IsAcquisitionKind(k: Kind) {
    k.MarketBuy? || k.Traded? || k.Received? || k.Crafted? || k.Earned? || k.MarketReturn?
  }

  function AcquisitionForKind(k: Kind): Acquisition {
    match k
    case MarketBuy => ByPurchase
    case Traded => ByExchange
    case Received => ByExchange
    case Crafted => ByCraft
    case Earned => ByDrop
    case MarketReturn => ByReturn
    case _ => UnknownAcquisition
  }

  function Gap(a: nat, b: nat): nat {
    if a < b then b - a else a - b
  }

  /** Time order, ties by identifier. */
  predicate Before(t1: nat, id1: nat, t2: nat, id2: nat) {
    t1 < t2 || (t1 == t2 && id1 <= id2)
  }

  // ---------------------------------------------------------------- sorting by time

  predicate Ordered<T(!new)>(s: seq<T>, time: T -> nat, id: T -> nat) {
    forall i, j :: 0 <= i < j < |s| ==> Before(time(s[i]), id(s[i]), time(s[j]), id(s[j]))
  }

  function Insert<T(!new)>(s: seq<T>, x: T, time: T -> nat, id: T -> nat): (r: seq<T>)
    requires Ordered(s, time, id)
    ensures Ordered(r, time, id)
    ensures forall y :: y in r <==> y == x || y in s
  {
    if s == [] || Before(time(x), id(x), time(s[0]), id(s[0])) then [x] + s
    else
      assert s == [s[0]] + s[1..];
      var rest := Insert(s[1..], x, time, id);
      assert forall y :: y in rest ==> Before(time(s[0]), id(s[0]), time(y), id(y));
      [s[0]] + rest
  }

  function Sorted<T(!new)>(s: seq<T>, time: T -> nat, id: T -> nat): (r: seq<T>)
    ensures Ordered(r, time, id)
    ensures forall y :: y in r <==> y in s
  {
    if s == [] then []
    else
      assert s == [s[0]] + s[1..];
      Insert(Sorted(s[1..], time, id), s[0], time, id)
  }

  function EventTime(e: Event): nat { e.time }

  function EventId(e: Event): nat { e.id }

  function TxTime(t: Tx): nat { t.time }

  function TxId(t: Tx): nat { t.id }

  // ---------------------------------------------------------------- nearest pair

  predicate EventFits(ev: Event, consumed: set<nat>, it: Item) {
    ev.id !in consumed && IsAcquisitionKind(ev.kind) && (ev.name == 0 || ev.name == it.name)
  }

  predicate TxFits(tx: Tx, consumedTx: set<nat>, it: Item) {
    tx.id !in consumedTx && tx.isBuy && tx.name == it.name && (tx.quantity == it.amount || tx.quantity == 1)
  }

  predicate Eligible(ev: Event, tx: Tx, consumed: set<nat>, consumedTx: set<nat>, it: Item) {
    EventFits(ev, consumed, it) && TxFits(tx, consumedTx, it) && Gap(ev.time, tx.time) <= DAY
  }

  /** A pair is preferred for its gap, then for its event, then for its transaction. */
  predicate Preferred(ev1: Event, tx1: Tx, ev2: Event, tx2: Tx) {
    var g1, g2 := Gap(ev1.time, tx1.time), Gap(ev2.time, tx2.time);
    g1 < g2 || (g1 == g2 && ((ev1 == ev2 && Before(tx1.time, tx1.id, tx2.time, tx2.id))
                             || (ev1 != ev2 && Before(ev1.time, ev1.id, ev2.time, ev2.id))))
  }

  predicate DistinctEvents(events: seq<Event>) {
    forall i, j :: 0 <= i < j < |events| ==> events[i].id != events[j].id
  }

  predicate KeyedById(market: map<nat, Tx>) {
    forall k :: k in market ==> market[k].id == k
  }

  /** The most preferred eligible pair, or none when nothing is eligible. */
  ghost predicate IsBestPair(best: Option<(Event, Tx)>, events: seq<Event>, market: map<nat, Tx>,
                             consumed: set<nat>, consumedTx: set<nat>, it: Item) {
    match best
    case None => forall ev, k :: ev in events && k in market ==> !Eligible(ev, market[k], consumed, consumedTx, it)
    case Some(pair) =>
      && pair.0 in events && pair.1 in market.Values && Eligible(pair.0, pair.1, consumed, consumedTx, it)
      && forall ev, k :: ev in events && k in market && Eligible(ev, market[k], consumed, consumedTx, it) ==>
           Preferred(pair.0, pair.1, ev, market[k])
  }

  /** There is at most one best pair, so it cannot depend on the order in which the market map is visited. */
  lemma {:induction false} BestPairIsUnique(best: Option<(Event, Tx)>, other: Option<(Event, Tx)>, events: seq<Event>,
                                            market: map<nat, Tx>, consumed: set<nat>, consumedTx: set<nat>, it: Item)
    requires DistinctEvents(events) && KeyedById(market)
    requires IsBestPair(best, events, market, consumed, consumedTx, it)
    requires IsBestPair(other, events, market, consumed, consumedTx, it)
    ensures best == other
  {
  }

  /** The unconsumed market rows, gathered in whatever order the map is visited. */
  method Unconsumed(market: map<nat, Tx>, consumedTx: set<nat>) returns (ts: seq<Tx>)
    ensures forall tx :: tx in ts <==> tx in market.Values && tx.id !in consumedTx
  {
    ts := [];
    var keys := market.Keys;
    while keys != {}
      invariant keys <= market.Keys
      invariant forall tx :: tx in ts ==> tx in market.Values && tx.id !in consumedTx
      invariant forall k :: k in market.Keys - keys && market[k].id !in consumedTx ==> market[k] in ts
      decreases |keys|
    {
      var k :| k in keys;
      keys := keys - {k};
      if market[k].id !in consumedTx {
        ts := ts + [market[k]];
      }
    }
  }

  /** What the nested loops have settled: the best of the pairs visited before (i, j). */
  ghost predicate BestSoFar(best: Option<(Event, Tx)>, es: seq<Event>, ts: seq<Tx>, i: nat, j: nat,
                            consumed: set<nat>, consumedTx: set<nat>, it: Item)
    requires i <= |es| && j <= |ts|
  {
    forall a, b :: 0 <= a < |es| && 0 <= b < |ts| && (a < i || (a == i && b < j)) && Eligible(es[a], ts[b], consumed, consumedTx, it) ==>
      best.Some? && Preferred(best.value.0, best.value.1, es[a], ts[b])
  }

  ghost predicate FoundBefore(best: Option<(Event, Tx)>, es: seq<Event>, ts: seq<Tx>, i: nat, j: nat,
                              consumed: set<nat>, consumedTx: set<nat>, it: Item)
    requires i <= |es| && j <= |ts|
  {
    best.Some? ==>
      && Eligible(best.value.0, best.value.1, consumed, consumedTx, it)
      && exists a, b :: 0 <= a < |es| && 0 <= b < |ts| && (a < i || (a == i && b < j)) && best.value == (es[a], ts[b])
  }

  /** Replacing the best by a pair of strictly smaller gap, or keeping it otherwise, settles one more pair. */
  lemma {:induction false} OnePairMore(best: Option<(Event, Tx)>, next: Option<(Event, Tx)>, es: seq<Event>, ts: seq<Tx>, i: nat, j: nat,
                                       consumed: set<nat>, consumedTx: set<nat>, it: Item)
    requires i < |es| && j < |ts|
    requires Ordered(es, EventTime, EventId) && Ordered(ts, TxTime, TxId)
    requires BestSoFar(best, es, ts, i, j, consumed, consumedTx, it) && FoundBefore(best, es, ts, i, j, consumed, consumedTx, it)
    requires var closer := Eligible(es[i], ts[j], consumed, consumedTx, it)
                           && (best.Some? ==> Gap(es[i].time, ts[j].time) < Gap(best.value.0.time, best.value.1.time));
             next == if closer then Some((es[i], ts[j])) else best
    ensures BestSoFar(next, es, ts, i, j + 1, consumed, consumedTx, it) && FoundBefore(next, es, ts, i, j + 1, consumed, consumedTx, it)
  {
  }

  /** One row of the search: every transaction against one event. */
  method SearchRow(es: seq<Event>, ts: seq<Tx>, i: nat, best: Option<(Event, Tx)>, consumed: set<nat>, consumedTx: set<nat>, it: Item)
    returns (next: Option<(Event, Tx)>)
    requires i < |es| && EventFits(es[i], consumed, it) && forall tx :: tx in ts ==> tx.id !in consumedTx
    requires Ordered(es, EventTime, EventId) && Ordered(ts, TxTime, TxId)
    requires BestSoFar(best, es, ts, i, 0, consumed, consumedTx, it) && FoundBefore(best, es, ts, i, 0, consumed, consumedTx, it)
    ensures BestSoFar(next, es, ts, i, |ts|, consumed, consumedTx, it) && FoundBefore(next, es, ts, i, |ts|, consumed, consumedTx, it)
  {
    hide BestSoFar, FoundBefore, Ordered;
    next := best;
    var j := 0;
    while j < |ts|
      invariant 0 <= j <= |ts|
      invariant BestSoFar(next, es, ts, i, j, consumed, consumedTx, it)
      invariant FoundBefore(next, es, ts, i, j, consumed, consumedTx, it)
    {
      var tx := ts[j];
      var bestGap := if next.None? then 25 * 3600 else Gap(next.value.0.time, next.value.1.time);
      ghost var before := next;
      if tx.isBuy && tx.name == it.name && (tx.quantity == it.amount || tx.quantity == 1) {
        var gap := Gap(es[i].time, tx.time);
        if gap <= DAY && gap < bestGap {
          next := Some((es[i], tx));
        }
      }
      OnePairMore(before, next, es, ts, i, j, consumed, consumedTx, it);
      j := j + 1;
    }
  }

  method MatchMarketPair(events: seq<Event>, market: map<nat, Tx>, consumed: set<nat>, consumedTx: set<nat>, it: Item)
    returns (best: Option<(Event, Tx)>)
    ensures IsBestPair(best, events, market, consumed, consumedTx, it)
  {
    var es := Sorted(events, EventTime, EventId);
    var unsorted := Unconsumed(market, consumedTx);
    var ts := Sorted(unsorted, TxTime, TxId);
    best := None;
    var i := 0;
    while i < |es|
      invariant 0 <= i <= |es|
      invariant BestSoFar(best, es, ts, i, 0, consumed, consumedTx, it)
      invariant FoundBefore(best, es, ts, i, 0, consumed, consumedTx, it)
    {
      if EventFits(es[i], consumed, it) {
        best := SearchRow(es, ts, i, best, consumed, consumedTx, it);
      }
      i := i + 1;
    }
  }

  // ---------------------------------------------------------------- first matches

  predicate ExactFits(ev: Event, it: Item) {
    IsAcquisitionKind(ev.kind) && (ev.classId == 0 || ev.classId == it.classId) && (ev.name == 0 || ev.name == it.name)
  }

  /** The history events that name an asset, in order; nothing is indexed under the empty name. */
  function OfAsset(events: seq<Event>, asset: nat): (r: seq<Event>)
    ensures forall e :: e in r <==> e in events && e.asset == asset && asset != 0
  {
    if events == [] then []
    else
      assert events == events[..|events| - 1] + [events[|events| - 1]];
      var last := events[|events| - 1];
      OfAsset(events[..|events| - 1], asset) + if last.asset == asset && asset != 0 then [last] else []
  }

  function FirstExact(evs: seq<Event>, it: Item): (r: Option<Event>)
    ensures r.None? ==> forall e :: e in evs ==> !ExactFits(e, it)
    ensures r.Some? ==> exists k :: 0 <= k < |evs| && evs[k] == r.value && ExactFits(evs[k], it) && forall j :: 0 <= j < k ==> !ExactFits(evs[j], it)
  {
    if evs == [] then None
    else if ExactFits(evs[0], it) then Some(evs[0])
    else
      assert evs == [evs[0]] + evs[1..];
      FirstExact(evs[1..], it)
  }

  predicate EchoFits(tr: Trade, asset: nat) {
    exists k :: 0 <= k < |tr.received| && tr.received[k] != 0 && tr.received[k] == asset
  }

  function FirstEcho(trades: seq<Trade>, asset: nat): (r: Option<Trade>)
    ensures r.None? ==> forall tr :: tr in trades ==> !EchoFits(tr, asset)
    ensures r.Some? ==> exists k :: 0 <= k < |trades| && trades[k] == r.value && EchoFits(trades[k], asset) && forall j :: 0 <= j < k ==> !EchoFits(trades[j], asset)
  {
    if trades == [] then None
    else if EchoFits(trades[0], asset) then Some(trades[0])
    else
      assert trades == [trades[0]] + trades[1..];
      FirstEcho(trades[1..], asset)
  }

  predicate AttributesFit(ev: Event, consumed: set<nat>, it: Item, now: nat) {
    && ev.id !in consumed && IsAcquisitionKind(ev.kind)
    && ev.time != 0 && Gap(ev.time, now) <= MEDIUM_WINDOW
    && (ev.classId == 0 || ev.classId == it.classId) && (ev.instanceId == 0 || ev.instanceId == it.instanceId)
    && (ev.name == 0 || ev.name == it.name) && (ev.quantity == 0 || ev.quantity == it.amount)
  }

  function FirstByAttributes(evs: seq<Event>, consumed: set<nat>, it: Item, now: nat): (r: Option<Event>)
    ensures r.None? ==> forall e :: e in evs ==> !AttributesFit(e, consumed, it, now)
    ensures r.Some? ==> exists k :: 0 <= k < |evs| && evs[k] == r.value && AttributesFit(evs[k], consumed, it, now)
                                    && forall j :: 0 <= j < k ==> !AttributesFit(evs[j], consumed, it, now)
  {
    if evs == [] then None
    else if AttributesFit(evs[0], consumed, it, now) then Some(evs[0])
    else
      assert evs == [evs[0]] + evs[1..];
      FirstByAttributes(evs[1..], consumed, it, now)
  }

  function Lookup(byAsset: map<nat, seq<Event>>, asset: nat): seq<Event> {
    if asset in byAsset then byAsset[asset] else []
  }

  ghost predicate Indexes(byAsset: map<nat, seq<Event>>, events: seq<Event>) {
    forall a: nat :: Lookup(byAsset, a) == OfAsset(events, a)
  }

  lemma {:induction false} IndexGrows(byAsset: map<nat, seq<Event>>, events: seq<Event>, ev: Event)
    requires Indexes(byAsset, events)
    ensures Indexes(if ev.asset == 0 then byAsset else byAsset[ev.asset := Lookup(byAsset, ev.asset) + [ev]], events + [ev])
  {
    var next := if ev.asset == 0 then byAsset else byAsset[ev.asset := Lookup(byAsset, ev.asset) + [ev]];
    assert (events + [ev])[..|events|] == events;
    forall a: nat ensures Lookup(next, a) == OfAsset(events + [ev], a) {
      assert Lookup(byAsset, a) == OfAsset(events, a);
    }
  }

  method IndexByAsset(events: seq<Event>) returns (byAsset: map<nat, seq<Event>>)
    ensures Indexes(byAsset, events)
  {
    byAsset := map[];
    var i := 0;
    assert Indexes(byAsset, events[..0]);
    hide Indexes;
    while i < |events|
      invariant 0 <= i <= |events|
      invariant Indexes(byAsset, events[..i])
    {
      var ev := events[i];
      IndexGrows(byAsset, events[..i], ev);
      assert events[..i + 1] == events[..i] + [ev];
      if ev.asset != 0 {
        byAsset := byAsset[ev.asset := Lookup(byAsset, ev.asset) + [ev]];
      }
      i := i + 1;
    }
    assert events[..i] == events;
  }

  method MatchEvent(evs: seq<Event>, it: Item) returns (r: Option<Event>)
    ensures r == FirstExact(evs, it)
  {
    var i := 0;
    while i < |evs|
      invariant 0 <= i <= |evs|
      invariant FirstExact(evs, it) == FirstExact(evs[i..], it)
    {
      if ExactFits(evs[i], it) {
        return Some(evs[i]);
      }
      i := i + 1;
    }
    return None;
  }

  method MatchNewAssetId(trades: seq<Trade>, asset: nat) returns (r: Option<Trade>)
    ensures r == FirstEcho(trades, asset)
  {
    var i := 0;
    while i < |trades|
      invariant 0 <= i <= |trades|
      invariant FirstEcho(trades, asset) == FirstEcho(trades[i..], asset)
    {
      var k := 0;
      while k < |trades[i].received|
        invariant 0 <= k <= |trades[i].received|
        invariant forall n :: 0 <= n < k ==> !(trades[i].received[n] != 0 && trades[i].received[n] == asset)
      {
        if trades[i].received[k] != 0 && trades[i].received[k] == asset {
          return Some(trades[i]);
        }
        k := k + 1;
      }
      i := i + 1;
    }
    return None;
  }

  method MatchAttributes(evs: seq<Event>, consumed: set<nat>, it: Item, now: nat) returns (r: Option<Event>)
    ensures r == FirstByAttributes(evs, consumed, it, now)
  {
    var i := 0;
    while i < |evs|
      invariant 0 <= i <= |evs|
      invariant FirstByAttributes(evs, consumed, it, now) == FirstByAttributes(evs[i..], consumed, it, now)
    {
      if AttributesFit(evs[i], consumed, it, now) {
        return Some(evs[i]);
      }
      i := i + 1;
    }
    return None;
  }

  // ---------------------------------------------------------------- resolve

  /** The record that an asset gets from its evidence. */
  function ResolutionOf(it: Item, e: Evidence): Resolution {
    match e
    case NoEvidence => Resolution(it, e, None, UnknownAcquisition, 0, None, 0)
    case TradeEcho(tr) => Resolution(it, e, Some(tr.time), ByExchange, tr.id, None, 0)
    case SnapshotEvent(ev) => Resolution(it, e, EventDate(ev), AcquisitionForKind(ev.kind), ev.id, None, 0)
    case AttributeEvent(ev) => Resolution(it, e, EventDate(ev), AcquisitionForKind(ev.kind), ev.id, None, 0)
    case MarketPair(ev, tx) => Resolution(it, e, EventDate(ev), ByPurchase, tx.id, Some(UnitCost(tx)), tx.currency)
  }

  function EventDate(ev: Event): Option<nat> {
    if ev.time != 0 then Some(ev.time) else None
  }

  function UnitCost(tx: Tx): real {
    if tx.quantity > 1 then tx.gross / (tx.quantity as real) else tx.gross
  }

  /** The unit costs of a row's items add up to what was paid for it. */
  lemma {:induction false} UnitCostSharesTheGross(it: Item, ev: Event, tx: Tx)
    requires tx.quantity >= 1
    ensures var r := ResolutionOf(it, MarketPair(ev, tx));
            r.costBasis.Some? && r.costBasis.value * (tx.quantity as real) == tx.gross && r.reference == tx.id
  {
    assert tx.quantity == 1 ==> tx.quantity as real == 1.0;
  }

  /** The event that evidence uses up: the trade path uses none. */
  function EventsUsed(e: Evidence): set<nat> {
    match e
    case SnapshotEvent(ev) => {ev.id}
    case MarketPair(ev, _) => {ev.id}
    case AttributeEvent(ev) => {ev.id}
    case _ => {}
  }

  function TxsUsed(e: Evidence): set<nat> {
    if e.MarketPair? then {e.tx.id} else {}
  }

  function ConsumedBy(r: seq<Resolution>): (s: set<nat>)
    ensures forall i :: 0 <= i < |r| ==> EventsUsed(r[i].evidence) <= s
    ensures forall x :: x in s ==> exists i :: 0 <= i < |r| && x in EventsUsed(r[i].evidence)
  {
    if r == [] then {} else ConsumedBy(r[..|r| - 1]) + EventsUsed(r[|r| - 1].evidence)
  }

  function TxsConsumedBy(r: seq<Resolution>): (s: set<nat>)
    ensures forall i :: 0 <= i < |r| ==> TxsUsed(r[i].evidence) <= s
  {
    if r == [] then {} else TxsConsumedBy(r[..|r| - 1]) + TxsUsed(r[|r| - 1].evidence)
  }

  /** The exact match of an asset that was absent from the known previous snapshot. */
  function SnapshotMatch(c: Context, it: Item): Option<Event> {
    if c.before.Some? && it.asset !in c.before.value then FirstExact(OfAsset(c.events, it.asset), it) else None
  }

  /** The strongest evidence there is for an asset, given what earlier assets used up. */
  ghost predicate Chosen(c: Context, it: Item, consumed: set<nat>, consumedTx: set<nat>, e: Evidence) {
    if SnapshotMatch(c, it).Some? then e == SnapshotEvent(SnapshotMatch(c, it).value)
    else if FirstEcho(c.trades, it.asset).Some? then e == TradeEcho(FirstEcho(c.trades, it.asset).value)
    else if e.MarketPair? then IsBestPair(Some((e.ev, e.tx)), c.events, c.market, consumed, consumedTx, it)
    else
      && IsBestPair(None, c.events, c.market, consumed, consumedTx, it)
      && match FirstByAttributes(c.events, consumed, it, c.now)
         case Some(ev) => e == AttributeEvent(ev)
         case None => e == NoEvidence
  }

  ghost predicate IsStep(c: Context, it: Item, earlier: seq<Resolution>, x: Resolution) {
    x == ResolutionOf(it, x.evidence) && Chosen(c, it, ConsumedBy(earlier), TxsConsumedBy(earlier), x.evidence)
  }

  ghost predicate IsStepAt(c: Context, owned: seq<Item>, r: seq<Resolution>, i: nat)
    requires i < |r| == |owned|
  {
    IsStep(c, owned[i], r[..i], r[i])
  }

  /** One resolution per owned asset, in order, each with the strongest evidence left to it. */
  ghost predicate IsRun(c: Context, owned: seq<Item>, r: seq<Resolution>) {
    |r| == |owned| && forall i: nat :: i < |r| ==> IsStepAt(c, owned, r, i)
  }

  lemma {:induction false} EmptyRun(c: Context)
    ensures IsRun(c, [], []) && ConsumedBy([]) == {} && TxsConsumedBy([]) == {}
  {
  }

  lemma {:induction false} RunExtends(c: Context, owned: seq<Item>, r: seq<Resolution>, it: Item, e: Evidence)
    requires IsRun(c, owned, r) && Chosen(c, it, ConsumedBy(r), TxsConsumedBy(r), e)
    ensures var s := r + [ResolutionOf(it, e)];
            && IsRun(c, owned + [it], s)
            && ConsumedBy(s) == ConsumedBy(r) + EventsUsed(e) && TxsConsumedBy(s) == TxsConsumedBy(r) + TxsUsed(e)
  {
    var s := r + [ResolutionOf(it, e)];
    assert s[..|r|] == r;
    assert IsStep(c, it, r, ResolutionOf(it, e));
    hide IsStep;
    forall i: nat | i < |s| ensures IsStepAt(c, owned + [it], s, i) {
      if i < |r| {
        assert s[..i] == r[..i] && IsStepAt(c, owned, r, i);
      }
    }
  }

  function Leftover(events: seq<Event>, consumed: set<nat>): (r: seq<Event>)
    ensures forall e :: e in r <==> e in events && e.id !in consumed
  {
    if events == [] then []
    else
      assert events == events[..|events| - 1] + [events[|events| - 1]];
      var last := events[|events| - 1];
      Leftover(events[..|events| - 1], consumed) + if last.id in consumed then [] else [last]
  }

  method ResolveOne(c: Context, byAsset: map<nat, seq<Event>>, it: Item, consumed: set<nat>, consumedTx: set<nat>) returns (e: Evidence)
    requires Indexes(byAsset, c.events)
    ensures Chosen(c, it, consumed, consumedTx, e)
  {
    hide IsBestPair;
    if c.before.Some? && it.asset !in c.before.value {
      var exact := MatchEvent(Lookup(byAsset, it.asset), it);
      if exact.Some? {
        return SnapshotEvent(exact.value);
      }
    }
    var echo := MatchNewAssetId(c.trades, it.asset);
    if echo.Some? {
      return TradeEcho(echo.value);
    }
    var pair := MatchMarketPair(c.events, c.market, consumed, consumedTx, it);
    if pair.Some? {
      return MarketPair(pair.value.0, pair.value.1);
    }
    var weak := MatchAttributes(c.events, consumed, it, c.now);
    e := if weak.Some? then AttributeEvent(weak.value) else NoEvidence;
  }

  method CollectLeftover(events: seq<Event>, consumed: set<nat>) returns (unmatched: seq<Event>)
    ensures unmatched == Leftover(events, consumed)
  {
    unmatched := [];
    var i := 0;
    while i < |events|
      invariant 0 <= i <= |events|
      invariant unmatched == Leftover(events[..i], consumed)
    {
      assert events[..i + 1][..i] == events[..i];
      if events[i].id !in consumed {
        unmatched := unmatched + [events[i]];
      }
      i := i + 1;
    }
    assert events[..i] == events;
  }

  method Resolve(c: Context, owned: seq<Item>) returns (resolved: seq<Resolution>, unmatched: seq<Event>)
    ensures IsRun(c, owned, resolved)
    ensures unmatched == Leftover(c.events, ConsumedBy(resolved))
  {
    hide *;
    EmptyRun(c);
    var byAsset := IndexByAsset(c.events);
    var consumed, consumedTx := {}, {};
    resolved := [];
    var i := 0;
    while i < |owned|
      invariant 0 <= i == |resolved| <= |owned|
      invariant IsRun(c, owned[..i], resolved)
      invariant consumed == ConsumedBy(resolved) && consumedTx == TxsConsumedBy(resolved)
    {
      var e := ResolveOne(c, byAsset, owned[i], consumed, consumedTx);
      consumed := consumed + EventsUsed(e);
      consumedTx := consumedTx + TxsUsed(e);
      RunExtends(c, owned[..i], resolved, owned[i], e);
      assert owned[..i + 1] == owned[..i] + [owned[i]];
      resolved := resolved + [ResolutionOf(owned[i], e)];
      i := i + 1;
    }
    assert owned[..i] == owned;
    unmatched := CollectLeftover(c.events, consumed);
  }

  // ---------------------------------------------------------------- what a run guarantees

  /** The whole outcome is a function of the inputs: no iteration order can change it. */
  lemma {:induction false} RunIsUnique(c: Context, owned: seq<Item>, r: seq<Resolution>, s: seq<Resolution>)
    requires DistinctEvents(c.events) && KeyedById(c.market)
    requires IsRun(c, owned, r) && IsRun(c, owned, s)
    ensures r == s
  {
    hide IsStep;
    if r == [] {
    } else {
      var n := |r| - 1;
      assert r[..n][..n] == r[..n];
      forall i: nat | i < n ensures IsStepAt(c, owned[..n], r[..n], i) && IsStepAt(c, owned[..n], s[..n], i) {
        assert IsStepAt(c, owned, r, i) && IsStepAt(c, owned, s, i);
        assert r[..n][..i] == r[..i] && s[..n][..i] == s[..i];
      }
      RunIsUnique(c, owned[..n], r[..n], s[..n]);
      assert IsStepAt(c, owned, r, n) && IsStepAt(c, owned, s, n);
      SameStep(c, owned[n], r[..n], r[n], s[n]);
      assert r == r[..n] + [r[n]] && s == s[..n] + [s[n]];
    }
  }

  lemma {:induction false} SameStep(c: Context, it: Item, earlier: seq<Resolution>, x: Resolution, y: Resolution)
    requires DistinctEvents(c.events) && KeyedById(c.market)
    requires IsStep(c, it, earlier, x) && IsStep(c, it, earlier, y)
    ensures x == y
  {
  }

  /** A market row backs at most one asset. */
  lemma {:induction false} NoTransactionIsReused(c: Context, owned: seq<Item>, r: seq<Resolution>, i: nat, j: nat)
    requires IsRun(c, owned, r) && i < j < |r|
    ensures TxsUsed(r[i].evidence) !! TxsUsed(r[j].evidence)
  {
    assert r[..j][i] == r[i];
    assert TxsUsed(r[..j][i].evidence) <= TxsConsumedBy(r[..j]);
    assert IsStepAt(c, owned, r, j);
  }

  /** Below exact a step takes a fresh event; an exact one names its asset. */
  lemma {:induction false} OnlyExactReuses(c: Context, it: Item, earlier: seq<Resolution>, x: Resolution)
    requires IsStep(c, it, earlier, x)
    ensures x.evidence.SnapshotEvent? ==> x.evidence.ev in c.events && x.evidence.ev.asset == it.asset != 0
    ensures !x.evidence.SnapshotEvent? ==> EventsUsed(x.evidence) !! ConsumedBy(earlier)
  {
  }

  /** An event backs at most one asset below exact, and every later use of it names the asset it is used for. */
  lemma {:induction false} ReusedEventIsExact(c: Context, owned: seq<Item>, r: seq<Resolution>, i: nat, j: nat)
    requires IsRun(c, owned, r) && i < j < |r| && !(EventsUsed(r[i].evidence) !! EventsUsed(r[j].evidence))
    ensures r[j].evidence.SnapshotEvent? && r[j].evidence.ev.asset == owned[j].asset != 0
    ensures r[i].evidence.SnapshotEvent? && DistinctEvents(c.events) ==> owned[i].asset == owned[j].asset
  {
    assert r[..j][i] == r[i];
    assert EventsUsed(r[..j][i].evidence) <= ConsumedBy(r[..j]);
    assert IsStepAt(c, owned, r, j) && IsStepAt(c, owned, r, i);
    hide IsRun, IsStep;
    OnlyExactReuses(c, owned[j], r[..j], r[j]);
    OnlyExactReuses(c, owned[i], r[..i], r[i]);
  }

  predicate DistinctAssets(owned: seq<Item>) {
    forall i, j :: 0 <= i < j < |owned| ==> owned[i].asset != owned[j].asset
  }

  /** The asset has evidence of its own: a snapshot match or a trade echo. */
  predicate Strong(c: Context, it: Item) {
    SnapshotMatch(c, it).Some? || FirstEcho(c.trades, it.asset).Some?
  }

  /** The event fits the asset by market or by attributes, before anything is consumed. */
  ghost predicate CouldTake(c: Context, it: Item, e: Event) {
    AttributesFit(e, {}, it, c.now) || exists k :: k in c.market && Eligible(e, c.market[k], {}, {}, it)
  }

  /** A later asset's snapshot match fits an earlier asset that has no evidence of its own. */
  ghost predicate Contested(c: Context, owned: seq<Item>, i: nat, j: nat) {
    i < j < |owned| && !Strong(c, owned[i]) && SnapshotMatch(c, owned[j]).Some? && CouldTake(c, owned[i], SnapshotMatch(c, owned[j]).value)
  }

  lemma {:induction false} SnapshotMatchNamesItsAsset(c: Context, it: Item)
    requires SnapshotMatch(c, it).Some?
    ensures SnapshotMatch(c, it).value in c.events && SnapshotMatch(c, it).value.asset == it.asset != 0
  {
  }

  /** Weak evidence comes from an event that fits, whatever was consumed. */
  lemma {:induction false} WeakEvidenceFits(c: Context, it: Item, consumed: set<nat>, consumedTx: set<nat>, e: Evidence)
    requires Chosen(c, it, consumed, consumedTx, e) && (e.MarketPair? || e.AttributeEvent?)
    ensures !Strong(c, it) && e.ev in c.events && CouldTake(c, it, e.ev)
  {
    if e.MarketPair? {
      var k :| k in c.market && c.market[k] == e.tx;
      assert Eligible(e.ev, c.market[k], {}, {}, it);
    }
  }

  /** What a caller can check beforehand: where no snapshot match is contested, no event is used twice. */
  lemma {:induction false} UncontestedMatchesReuseNothing(c: Context, owned: seq<Item>, r: seq<Resolution>, i: nat, j: nat)
    requires IsRun(c, owned, r) && DistinctAssets(owned) && DistinctEvents(c.events)
    requires i < j < |r| && !Contested(c, owned, i, j)
    ensures EventsUsed(r[i].evidence) !! EventsUsed(r[j].evidence)
  {
    hide Chosen, CouldTake, Strong, SnapshotMatch;
    if !(EventsUsed(r[i].evidence) !! EventsUsed(r[j].evidence)) {
      assert IsStepAt(c, owned, r, i) && IsStepAt(c, owned, r, j);
      ReusedEventIsExact(c, owned, r, i, j);
      ExactIsTheSnapshotMatch(c, owned[j], ConsumedBy(r[..j]), TxsConsumedBy(r[..j]), r[j].evidence);
      ExactIsTheSnapshotMatch(c, owned[i], ConsumedBy(r[..i]), TxsConsumedBy(r[..i]), r[i].evidence);
      WeakEvidenceFits(c, owned[i], ConsumedBy(r[..i]), TxsConsumedBy(r[..i]), r[i].evidence);
      SnapshotMatchNamesItsAsset(c, owned[j]);
    }
  }

  lemma {:induction false} ExactIsTheSnapshotMatch(c: Context, it: Item, consumed: set<nat>, consumedTx: set<nat>, e: Evidence)
    requires Chosen(c, it, consumed, consumedTx, e)
    ensures e.SnapshotEvent? <==> SnapshotMatch(c, it).Some?
    ensures e.SnapshotEvent? ==> e.ev == SnapshotMatch(c, it).value
  {
  }

  // ---------------------------------------------------------------- when an event is used twice

  /** The events that the assets' snapshot matches use up. */
  function ExactIds(c: Context, items: seq<Item>): set<nat> {
    set i | 0 <= i < |items| && SnapshotMatch(c, items[i]).Some? :: SnapshotMatch(c, items[i]).value.id
  }

  ghost predicate IsReservedStep(c: Context, owned: seq<Item>, s: seq<Resolution>, i: nat)
    requires i < |s| <= |owned|
  {
    s[i] == ResolutionOf(owned[i], s[i].evidence)
    && Chosen(c, owned[i], ConsumedBy(s[..i]) + ExactIds(c, owned), TxsConsumedBy(s[..i]), s[i].evidence)
  }

  /** What the assets would get if every snapshot match were kept for its own asset from the start. */
  ghost predicate IsReservedRun(c: Context, owned: seq<Item>, s: seq<Resolution>) {
    |s| == |owned| && forall i: nat :: i < |s| ==> IsReservedStep(c, owned, s, i)
  }

  // There is such a run, so the condition below is one on the inputs.

  ghost predicate IsMostPreferred(b: (Event, Tx), pairs: set<(Event, Tx)>) {
    b in pairs && forall p :: p in pairs ==> Preferred(b.0, b.1, p.0, p.1)
  }

  ghost predicate OneEventPerId(pairs: set<(Event, Tx)>) {
    forall p, q :: p in pairs && q in pairs && p.0.id == q.0.id ==> p.0 == q.0
  }

  lemma {:induction false} OneMorePair(rest: set<(Event, Tx)>, x: (Event, Tx), b: (Event, Tx))
    requires IsMostPreferred(b, rest) && OneEventPerId(rest + {x})
    ensures IsMostPreferred(if Preferred(b.0, b.1, x.0, x.1) then b else x, rest + {x})
  {
    assert b in rest + {x} && x in rest + {x};
  }

  lemma {:induction false} MostPreferred(pairs: set<(Event, Tx)>)
    requires pairs != {} && OneEventPerId(pairs)
    ensures exists b :: IsMostPreferred(b, pairs)
    decreases |pairs|
  {
    var x :| x in pairs;
    var rest := pairs - {x};
    assert pairs == rest + {x};
    if rest == {} {
      assert pairs == {x};
      assert IsMostPreferred(x, {x});
    } else {
      assert OneEventPerId(rest);
      hide IsMostPreferred, OneEventPerId, Preferred;
      MostPreferred(rest);
      var b :| IsMostPreferred(b, rest);
      OneMorePair(rest, x, b);
    }
  }

  lemma {:induction false} BestPairExists(c: Context, it: Item, consumed: set<nat>, consumedTx: set<nat>)
    requires DistinctEvents(c.events)
    ensures exists best :: IsBestPair(best, c.events, c.market, consumed, consumedTx, it)
  {
    var pairs := set ev, k | ev in c.events && k in c.market && Eligible(ev, c.market[k], consumed, consumedTx, it) :: (ev, c.market[k]);
    if pairs == {} {
      assert forall ev, k :: ev in c.events && k in c.market && Eligible(ev, c.market[k], consumed, consumedTx, it) ==> (ev, c.market[k]) in pairs;
      assert IsBestPair(None, c.events, c.market, consumed, consumedTx, it);
    } else {
      MostPreferred(pairs);
      var b :| IsMostPreferred(b, pairs);
      assert forall ev, k :: ev in c.events && k in c.market && Eligible(ev, c.market[k], consumed, consumedTx, it) ==> (ev, c.market[k]) in pairs;
      assert IsBestPair(Some(b), c.events, c.market, consumed, consumedTx, it);
    }
  }

  lemma {:induction false} ChoiceExists(c: Context, it: Item, consumed: set<nat>, consumedTx: set<nat>)
    requires DistinctEvents(c.events)
    ensures exists e :: Chosen(c, it, consumed, consumedTx, e)
  {
    hide IsBestPair;
    BestPairExists(c, it, consumed, consumedTx);
    var best :| IsBestPair(best, c.events, c.market, consumed, consumedTx, it);
    var weak := FirstByAttributes(c.events, consumed, it, c.now);
    var e := if SnapshotMatch(c, it).Some? then SnapshotEvent(SnapshotMatch(c, it).value)
             else if FirstEcho(c.trades, it.asset).Some? then TradeEcho(FirstEcho(c.trades, it.asset).value)
             else if best.Some? then MarketPair(best.value.0, best.value.1)
             else if weak.Some? then AttributeEvent(weak.value) else NoEvidence;
    assert Chosen(c, it, consumed, consumedTx, e);
  }

  ghost predicate IsReservedPrefix(c: Context, owned: seq<Item>, s: seq<Resolution>) {
    |s| <= |owned| && forall i: nat :: i < |s| ==> IsReservedStep(c, owned, s, i)
  }

  lemma {:induction false} ReservedPrefixExists(c: Context, owned: seq<Item>, n: nat)
    requires n <= |owned| && DistinctEvents(c.events)
    ensures exists s :: |s| == n && IsReservedPrefix(c, owned, s)
  {
    if n == 0 {
      assert IsReservedPrefix(c, owned, []);
    } else {
      ReservedPrefixExists(c, owned, n - 1);
      var s :| |s| == n - 1 && IsReservedPrefix(c, owned, s);
      ChoiceExists(c, owned[n - 1], ConsumedBy(s) + ExactIds(c, owned), TxsConsumedBy(s));
      hide Chosen, ExactIds;
      var e :| Chosen(c, owned[n - 1], ConsumedBy(s) + ExactIds(c, owned), TxsConsumedBy(s), e);
      var t := s + [ResolutionOf(owned[n - 1], e)];
      forall i: nat | i < n ensures IsReservedStep(c, owned, t, i) {
        assert t[..i] == s[..i];
        if i < n - 1 { assert IsReservedStep(c, owned, s, i); } else { assert s[..i] == s; }
      }
      assert IsReservedPrefix(c, owned, t);
    }
  }

  lemma {:induction false} ReservedRunExists(c: Context, owned: seq<Item>)
    requires DistinctEvents(c.events)
    ensures exists s :: IsReservedRun(c, owned, s)
  {
    ReservedPrefixExists(c, owned, |owned|);
    hide IsReservedStep;
    var s :| |s| == |owned| && IsReservedPrefix(c, owned, s);
    assert IsReservedRun(c, owned, s);
  }

  predicate UsesEventsOnce(r: seq<Resolution>) {
    forall i, j :: 0 <= i < j < |r| ==> EventsUsed(r[i].evidence) !! EventsUsed(r[j].evidence)
  }

  /** Consuming what a choice does not use leaves it the best one. */
  lemma {:induction false} FewerEventsKeepTheChoice(c: Context, it: Item, consumed: set<nat>, more: set<nat>, consumedTx: set<nat>, e: Evidence)
    requires DistinctEvents(c.events)
    requires Chosen(c, it, consumed, consumedTx, e) && (Strong(c, it) || EventsUsed(e) !! more)
    ensures Chosen(c, it, consumed + more, consumedTx, e)
  {
    if !Strong(c, it) && !e.MarketPair? {
      FirstStays(c.events, consumed, more, it, c.now);
    }
  }

  lemma {:induction false} FirstStays(evs: seq<Event>, consumed: set<nat>, more: set<nat>, it: Item, now: nat)
    requires var first := FirstByAttributes(evs, consumed, it, now); first.Some? ==> first.value.id !in more
    ensures FirstByAttributes(evs, consumed + more, it, now) == FirstByAttributes(evs, consumed, it, now)
  {
    if evs != [] && !AttributesFit(evs[0], consumed, it, now) { FirstStays(evs[1..], consumed, more, it, now); }
  }

  lemma {:induction false} SameChoice(c: Context, it: Item, consumed: set<nat>, consumedTx: set<nat>, e: Evidence, f: Evidence)
    requires DistinctEvents(c.events) && KeyedById(c.market)
    requires Chosen(c, it, consumed, consumedTx, e) && Chosen(c, it, consumed, consumedTx, f)
    ensures e == f
  {
  }

  /** A choice made with the snapshot matches set aside shares nothing with the match of another asset. */
  lemma {:induction false} ReservedChoiceIsApart(c: Context, it: Item, consumed: set<nat>, consumedTx: set<nat>, e: Evidence, other: Item)
    requires DistinctEvents(c.events) && Chosen(c, it, consumed, consumedTx, e) && it.asset != other.asset
    requires SnapshotMatch(c, other).Some? && SnapshotMatch(c, other).value.id in consumed
    ensures SnapshotMatch(c, other).value.id !in EventsUsed(e)
  {
    SnapshotMatchNamesItsAsset(c, other);
  }

  /** What the second of two uses is: the later asset's snapshot match. */
  lemma {:induction false} SecondUse(c: Context, owned: seq<Item>, r: seq<Resolution>, i: nat, j: nat)
    requires IsRun(c, owned, r) && i < j < |r|
    ensures SnapshotMatch(c, owned[j]).Some? ==> EventsUsed(r[j].evidence) == {SnapshotMatch(c, owned[j]).value.id}
    ensures !(EventsUsed(r[i].evidence) !! EventsUsed(r[j].evidence)) ==> SnapshotMatch(c, owned[j]).Some?
  {
    assert IsStepAt(c, owned, r, j);
    hide IsRun, SnapshotMatch;
    ExactIsTheSnapshotMatch(c, owned[j], ConsumedBy(r[..j]), TxsConsumedBy(r[..j]), r[j].evidence);
    hide Chosen, IsStep;
    if !(EventsUsed(r[i].evidence) !! EventsUsed(r[j].evidence)) {
      ReusedEventIsExact(c, owned, r, i, j);
    }
  }

  /**
   * While a run agrees with the reserved one, its next choice is the reserved one exactly when no later asset uses the
   * same event again.
   */
  lemma {:induction false} WhenAChoiceIsReused(c: Context, owned: seq<Item>, r: seq<Resolution>, s: seq<Resolution>, i: nat)
    requires IsRun(c, owned, r) && IsReservedRun(c, owned, s)
    requires DistinctAssets(owned) && DistinctEvents(c.events) && KeyedById(c.market)
    requires i < |r| == |s| && r[..i] == s[..i]
    ensures r[i] == s[i] <==> forall j :: i < j < |r| ==> EventsUsed(r[i].evidence) !! EventsUsed(r[j].evidence)
  {
    var consumed, txs, exact := ConsumedBy(r[..i]), TxsConsumedBy(r[..i]), ExactIds(c, owned);
    assert IsStepAt(c, owned, r, i) && IsReservedStep(c, owned, s, i);
    if r[i] == s[i] {
      forall j | i < j < |r| ensures EventsUsed(r[i].evidence) !! EventsUsed(r[j].evidence) {
        SecondUse(c, owned, r, i, j);
        if SnapshotMatch(c, owned[j]).Some? {
          ReservedChoiceIsApart(c, owned[i], consumed + exact, txs, r[i].evidence, owned[j]);
        }
      }
    } else if forall j :: i < j < |r| ==> EventsUsed(r[i].evidence) !! EventsUsed(r[j].evidence) {
      if !Strong(c, owned[i]) {
        OnlyExactReuses(c, owned[i], r[..i], r[i]);
        ChoiceAvoidsMatches(c, owned, r, i);
      }
      FewerEventsKeepTheChoice(c, owned[i], consumed, exact, txs, r[i].evidence);
      SameChoice(c, owned[i], consumed + exact, txs, r[i].evidence, s[i].evidence);
      assert false;
    }
  }

  /** A weak choice that no later asset uses again is nobody's snapshot match. */
  lemma {:induction false} ChoiceAvoidsMatches(c: Context, owned: seq<Item>, r: seq<Resolution>, i: nat)
    requires IsRun(c, owned, r) && i < |r| && !Strong(c, owned[i])
    requires forall j :: i < j < |r| ==> EventsUsed(r[i].evidence) !! EventsUsed(r[j].evidence)
    ensures EventsUsed(r[i].evidence) !! ExactIds(c, owned)
  {
    hide IsRun, SnapshotMatch, EventsUsed;
    assert |owned| == |r| by { RunLength(c, owned, r); }
    forall j | 0 <= j < |owned| && SnapshotMatch(c, owned[j]).Some? ensures SnapshotMatch(c, owned[j]).value.id !in EventsUsed(r[i].evidence) {
      MatchIsUsed(c, owned, r, j);
      if j < i {
        SecondUse(c, owned, r, j, i);
      }
    }
  }

  lemma {:induction false} RunLength(c: Context, owned: seq<Item>, r: seq<Resolution>)
    requires IsRun(c, owned, r)
    ensures |r| == |owned|
  {
  }

  lemma {:induction false} MatchIsUsed(c: Context, owned: seq<Item>, r: seq<Resolution>, j: nat)
    requires IsRun(c, owned, r) && j < |r| && SnapshotMatch(c, owned[j]).Some?
    ensures EventsUsed(r[j].evidence) == {SnapshotMatch(c, owned[j]).value.id}
  {
    assert IsStepAt(c, owned, r, j);
  }

  /** The exact condition: a run uses no event twice if and only if it is the reserved run, that is, if and only if the
      reserved run is what the matcher does. */
  lemma {:induction false} WhenAnEventIsReused(c: Context, owned: seq<Item>, r: seq<Resolution>, s: seq<Resolution>)
    requires IsRun(c, owned, r) && IsReservedRun(c, owned, s)
    requires DistinctAssets(owned) && DistinctEvents(c.events) && KeyedById(c.market)
    ensures UsesEventsOnce(r) <==> r == s
    ensures UsesEventsOnce(r) <==> IsRun(c, owned, s)
  {
    assert |r| == |s| == |owned|;
    hide IsReservedRun, IsRun, EventsUsed;
    if UsesEventsOnce(r) {
      var i := 0;
      while i < |r|
        invariant 0 <= i <= |r| && r[..i] == s[..i]
      {
        WhenAChoiceIsReused(c, owned, r, s, i);
        assert r[..i + 1] == r[..i] + [r[i]] && s[..i + 1] == s[..i] + [s[i]];
        i := i + 1;
      }
      assert r == r[..i] && s == s[..i];
    }
    if r == s {
      forall i: nat | i < |r| ensures forall j :: i < j < |r| ==> EventsUsed(r[i].evidence) !! EventsUsed(r[j].evidence) {
        WhenAChoiceIsReused(c, owned, r, s, i);
      }
    }
    if IsRun(c, owned, s) {
      RunIsUnique(c, owned, r, s);
    }
  }

  /** A first reconciliation, with no snapshot to compare with, never uses an event twice. */
  lemma {:induction false} WithoutASnapshotNothingIsReused(c: Context, owned: seq<Item>, r: seq<Resolution>, i: nat, j: nat)
    requires IsRun(c, owned, r) && i < j < |r| && c.before.None?
    ensures EventsUsed(r[i].evidence) !! EventsUsed(r[j].evidence)
  {
    if !(EventsUsed(r[i].evidence) !! EventsUsed(r[j].evidence)) {
      assert IsStepAt(c, owned, r, j);
      ReusedEventIsExact(c, owned, r, i, j);
    }
  }

  /** The reuse does happen: one craft event backs a weak match of asset 7 and then the exact match of asset 8. */
  lemma {:induction false} OneEventCanBackTwoAssets()
    ensures var ev := Event(1, 1000, Crafted, 5, 1, 8, 3, 0);
            var c := Context(Some({7}), [ev], map[], [], 1000);
            var owned := [Item(7, 3, 0, 5, 1), Item(8, 3, 0, 5, 1)];
            IsRun(c, owned, [ResolutionOf(owned[0], AttributeEvent(ev)), ResolutionOf(owned[1], SnapshotEvent(ev))])
  {
    var ev := Event(1, 1000, Crafted, 5, 1, 8, 3, 0);
    var c := Context(Some({7}), [ev], map[], [], 1000);
    var owned := [Item(7, 3, 0, 5, 1), Item(8, 3, 0, 5, 1)];
    var r := [ResolutionOf(owned[0], AttributeEvent(ev)), ResolutionOf(owned[1], SnapshotEvent(ev))];
    assert r[..0] == [];
    assert ev in OfAsset(c.events, 8);
    assert FirstByAttributes(c.events, {}, owned[0], c.now) == Some(ev);
    assert Chosen(c, owned[0], {}, {}, AttributeEvent(ev));
    assert Chosen(c, owned[1], ConsumedBy(r[..1]), TxsConsumedBy(r[..1]), SnapshotEvent(ev));
  }
}
