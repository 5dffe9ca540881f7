/**
 * The average-cost basis of a wallet's remaining positions. Money and quantities are
 * reals; symbols are numbered after normalization, and None is an activity without one.
 */
module TonBasis {
  import opened Prelude
  import TonPrices

  datatype Kind = Buy | Deposit | TransferIn | Sell | TransferOut | OtherKind

  datatype Activity = Activity(date: int, symbol: Option<nat>, units: real, amount: real, kind: Kind)

  datatype Lot = Lot(qty: real, cost: real)

  const EMPTY := Lot(0.0, 0.0)

  // ---------------------------------------------------------------- stable sorting by date

  predicate NotBefore(date: int, s: seq<Activity>) {
    forall x :: x in s ==> date <= x.date
  }

  predicate ByDate(s: seq<Activity>) {
    s == [] || (NotBefore(s[0].date, s[1..]) && ByDate(s[1..]))
  }

  /** Places a after every activity that is not dated later. */
  function Insert(s: seq<Activity>, a: Activity): (r: seq<Activity>) {
    if s == [] || a.date < s[0].date then [a] + s else [s[0]] + Insert(s[1..], a)
  }

  lemma {:induction false} InsertedMultiset(s: seq<Activity>, a: Activity)
    ensures multiset(Insert(s, a)) == multiset(s) + multiset{a}
  {
    if s == [] || a.date < s[0].date {
    } else {
      InsertedMultiset(s[1..], a);
      assert s == [s[0]] + s[1..];
    }
  }

  lemma {:induction false} InsertedOrder(s: seq<Activity>, a: Activity)
    requires ByDate(s)
    ensures ByDate(Insert(s, a))
  {
    if s == [] {
    } else if a.date < s[0].date {
      assert s == [s[0]] + s[1..];
      assert ([a] + s)[1..] == s;
    } else {
      var rest := Insert(s[1..], a);
      InsertedOrder(s[1..], a);
      assert ([s[0]] + rest)[1..] == rest;
      forall x | x in rest ensures s[0].date <= x.date {
        InsertedMultiset(s[1..], a);
        assert x in multiset(rest);
      }
    }
  }

  function Sorted(s: seq<Activity>): (r: seq<Activity>) {
    if s == [] then [] else Insert(Sorted(s[..|s| - 1]), s[|s| - 1])
  }

  lemma {:induction false} SortedIsAnOrderedPermutation(s: seq<Activity>)
    ensures ByDate(Sorted(s)) && multiset(Sorted(s)) == multiset(s)
  {
    if s == [] {
    } else {
      SortedIsAnOrderedPermutation(s[..|s| - 1]);
      InsertedOrder(Sorted(s[..|s| - 1]), s[|s| - 1]);
      InsertedMultiset(Sorted(s[..|s| - 1]), s[|s| - 1]);
      assert s == s[..|s| - 1] + [s[|s| - 1]];
    }
  }

  function Keep(s: seq<Activity>, p: Activity -> bool): (r: seq<Activity>) {
    if s == [] then [] else (if p(s[0]) then [s[0]] else []) + Keep(s[1..], p)
  }

  lemma {:induction false} KeptAreElements(s: seq<Activity>, p: Activity -> bool)
    ensures forall x :: x in Keep(s, p) <==> x in s && p(x)
  {
    if s == [] {
    } else {
      KeptAreElements(s[1..], p);
      assert s == [s[0]] + s[1..];
    }
  }

  /** An earlier activity goes to the front of a selection of later ones. */
  lemma {:induction false} InsertAtFront(kept: seq<Activity>, a: Activity)
    requires forall x :: x in kept ==> a.date < x.date
    ensures Insert(kept, a) == [a] + kept
  {
  }

  lemma {:induction false} KeepPrefixed(x: Activity, s: seq<Activity>, p: Activity -> bool)
    ensures Keep([x] + s, p) == (if p(x) then [x] else []) + Keep(s, p)
  {
    assert ([x] + s)[1..] == s;
  }

  lemma {:induction false} KeepInserted(s: seq<Activity>, a: Activity, p: Activity -> bool)
    requires ByDate(s)
    ensures Keep(Insert(s, a), p) == if p(a) then Insert(Keep(s, p), a) else Keep(s, p)
  {
    if s == [] || a.date < s[0].date {
      KeepPrefixed(a, s, p);
      if s != [] {
        assert s == [s[0]] + s[1..];
      }
      KeptAreElements(s, p);
      InsertAtFront(Keep(s, p), a);
    } else {
      KeepInserted(s[1..], a, p);
      KeepPrefixed(s[0], Insert(s[1..], a), p);
      if p(s[0]) {
      } else {
        assert [] + Keep(s[1..], p) == Keep(s[1..], p);
      }
    }
  }

  lemma {:induction false} KeepAppended(s: seq<Activity>, a: Activity, p: Activity -> bool)
    ensures Keep(s + [a], p) == Keep(s, p) + if p(a) then [a] else []
  {
    if s == [] {
      assert s + [a] == [a] + [];
      KeepPrefixed(a, [], p);
    } else {
      KeepAppended(s[1..], a, p);
      KeepPrefixed(s[0], s[1..] + [a], p);
      KeepPrefixed(s[0], s[1..], p);
      hide Keep;
      assert s + [a] == [s[0]] + (s[1..] + [a]);
      assert s == [s[0]] + s[1..];
    }
  }

  lemma {:induction false} SortedAppended(s: seq<Activity>, a: Activity)
    ensures Sorted(s + [a]) == Insert(Sorted(s), a)
  {
  }

  lemma {:induction false} SortingKeepsOneMore(front: seq<Activity>, last: Activity, p: Activity -> bool)
    requires Keep(Sorted(front), p) == Sorted(Keep(front, p))
    ensures Keep(Sorted(front + [last]), p) == Sorted(Keep(front + [last], p))
  {
    hide *;
    SortedIsAnOrderedPermutation(front);
    KeepInserted(Sorted(front), last, p);
    SortedAppended(front, last);
    KeepAppended(front, last, p);
    if p(last) {
      SortedAppended(Keep(front, p), last);
    } else {
      assert Keep(front, p) + [] == Keep(front, p);
    }
  }

  /** Sorting a selection is selecting from the sorted list. */
  lemma {:induction false} SortingKeeps(s: seq<Activity>, p: Activity -> bool)
    ensures Keep(Sorted(s), p) == Sorted(Keep(s, p))
  {
    if s == [] {
    } else {
      var front, last := s[..|s| - 1], s[|s| - 1];
      SortingKeeps(front, p);
      SortingKeepsOneMore(front, last, p);
      assert s == front + [last];
    }
  }

  /** The sort is stable: activities of one date keep their order. */
  lemma {:induction false} SortIsStable(s: seq<Activity>, date: int)
    ensures Keep(Sorted(s), (a: Activity) => a.date == date) == Keep(s, (a: Activity) => a.date == date)
  {
    var same := (a: Activity) => a.date == date;
    SortingKeeps(s, same);
    KeptAreElements(s, same);
    SortedOfOneDate(Keep(s, same), date);
    SameSelection(Sorted(s), same, (a: Activity) => a.date == date);
    SameSelection(s, same, (a: Activity) => a.date == date);
  }

  lemma {:induction false} SameSelection(s: seq<Activity>, p: Activity -> bool, q: Activity -> bool)
    requires forall x :: p(x) == q(x)
    ensures Keep(s, p) == Keep(s, q)
  {
    if s != [] {
      SameSelection(s[1..], p, q);
    }
  }

  lemma {:induction false} SortedOfOneDate(s: seq<Activity>, date: int)
    requires forall x :: x in s ==> x.date == date
    ensures Sorted(s) == s
  {
    if s == [] {
    } else {
      SortedOfOneDate(s[..|s| - 1], date);
      InsertAtEnd(s[..|s| - 1], s[|s| - 1], date);
    }
  }

  lemma {:induction false} InsertAtEnd(s: seq<Activity>, a: Activity, date: int)
    requires a.date == date && forall x :: x in s ==> x.date == date
    ensures Insert(s, a) == s + [a]
  {
    if s == [] {
    } else {
      InsertAtEnd(s[1..], a, date);
      assert s == [s[0]] + s[1..];
    }
  }

  // ---------------------------------------------------------------- one symbol's lot

  predicate Inbound(k: Kind) { k.Buy? || k.Deposit? || k.TransferIn? }

  predicate Outbound(k: Kind) { k.Sell? || k.TransferOut? }

  predicate IsLeg(a: Activity, symbol: nat) { a.symbol == Some(symbol) && a.units > 0.0 }

  predicate Acquires(a: Activity) { Inbound(a.kind) && a.amount > 0.0 }

  function Share(cost: real, part: real, qty: real): real
    requires qty > 0.0
  {
    cost * part / qty
  }

  function Apply(l: Lot, a: Activity): Lot {
    if Acquires(a) then Lot(l.qty + a.units, l.cost + a.amount)
    else if Outbound(a.kind) && l.qty > 0.0 then
      var relief := if a.units > l.qty then l.qty else a.units;
      Lot(l.qty - relief, l.cost - Share(l.cost, relief, l.qty))
    else l
  }

  function LotOf(symbol: nat, ordered: seq<Activity>): Lot {
    if ordered == [] then EMPTY
    else
      var last := ordered[|ordered| - 1];
      var before := LotOf(symbol, ordered[..|ordered| - 1]);
      if IsLeg(last, symbol) then Apply(before, last) else before
  }

  /** A sound lot holds something and cost something, or is empty and cost nothing. */
  predicate Sound(l: Lot) {
    l == EMPTY || (l.qty > 0.0 && l.cost > 0.0)
  }

  lemma {:induction false} ShareFacts(cost: real, part: real, qty: real)
    requires qty > 0.0 && cost > 0.0 && 0.0 < part <= qty
    ensures (cost - Share(cost, part, qty)) * qty == cost * (qty - part)
    ensures part < qty ==> 0.0 < cost - Share(cost, part, qty) < cost
    ensures part == qty ==> Share(cost, part, qty) == cost
  {
    var s := Share(cost, part, qty);
    assert s * qty == cost * part;
    if part < qty {
      assert cost * part < cost * qty;
      assert s < cost by {
        if s >= cost { TonPrices.MulMono(qty, cost, s); }
      }
    }
  }

  /** Quantity and cost never go negative, and nothing is left of the cost when nothing is left of the quantity. */
  lemma {:induction false} LotIsSound(symbol: nat, ordered: seq<Activity>)
    ensures Sound(LotOf(symbol, ordered))
  {
    if ordered == [] {
    } else {
      var last := ordered[|ordered| - 1];
      var before := LotOf(symbol, ordered[..|ordered| - 1]);
      LotIsSound(symbol, ordered[..|ordered| - 1]);
      if IsLeg(last, symbol) && Outbound(last.kind) && before.qty > 0.0 {
        ShareFacts(before.cost, if last.units > before.qty then before.qty else last.units, before.qty);
      }
    }
  }

  /** A disposal relieves quantity and cost in proportion: the average of what remains is unchanged. */
  lemma {:induction false} DisposalKeepsTheAverage(l: Lot, a: Activity)
    requires Sound(l) && Outbound(a.kind) && 0.0 < a.units < l.qty
    ensures var after := Apply(l, a);
            after.qty == l.qty - a.units && Sound(after) && after.cost / after.qty == l.cost / l.qty
  {
    var after := Apply(l, a);
    ShareFacts(l.cost, a.units, l.qty);
    assert after.cost * l.qty == l.cost * after.qty;
  }

  // ---------------------------------------------------------------- whole histories

  predicate IsFullExit(symbol: nat, before: seq<Activity>, a: Activity) {
    IsLeg(a, symbol) && Outbound(a.kind) && a.units >= LotOf(symbol, before).qty
  }

  /** A full exit empties the lot: what follows counts as if the symbol had never been held before. */
  lemma {:induction false} FullExitForgets(symbol: nat, before: seq<Activity>, exit: Activity, later: seq<Activity>)
    requires IsFullExit(symbol, before, exit)
    ensures LotOf(symbol, before + [exit] + later) == LotOf(symbol, later)
  {
    var all := before + [exit] + later;
    if later == [] {
      assert all == before + [exit];
      assert all[..|all| - 1] == before;
      LotIsSound(symbol, before);
      var l := LotOf(symbol, before);
      if l.qty > 0.0 {
        ShareFacts(l.cost, l.qty, l.qty);
      }
    } else {
      assert all[..|all| - 1] == before + [exit] + later[..|later| - 1];
      FullExitForgets(symbol, before, exit, later[..|later| - 1]);
    }
  }

  /** The lot's cost lies between its quantity at the low price and at the high price. */
  predicate Priced(l: Lot, low: real, high: real) {
    TonPrices.Product(low, l.qty) <= l.cost <= TonPrices.Product(high, l.qty)
  }

  /** Every acquisition of the symbol was at a unit price between low and high. */
  predicate AcquiredBetween(symbol: nat, ordered: seq<Activity>, low: real, high: real) {
    forall a :: a in ordered && IsLeg(a, symbol) && Acquires(a) ==> TonPrices.Product(low, a.units) <= a.amount <= TonPrices.Product(high, a.units)
  }

  lemma {:induction false} ReliefKeepsThePrice(l: Lot, relief: real, low: real, high: real)
    requires l.qty > 0.0 && l.cost > 0.0 && 0.0 < relief <= l.qty && Priced(l, low, high)
    ensures Priced(Lot(l.qty - relief, l.cost - Share(l.cost, relief, l.qty)), low, high)
  {
    var cost, qty := l.cost - Share(l.cost, relief, l.qty), l.qty - relief;
    ShareFacts(l.cost, relief, l.qty);
    assert cost * l.qty == l.cost * qty;
    TonPrices.MulMono(qty, TonPrices.Product(low, l.qty), l.cost);
    TonPrices.MulMono(qty, l.cost, TonPrices.Product(high, l.qty));
    assert TonPrices.Product(low, l.qty) * qty == TonPrices.Product(low, qty) * l.qty;
    assert TonPrices.Product(high, l.qty) * qty == TonPrices.Product(high, qty) * l.qty;
    TonPrices.Cancel(l.qty, TonPrices.Product(low, qty), cost);
    TonPrices.Cancel(l.qty, cost, TonPrices.Product(high, qty));
  }

  lemma {:induction false} LotIsPriced(symbol: nat, ordered: seq<Activity>, low: real, high: real)
    requires AcquiredBetween(symbol, ordered, low, high)
    ensures Priced(LotOf(symbol, ordered), low, high)
  {
    if ordered == [] {
    } else {
      var front, last := ordered[..|ordered| - 1], ordered[|ordered| - 1];
      assert forall a :: a in front ==> a in ordered;
      LotIsPriced(symbol, front, low, high);
      LotIsSound(symbol, front);
      var l := LotOf(symbol, front);
      if IsLeg(last, symbol) {
        if Acquires(last) {
          assert TonPrices.Product(low, l.qty + last.units) == TonPrices.Product(low, l.qty) + TonPrices.Product(low, last.units);
          assert TonPrices.Product(high, l.qty + last.units) == TonPrices.Product(high, l.qty) + TonPrices.Product(high, last.units);
        } else if Outbound(last.kind) && l.qty > 0.0 {
          ReliefKeepsThePrice(l, if last.units > l.qty then l.qty else last.units, low, high);
        }
      }
    }
  }

  /** The average of what is held lies between the least and the greatest unit price paid since the last full exit. */
  lemma {:induction false} AverageIsBetweenPricesPaid(symbol: nat, before: seq<Activity>, exit: Activity, later: seq<Activity>, low: real, high: real)
    requires IsFullExit(symbol, before, exit) && AcquiredBetween(symbol, later, low, high)
    requires LotOf(symbol, before + [exit] + later).qty > 0.0
    ensures var l := LotOf(symbol, before + [exit] + later); low <= l.cost / l.qty <= high
  {
    FullExitForgets(symbol, before, exit, later);
    LotIsPriced(symbol, later, low, high);
    var l := LotOf(symbol, later);
    assert l.cost / l.qty * l.qty == l.cost;
    TonPrices.Cancel(l.qty, low, l.cost / l.qty);
    TonPrices.Cancel(l.qty, l.cost / l.qty, high);
  }

  /** The same without an exit, over the whole history. */
  lemma {:induction false} AverageIsBetweenAllPrices(symbol: nat, ordered: seq<Activity>, low: real, high: real)
    requires AcquiredBetween(symbol, ordered, low, high) && LotOf(symbol, ordered).qty > 0.0
    ensures low <= LotOf(symbol, ordered).cost / LotOf(symbol, ordered).qty <= high
  {
    LotIsPriced(symbol, ordered, low, high);
    var l := LotOf(symbol, ordered);
    assert l.cost / l.qty * l.qty == l.cost;
    TonPrices.Cancel(l.qty, low, l.cost / l.qty);
    TonPrices.Cancel(l.qty, l.cost / l.qty, high);
  }

  function OwnLegs(symbol: nat): Activity -> bool {
    (a: Activity) => IsLeg(a, symbol)
  }

  lemma {:induction false} LotOfAppended(symbol: nat, s: seq<Activity>, a: Activity)
    ensures LotOf(symbol, s + [a]) == if IsLeg(a, symbol) then Apply(LotOf(symbol, s), a) else LotOf(symbol, s)
  {
  }

  lemma {:induction false} LotOfOwnLegs(symbol: nat, ordered: seq<Activity>)
    ensures LotOf(symbol, Keep(ordered, OwnLegs(symbol))) == LotOf(symbol, ordered)
  {
    hide Apply;
    if ordered == [] {
    } else {
      var front, last := ordered[..|ordered| - 1], ordered[|ordered| - 1];
      LotOfOwnLegs(symbol, front);
      assert ordered == front + [last];
      KeepAppended(front, last, OwnLegs(symbol));
      LotOfAppended(symbol, front, last);
      if IsLeg(last, symbol) {
        LotOfAppended(symbol, Keep(front, OwnLegs(symbol)), last);
      } else {
        assert Keep(front, OwnLegs(symbol)) + [] == Keep(front, OwnLegs(symbol));
      }
    }
  }

  /** Each symbol gets what its own legs alone would give, in whatever order all the activities came. */
  lemma {:induction false} SymbolsAreIndependent(symbol: nat, activities: seq<Activity>)
    ensures LotOf(symbol, Sorted(Keep(activities, OwnLegs(symbol)))) == LotOf(symbol, Sorted(activities))
  {
    SortingKeeps(activities, OwnLegs(symbol));
    LotOfOwnLegs(symbol, Sorted(activities));
  }

  // ---------------------------------------------------------------- the method

  ghost predicate AreLots(lots: map<nat, Lot>, ordered: seq<Activity>) {
    forall s: nat :: (if s in lots then lots[s] else EMPTY) == LotOf(s, ordered)
  }

  ghost predicate IsBasis(basis: map<nat, real>, ordered: seq<Activity>) {
    forall s: nat :: var l := LotOf(s, ordered);
      if l.qty > 0.0 then s in basis && basis[s] == TonPrices.Round8(l.cost / l.qty) else s !in basis
  }

  method AccumulateLots(ordered: seq<Activity>) returns (lots: map<nat, Lot>)
    ensures AreLots(lots, ordered)
  {
    lots := map[];
    var i := 0;
    while i < |ordered|
      invariant 0 <= i <= |ordered|
      invariant AreLots(lots, ordered[..i])
    {
      var a := ordered[i];
      assert ordered[..i + 1][..i] == ordered[..i];
      if a.symbol.Some? && a.units > 0.0 {
        var l := if a.symbol.value in lots then lots[a.symbol.value] else EMPTY;
        if Inbound(a.kind) {
          if a.amount > 0.0 {
            l := Lot(l.qty + a.units, l.cost + a.amount);
          }
        } else if Outbound(a.kind) {
          if l.qty > 0.0 {
            var relief := if a.units > l.qty then l.qty else a.units;
            l := Lot(l.qty - relief, l.cost - Share(l.cost, relief, l.qty));
          }
        }
        lots := lots[a.symbol.value := l];
      }
      i := i + 1;
    }
    assert ordered[..i] == ordered;
  }

  method AverageBasis(activities: seq<Activity>) returns (basis: map<nat, real>)
    ensures IsBasis(basis, Sorted(activities))
  {
    var ordered := Sorted(activities);
    var lots := AccumulateLots(ordered);
    basis := map[];
    var keys := lots.Keys;
    while keys != {}
      invariant keys <= lots.Keys
      invariant forall s :: s in basis ==> s in lots && s !in keys
      invariant forall s :: s in lots && s !in keys ==>
                  if lots[s].qty > 0.0 && lots[s].cost > 0.0 then s in basis && basis[s] == TonPrices.Round8(lots[s].cost / lots[s].qty)
                  else s !in basis
      decreases |keys|
    {
      var s :| s in keys;
      keys := keys - {s};
      if lots[s].qty > 0.0 && lots[s].cost > 0.0 {
        basis := basis[s := TonPrices.Round8(lots[s].cost / lots[s].qty)];
      }
    }
    forall s: nat ensures Sound(LotOf(s, ordered)) {
      LotIsSound(s, ordered);
    }
  }

  // ---------------------------------------------------------------- vault shares

  /** A held token; master 0 is none. */
  datatype Token = Token(symbol: nat, master: nat, qty: real)

  datatype Spend = Spend(amount: real, time: int)

  datatype Attribution = Attribution(symbol: nat, master: nat, qty: real, amount: real, price: real, time: int)

  predicate HasInbound(activities: seq<Activity>, symbol: nat) {
    exists k :: 0 <= k < |activities| && activities[k].symbol == Some(symbol) && Inbound(activities[k].kind)
  }

  /** A held token that nothing explains but a paid outflow to its own master. */
  predicate Unexplained(activities: seq<Activity>, t: Token, outflows: map<nat, Spend>) {
    && t.qty > 0.0 && t.master != 0 && !HasInbound(activities, t.symbol)
    && t.master in outflows && outflows[t.master].amount > 0.0
  }

  function AttributionOf(t: Token, spend: Spend): Attribution
    requires t.qty > 0.0
  {
    Attribution(t.symbol, t.master, t.qty, TonPrices.Round8(spend.amount), TonPrices.Round8(spend.amount / t.qty), spend.time)
  }

  ghost predicate AreAttributions(out: seq<Attribution>, activities: seq<Activity>, tokens: seq<Token>, outflows: map<nat, Spend>) {
    && (forall t :: t in tokens && Unexplained(activities, t, outflows) ==> AttributionOf(t, outflows[t.master]) in out)
    && (forall a :: a in out ==> exists t :: t in tokens && Unexplained(activities, t, outflows) && a == AttributionOf(t, outflows[t.master]))
  }

  method VaultAttributions(activities: seq<Activity>, tokens: seq<Token>, outflows: map<nat, Spend>) returns (out: seq<Attribution>)
    ensures AreAttributions(out, activities, tokens, outflows) && |out| <= |tokens|
  {
    var inbound: set<nat> := {};
    var i := 0;
    while i < |activities|
      invariant 0 <= i <= |activities|
      invariant forall s: nat :: s in inbound <==> HasInbound(activities[..i], s)
    {
      var a := activities[i];
      assert activities[..i + 1] == activities[..i] + [a];
      if a.symbol.Some? && Inbound(a.kind) {
        inbound := inbound + {a.symbol.value};
      }
      i := i + 1;
    }
    assert activities[..i] == activities;
    out := Attribute(inbound, activities, tokens, outflows);
  }

  method Attribute(inbound: set<nat>, ghost activities: seq<Activity>, tokens: seq<Token>, outflows: map<nat, Spend>) returns (out: seq<Attribution>)
    requires forall s: nat :: s in inbound <==> HasInbound(activities, s)
    ensures AreAttributions(out, activities, tokens, outflows) && |out| <= |tokens|
  {
    hide HasInbound, AttributionOf;
    out := [];
    var i := 0;
    while i < |tokens|
      invariant 0 <= i <= |tokens| && |out| <= i
      invariant AreAttributions(out, activities, tokens[..i], outflows)
    {
      var t := tokens[i];
      assert tokens[..i + 1] == tokens[..i] + [t];
      if t.qty > 0.0 && t.master != 0 && t.symbol !in inbound && t.master in outflows && outflows[t.master].amount > 0.0 {
        out := out + [AttributionOf(t, outflows[t.master])];
      }
      i := i + 1;
    }
    assert tokens[..i] == tokens;
  }

  /** The attributed purchase is the only acquisition, wherever it falls among the activities. */
  lemma {:induction false} OnlyAcquisition(symbol: nat, activities: seq<Activity>, buy: Activity, a: Activity)
    requires !HasInbound(activities, symbol) && a in Sorted(activities + [buy]) && IsLeg(a, symbol) && Acquires(a)
    ensures a == buy
  {
    SortedIsAnOrderedPermutation(activities + [buy]);
    hide Sorted;
    assert a in multiset(Sorted(activities + [buy]));
    assert a in activities || a == buy;
  }

  /** It gives its shares the basis that it was priced at: beside activities without inbound legs, the average of
      whatever is left is what was spent for each share. */
  lemma {:induction false} AttributionIsTheBasis(symbol: nat, activities: seq<Activity>, buy: Activity)
    requires !HasInbound(activities, symbol) && IsLeg(buy, symbol) && Acquires(buy)
    ensures var l := LotOf(symbol, Sorted(activities + [buy]));
            l == EMPTY || (l.qty > 0.0 && l.cost / l.qty == buy.amount / buy.units)
  {
    hide Sorted, LotOf, HasInbound;
    var ordered, price := Sorted(activities + [buy]), buy.amount / buy.units;
    LotIsSound(symbol, ordered);
    if LotOf(symbol, ordered).qty > 0.0 {
      assert TonPrices.Product(price, buy.units) == buy.amount;
      hide TonPrices.Product;
      forall a | a in ordered && IsLeg(a, symbol) && Acquires(a) ensures a == buy {
        OnlyAcquisition(symbol, activities, buy, a);
      }
      AverageIsBetweenAllPrices(symbol, ordered, price, price);
    }
  }
}
