/**
 * Acquisition evidence is kept in two places by the same rule: fresh resolutions are merged with the
 * stored records before a snapshot is assembled, and the merged records are written back. Whole
 * records win or lose, and neither side ever trades stronger evidence for weaker.
 */
module SteamAcquisitions {
  import opened Prelude
  import SteamMatching

  datatype Confidence = Exact | High | Medium | Low | Unresolved | NoConfidence

  datatype Record = Record(acquiredAt: Option<nat>, kind: SteamMatching.Acquisition, reference: nat,
                           costBasis: Option<real>, costCurrency: nat, confidence: Confidence)

  datatype Row = Row(asset: nat, name: nat, record: Record)

  type Table = map<nat, Row>

  function Rank(c: Confidence): nat {
    match c
    case Exact => 4
    case High => 3
    case Medium => 2
    case Low => 1
    case _ => 0
  }

  /** How many evidence fields are present; the zero time does not count. */
  function Score(r: Record): nat {
    (if r.acquiredAt.Some? && r.acquiredAt.value != 0 then 1 else 0)
    + (if r.costBasis.Some? then 1 else 0)
    + (if r.reference != 0 then 1 else 0)
  }

  predicate Weaker(a: Record, b: Record) {
    Rank(a.confidence) < Rank(b.confidence) || (Rank(a.confidence) == Rank(b.confidence) && Score(a) < Score(b))
  }

  /** Stored rows without a match are never used in a merge. */
  predicate Usable(r: Record) {
    r.confidence != NoConfidence && r.confidence != Unresolved
  }

  // ---------------------------------------------------------------- the merge

  /** What an asset's fresh record becomes beside the stored one. */
  function Merged(found: Record, stored: Option<Record>): Record {
    if stored.Some? && Usable(stored.value) && Weaker(found, stored.value) then stored.value else found
  }

  function LastStored(stored: seq<Row>, asset: nat): Option<Record> {
    if stored == [] then None
    else if stored[|stored| - 1].asset == asset then Some(stored[|stored| - 1].record)
    else LastStored(stored[..|stored| - 1], asset)
  }

  /** Refills the fresh resolutions, in place. */
  method ApplyStoredAcquisitions(resolved: array<Row>, stored: seq<Row>)
    modifies resolved
    ensures forall i :: 0 <= i < resolved.Length ==>
              resolved[i] == old(resolved[i]).(record := Merged(old(resolved[i]).record, LastStored(stored, old(resolved[i]).asset)))
  {
    var byAsset: map<nat, Record> := map[];
    var k := 0;
    while k < |stored|
      invariant 0 <= k <= |stored|
      invariant forall a: nat :: (if a in byAsset then Some(byAsset[a]) else None) == LastStored(stored[..k], a)
      invariant forall i :: 0 <= i < resolved.Length ==> resolved[i] == old(resolved[i])
    {
      assert stored[..k + 1][..k] == stored[..k];
      byAsset := byAsset[stored[k].asset := stored[k].record];
      k := k + 1;
    }
    assert stored[..k] == stored;
    var i := 0;
    while i < resolved.Length
      invariant 0 <= i <= resolved.Length
      invariant forall j :: 0 <= j < i ==>
                  resolved[j] == old(resolved[j]).(record := Merged(old(resolved[j]).record, LastStored(stored, old(resolved[j]).asset)))
      invariant forall j :: i <= j < resolved.Length ==> resolved[j] == old(resolved[j])
    {
      var r := resolved[i];
      assert (if r.asset in byAsset then Some(byAsset[r.asset]) else None) == LastStored(stored, r.asset);
      if r.asset in byAsset && Usable(byAsset[r.asset]) {
        var st := byAsset[r.asset];
        var freshRank, storedRank := Rank(r.record.confidence), Rank(st.confidence);
        if freshRank < storedRank || (freshRank == storedRank && Score(r.record) < Score(st)) {
          resolved[i] := r.(record := st);
        }
      }
      i := i + 1;
    }
  }

  // ---------------------------------------------------------------- the write

  function Kept(t: Table, row: Row): Row {
    if row.asset in t && Weaker(row.record, t[row.asset].record) then t[row.asset] else row
  }

  function Saved(t: Table, rows: seq<Row>): Table {
    if rows == [] then t
    else
      var before := Saved(t, rows[..|rows| - 1]);
      var last := rows[|rows| - 1];
      before[last.asset := Kept(before, last)]
  }

  class Store {
    var rows: Table

    constructor (t: Table)
      ensures rows == t
    {
      rows := t;
    }

    /** Writes every record that is at least as strong as the stored one, or nothing when a row fails. */
    method SaveAcquisitions(acquisitions: seq<Row>, failAt: Option<nat>) returns (ok: bool)
      modifies this
      ensures ok <==> failAt.None? || failAt.value >= |acquisitions|
      ensures rows == if ok then Saved(old(rows), acquisitions) else old(rows)
    {
      var saved := rows;
      var i := 0;
      while i < |acquisitions|
        invariant 0 <= i <= |acquisitions| && saved == old(rows)
        invariant failAt.None? || failAt.value >= i
        invariant rows == Saved(old(rows), acquisitions[..i])
      {
        var a := acquisitions[i];
        assert acquisitions[..i + 1][..i] == acquisitions[..i];
        if failAt == Some(i) {
          rows := saved;
          return false;
        }
        if a.asset in rows {
          var existing := rows[a.asset];
          if Rank(existing.record.confidence) > Rank(a.record.confidence)
             || (Rank(existing.record.confidence) == Rank(a.record.confidence) && !(Score(a.record) >= Score(existing.record))) {
            assert rows == rows[a.asset := Kept(rows, a)];
            i := i + 1;
            continue;
          }
        }
        rows := rows[a.asset := a];
        i := i + 1;
      }
      assert acquisitions[..i] == acquisitions;
      return true;
    }
  }

  /** No write loses an asset or weakens what is known of it, and each record is kept whole. */
  lemma {:induction false} SavingNeverWeakens(t: Table, rows: seq<Row>, asset: nat)
    requires asset in t
    ensures asset in Saved(t, rows) && !Weaker(Saved(t, rows)[asset].record, t[asset].record)
    ensures Saved(t, rows)[asset] == t[asset] || Saved(t, rows)[asset] in rows
  {
    if rows == [] {
    } else {
      SavingNeverWeakens(t, rows[..|rows| - 1], asset);
    }
  }

  /** Nor does any sequence of writes, in any number of syncs. */
  lemma {:induction false} RunsNeverWeaken(t: Table, syncs: seq<seq<Row>>, asset: nat)
    requires asset in t
    ensures asset in AfterSyncs(t, syncs) && !Weaker(AfterSyncs(t, syncs)[asset].record, t[asset].record)
  {
    if syncs == [] {
    } else {
      var before := AfterSyncs(t, syncs[..|syncs| - 1]);
      RunsNeverWeaken(t, syncs[..|syncs| - 1], asset);
      SavingNeverWeakens(before, syncs[|syncs| - 1], asset);
    }
  }

  function AfterSyncs(t: Table, syncs: seq<seq<Row>>): Table {
    if syncs == [] then t else Saved(AfterSyncs(t, syncs[..|syncs| - 1]), syncs[|syncs| - 1])
  }

  predicate DistinctAssets(rows: seq<Row>) {
    forall i, j :: 0 <= i < j < |rows| ==> rows[i].asset != rows[j].asset
  }

  lemma {:induction false} SavedRow(t: Table, rows: seq<Row>, i: nat)
    requires DistinctAssets(rows) && i < |rows|
    ensures rows[i].asset in Saved(t, rows) && Saved(t, rows)[rows[i].asset] == Kept(t, rows[i])
  {
    var front, last := rows[..|rows| - 1], rows[|rows| - 1];
    if i < |front| {
      SavedRow(t, front, i);
    } else {
      Untouched(t, front, last.asset);
    }
  }

  lemma {:induction false} Untouched(t: Table, rows: seq<Row>, asset: nat)
    requires forall i :: 0 <= i < |rows| ==> rows[i].asset != asset
    ensures asset in Saved(t, rows) <==> asset in t
    ensures asset in t ==> Saved(t, rows)[asset] == t[asset]
  {
    if rows != [] {
      Untouched(t, rows[..|rows| - 1], asset);
    }
  }

  // ---------------------------------------------------------------- merge and write agree

  function StoredFor(t: Table, asset: nat): Option<Record> {
    if asset in t then Some(t[asset].record) else None
  }

  function MergedRow(t: Table, found: Row): Row {
    found.(record := Merged(found.record, StoredFor(t, found.asset)))
  }

  /** The record a snapshot shows is the record the table keeps, exactly unless an unmatched stored row carries
      more evidence fields than an unmatched fresh one. */
  lemma {:induction false} WhenMergeAndWriteAgree(t: Table, found: Row)
    ensures Kept(t, MergedRow(t, found)).record == MergedRow(t, found).record
            <==> !(found.asset in t && !Usable(t[found.asset].record) && Weaker(found.record, t[found.asset].record))
  {
  }

  /** A record without a match carries no evidence. */
  predicate Tidy(r: Record) {
    !Usable(r) ==> Score(r) == 0
  }

  ghost predicate TidyTable(t: Table) {
    forall a :: a in t ==> t[a].asset == a && Tidy(t[a].record)
  }

  /** The record of a resolution of the matcher. */
  function RecordOf(r: SteamMatching.Resolution): Record {
    Record(r.acquiredAt, r.acquisition, r.reference, r.costBasis, r.costCurrency,
           match r.evidence
           case NoEvidence => Unresolved
           case SnapshotEvent(_) => Exact
           case TradeEcho(_) => Exact
           case MarketPair(_, _) => High
           case AttributeEvent(_) => Medium)
  }

  lemma {:induction false} ResolutionsAreTidy(it: SteamMatching.Item, e: SteamMatching.Evidence)
    ensures Tidy(RecordOf(SteamMatching.ResolutionOf(it, e)))
  {
  }

  function MergedRows(t: Table, found: seq<Row>): (r: seq<Row>)
    ensures |r| == |found| && forall i :: 0 <= i < |r| ==> r[i] == MergedRow(t, found[i])
  {
    seq(|found|, i requires 0 <= i < |found| => MergedRow(t, found[i]))
  }

  /** Once tables and resolutions are tidy they stay so, and after every sync the table keeps, for each owned asset,
      exactly the record that the snapshot shows: the stored one when it is stronger, else the fresh one. */
  lemma {:induction false} SyncKeepsWhatItShows(t: Table, found: seq<Row>)
    requires TidyTable(t) && DistinctAssets(found) && forall i :: 0 <= i < |found| ==> Tidy(found[i].record)
    ensures var shown := MergedRows(t, found);
            && TidyTable(Saved(t, shown))
            && (forall i :: 0 <= i < |shown| ==> shown[i].asset in Saved(t, shown) && Saved(t, shown)[shown[i].asset].record == shown[i].record)
            && forall i :: 0 <= i < |shown| ==> shown[i].record == found[i].record || shown[i].record == t[found[i].asset].record
  {
    var shown := MergedRows(t, found);
    forall i | 0 <= i < |shown| ensures shown[i].asset in Saved(t, shown) && Saved(t, shown)[shown[i].asset].record == shown[i].record {
      SavedRow(t, shown, i);
      WhenMergeAndWriteAgree(t, found[i]);
    }
    assert forall i :: 0 <= i < |shown| ==> Tidy(shown[i].record);
    SavedIsTidy(t, shown);
  }

  lemma {:induction false} SavedIsTidy(t: Table, rows: seq<Row>)
    requires TidyTable(t) && forall i :: 0 <= i < |rows| ==> Tidy(rows[i].record)
    ensures TidyTable(Saved(t, rows))
  {
    if rows != [] {
      SavedIsTidy(t, rows[..|rows| - 1]);
    }
  }

  // ---------------------------------------------------------------- lots

  datatype Lot = Lot(name: nat, quantity: int, assets: nat)

  /** An asset that no exact or high evidence tells apart from others of its name. */
  predicate Indistinct(r: SteamMatching.Resolution) {
    RecordOf(r).confidence != Exact && RecordOf(r).confidence != High && r.item.name != 0
  }

  function Group(resolved: seq<SteamMatching.Resolution>, name: nat): (g: seq<SteamMatching.Resolution>)
    ensures forall r :: r in g <==> r in resolved && Indistinct(r) && r.item.name == name
  {
    if resolved == [] then []
    else
      assert resolved == resolved[..|resolved| - 1] + [resolved[|resolved| - 1]];
      var last := resolved[|resolved| - 1];
      Group(resolved[..|resolved| - 1], name) + if Indistinct(last) && last.item.name == name then [last] else []
  }

  function Amount(rs: seq<SteamMatching.Resolution>): int {
    if rs == [] then 0 else Amount(rs[..|rs| - 1]) + rs[|rs| - 1].item.amount
  }

  predicate IsLot(resolved: seq<SteamMatching.Resolution>, l: Lot) {
    var g := Group(resolved, l.name);
    |g| >= 2 && l.quantity == Amount(g) && l.assets == |g|
  }

  function Lookup(byName: map<nat, seq<SteamMatching.Resolution>>, name: nat): seq<SteamMatching.Resolution> {
    if name in byName then byName[name] else []
  }

  ghost predicate Groups(byName: map<nat, seq<SteamMatching.Resolution>>, resolved: seq<SteamMatching.Resolution>) {
    forall n: nat :: Lookup(byName, n) == Group(resolved, n)
  }

  lemma {:induction false} GroupsGrow(byName: map<nat, seq<SteamMatching.Resolution>>, resolved: seq<SteamMatching.Resolution>, r: SteamMatching.Resolution)
    requires Groups(byName, resolved)
    ensures Groups(if Indistinct(r) then byName[r.item.name := Lookup(byName, r.item.name) + [r]] else byName, resolved + [r])
  {
    var next := if Indistinct(r) then byName[r.item.name := Lookup(byName, r.item.name) + [r]] else byName;
    assert (resolved + [r])[..|resolved|] == resolved;
    hide Indistinct;
    forall n: nat ensures Lookup(next, n) == Group(resolved + [r], n) {
      assert Lookup(byName, n) == Group(resolved, n);
    }
  }

  method GroupByName(resolved: seq<SteamMatching.Resolution>) returns (byName: map<nat, seq<SteamMatching.Resolution>>)
    ensures Groups(byName, resolved)
  {
    byName := map[];
    var i := 0;
    assert Groups(byName, resolved[..0]);
    hide Groups;
    while i < |resolved|
      invariant 0 <= i <= |resolved|
      invariant Groups(byName, resolved[..i])
    {
      var r := resolved[i];
      GroupsGrow(byName, resolved[..i], r);
      assert resolved[..i + 1] == resolved[..i] + [r];
      if Indistinct(r) {
        byName := byName[r.item.name := Lookup(byName, r.item.name) + [r]];
      }
      i := i + 1;
    }
    assert resolved[..i] == resolved;
  }

  method TotalAmount(group: seq<SteamMatching.Resolution>) returns (quantity: int)
    ensures quantity == Amount(group)
  {
    quantity := 0;
    var k := 0;
    while k < |group|
      invariant 0 <= k <= |group|
      invariant quantity == Amount(group[..k])
    {
      assert group[..k + 1][..k] == group[..k];
      quantity := quantity + group[k].item.amount;
      k := k + 1;
    }
    assert group[..k] == group;
  }

  /** The lots of the first names of an ascending list. */
  ghost predicate AreLots(lots: seq<Lot>, resolved: seq<SteamMatching.Resolution>, names: seq<nat>) {
    && (forall i, j :: 0 <= i < j < |lots| ==> lots[i].name < lots[j].name)
    && (forall i :: 0 <= i < |lots| ==> IsLot(resolved, lots[i]) && lots[i].name in names)
    && (forall n :: n in names && IsShared(resolved, n) ==> IsNamed(lots, n))
  }

  predicate IsShared(resolved: seq<SteamMatching.Resolution>, name: nat) {
    |Group(resolved, name)| >= 2
  }

  predicate IsNamed(lots: seq<Lot>, name: nat) {
    exists i :: 0 <= i < |lots| && lots[i].name == name
  }

  lemma {:induction false} OneNameMore(lots: seq<Lot>, resolved: seq<SteamMatching.Resolution>, names: seq<nat>, name: nat, more: seq<Lot>)
    requires AreLots(lots, resolved, names) && forall n :: n in names ==> n < name
    requires if |Group(resolved, name)| >= 2 then |more| == 1 && more[0].name == name && IsLot(resolved, more[0]) else more == []
    ensures AreLots(lots + more, resolved, names + [name])
  {
    hide IsLot, Group;
    var all := lots + more;
    assert forall i :: 0 <= i < |lots| ==> all[i] == lots[i];
    assert more != [] ==> all[|lots|] == more[0];
    forall i | 0 <= i < |all| ensures IsLot(resolved, all[i]) && all[i].name in names + [name] && (i < |lots| ==> all[i].name < name) {
      if i < |lots| {
        assert lots[i].name in names;
      }
    }
    forall n | n in names && IsShared(resolved, n) ensures IsNamed(all, n) {
      assert IsNamed(lots, n);
      var i :| 0 <= i < |lots| && lots[i].name == n;
      assert all[i].name == n;
    }
  }

  method LotOf(resolved: seq<SteamMatching.Resolution>, group: seq<SteamMatching.Resolution>, name: nat) returns (more: seq<Lot>)
    requires group == Group(resolved, name)
    ensures if |group| >= 2 then |more| == 1 && more[0].name == name && IsLot(resolved, more[0]) else more == []
  {
    more := [];
    if |group| >= 2 {
      var quantity := TotalAmount(group);
      more := [Lot(name, quantity, |group|)];
    }
  }

  lemma {:induction false} GroupAt(byName: map<nat, seq<SteamMatching.Resolution>>, resolved: seq<SteamMatching.Resolution>)
    requires Groups(byName, resolved)
    ensures forall n :: n in byName ==> byName[n] == Group(resolved, n)
    ensures forall n: nat :: |Group(resolved, n)| >= 2 ==> n in byName
  {
  }

  lemma {:induction false} AllLots(lots: seq<Lot>, resolved: seq<SteamMatching.Resolution>, names: seq<nat>)
    requires AreLots(lots, resolved, names) && forall n: nat :: |Group(resolved, n)| >= 2 ==> n in names
    ensures forall l :: l in lots ==> IsLot(resolved, l)
    ensures forall i, j :: 0 <= i < j < |lots| ==> lots[i].name < lots[j].name
    ensures forall name: nat :: |Group(resolved, name)| >= 2 ==> exists i :: 0 <= i < |lots| && lots[i].name == name
  {
    forall name: nat | |Group(resolved, name)| >= 2 ensures exists i :: 0 <= i < |lots| && lots[i].name == name {
      assert IsShared(resolved, name) && IsNamed(lots, name);
    }
  }

  /** One lot for each name that two or more indistinct assets share, in name order, holding their whole amount. */
  method BuildLots(resolved: seq<SteamMatching.Resolution>) returns (lots: seq<Lot>)
    ensures forall l :: l in lots ==> IsLot(resolved, l)
    ensures forall i, j :: 0 <= i < j < |lots| ==> lots[i].name < lots[j].name
    ensures forall name: nat :: |Group(resolved, name)| >= 2 ==> exists i :: 0 <= i < |lots| && lots[i].name == name
  {
    hide *;
    NoLots(resolved);
    var byName := GroupByName(resolved);
    GroupAt(byName, resolved);
    var names := SortedSet(byName.Keys);
    lots := [];
    var i := 0;
    while i < |names|
      invariant 0 <= i <= |names|
      invariant AreLots(lots, resolved, names[..i])
    {
      var more := LotOf(resolved, byName[names[i]], names[i]);
      OneNameMore(lots, resolved, names[..i], names[i], more);
      assert names[..i + 1] == names[..i] + [names[i]];
      lots := lots + more;
      i := i + 1;
    }
    assert names[..i] == names;
    AllLots(lots, resolved, names);
  }

  lemma {:induction false} NoLots(resolved: seq<SteamMatching.Resolution>)
    ensures AreLots([], resolved, [])
  {
  }

}
