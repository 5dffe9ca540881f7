/**
 * Storing a batch of activities of one account. Source records are numbered in the order of
 * their identifiers; fingerprint 0 is the empty one. A row's identity stands for the columns
 * that a conflict leaves alone, its data for the other columns it refreshes.
 */
module ActivityStore {
  import opened Prelude

  const CHUNK := 500

  datatype Item = Item(source: nat, identity: nat, fingerprint: nat, review: bool, data: nat)

  datatype Row = Row(identity: nat, fingerprint: nat, review: bool, data: nat)

  /** One account's rows by source record: the unique index. */
  type Table = map<nat, Row>

  // ---------------------------------------------------------------- what a batch means

  function Carriers(t: Table, f: nat): set<nat> {
    set s | s in t && t[s].fingerprint == f
  }

  predicate IsGreatest(m: nat, s: set<nat>) {
    m in s && forall x :: x in s ==> x <= m
  }

  lemma {:induction false} SomeGreatest(s: set<nat>)
    requires s != {}
    ensures exists m :: IsGreatest(m, s)
    decreases |s|
  {
    var x :| x in s;
    if s == {x} {
      assert IsGreatest(x, s);
    } else {
      assert s - {x} != {};
      SomeGreatest(s - {x});
      var y :| IsGreatest(y, s - {x});
      assert forall z :: z in s ==> z == x || z in s - {x};
      assert IsGreatest(if x > y then x else y, s);
    }
  }

  ghost function Greatest(s: set<nat>): (m: nat)
    requires s != {}
    ensures IsGreatest(m, s)
  {
    SomeGreatest(s);
    var m: nat :| IsGreatest(m, s);
    m
  }

  function FirstWith(items: seq<Item>, f: nat): (r: Option<nat>) {
    if items == [] then None
    else
      var earlier := FirstWith(items[..|items| - 1], f);
      var last := items[|items| - 1];
      if earlier.Some? then earlier else if last.fingerprint == f then Some(last.source) else None
  }

  function LastOf(items: seq<Item>, source: nat): (r: Option<Item>)
    ensures r.Some? ==> r.value in items && r.value.source == source
    ensures r.None? ==> forall it :: it in items ==> it.source != source
  {
    if items == [] then None
    else
      assert items == items[..|items| - 1] + [items[|items| - 1]];
      var last := items[|items| - 1];
      if last.source == source then Some(last) else LastOf(items[..|items| - 1], source)
  }

  function Sources(items: seq<Item>): set<nat> {
    set it | it in items :: it.source
  }

  /** The record that owns a fingerprint: the stored one of greatest identifier, else the batch's first. */
  ghost function Owner(t: Table, items: seq<Item>, f: nat): Option<nat> {
    if Carriers(t, f) != {} then Some(Greatest(Carriers(t, f))) else FirstWith(items, f)
  }

  ghost predicate Flagged(t: Table, items: seq<Item>, it: Item) {
    it.review || (it.fingerprint != 0 && Owner(t, items, it.fingerprint) != Some(it.source))
  }

  ghost function Written(t: Table, items: seq<Item>, it: Item): Row {
    Row(if it.source in t then t[it.source].identity else it.identity, it.fingerprint, Flagged(t, items, it), it.data)
  }

  /** The table after the batch: the last occurrence of each of its records, and every other row as it was. */
  ghost function Upserted(t: Table, items: seq<Item>): Table {
    map s | s in t.Keys + Sources(items) ::
      if s in Sources(items) then Written(t, items, LastOf(items, s).value) else t[s]
  }

  // ---------------------------------------------------------------- what re-applying changes

  /** The columns other than the review flag. */
  function Plain(r: Row): Row { r.(review := false) }

  lemma {:induction false} KeysAfter(t: Table, items: seq<Item>)
    ensures Upserted(t, items).Keys == t.Keys + Sources(items)
    ensures Sources(items) <= Upserted(t, items).Keys
    ensures forall s :: s in Upserted(t, items) && s !in Sources(items) ==> s in t && Upserted(t, items)[s] == t[s]
  {
  }

  /** No record of the batch is dropped: each has one row, holding its last occurrence. */
  lemma {:induction false} NothingIsDropped(t: Table, items: seq<Item>, it: Item)
    requires it in items
    ensures it.source in Upserted(t, items)
    ensures var last := LastOf(items, it.source);
            && last.Some? && last.value in items && last.value.source == it.source
            && Upserted(t, items)[it.source] == Written(t, items, last.value)
  {
  }

  lemma {:induction false} SecondKeepsColumns(t: Table, items: seq<Item>)
    ensures var once, twice := Upserted(t, items), Upserted(Upserted(t, items), items);
            && once.Keys == twice.Keys
            && (forall s :: s in once ==> Plain(once[s]) == Plain(twice[s]))
            && (forall s :: s in once && s !in Sources(items) ==> once[s] == twice[s])
  {
  }

  lemma {:induction false} SameColumnsSameOwners(t: Table, u: Table, items: seq<Item>, f: nat)
    requires t.Keys == u.Keys && forall s :: s in t ==> Plain(t[s]) == Plain(u[s])
    ensures Owner(t, items, f) == Owner(u, items, f)
  {
    forall s ensures s in Carriers(t, f) <==> s in Carriers(u, f) {
      if s in t {
        assert Plain(t[s]).fingerprint == Plain(u[s]).fingerprint;
      }
    }
    assert Carriers(t, f) == Carriers(u, f);
  }

  /** From the second application on, nothing changes at all. */
  lemma {:induction false} TwoApplicationsSettle(t: Table, items: seq<Item>)
    ensures var once := Upserted(t, items);
            var twice := Upserted(once, items);
            Upserted(twice, items) == twice
  {
    var once := Upserted(t, items);
    var twice := Upserted(once, items);
    var thrice := Upserted(twice, items);
    SecondKeepsColumns(t, items);
    SecondKeepsColumns(once, items);
    forall s | s in twice ensures twice[s] == thrice[s] {
      if s in Sources(items) {
        var it :| it in items && it.source == s;
        NothingIsDropped(once, items, it);
        NothingIsDropped(twice, items, it);
        var last := LastOf(items, s).value;
        SameColumnsSameOwners(once, twice, items, last.fingerprint);
      }
    }
  }

  /** The records that carry a fingerprint once the batch is stored, read off the table and the batch beforehand. */
  function CarriersAfter(t: Table, items: seq<Item>, f: nat): set<nat> {
    (set s | s in t && s !in Sources(items) && t[s].fingerprint == f)
    + (set it | it in items && LastOf(items, it.source) == Some(it) && it.fingerprint == f :: it.source)
  }

  lemma {:induction false} CarriersAreKnown(t: Table, items: seq<Item>, f: nat)
    ensures Carriers(Upserted(t, items), f) == CarriersAfter(t, items, f)
  {
  }

  /** The owners of a batch's fingerprints are settled: no record still to be judged is the owner before but not
      the greatest carrier after, or the reverse. */
  ghost predicate OwnersSettled(t: Table, items: seq<Item>) {
    forall it :: it in items && LastOf(items, it.source) == Some(it) && it.fingerprint != 0 && !it.review ==>
      (Owner(t, items, it.fingerprint) == Some(it.source) <==> IsGreatest(it.source, CarriersAfter(t, items, it.fingerprint)))
  }

  /** One application is enough exactly when the owners are settled. */
  lemma {:induction false} WhenOneApplicationSettles(t: Table, items: seq<Item>)
    ensures var once := Upserted(t, items);
            Upserted(once, items) == once <==> OwnersSettled(t, items)
  {
    var once := Upserted(t, items);
    var twice := Upserted(once, items);
    SecondKeepsColumns(t, items);
    forall it | it in items && LastOf(items, it.source) == Some(it)
      ensures once[it.source] == twice[it.source] <==> (Flagged(t, items, it) <==> Flagged(once, items, it))
    {
      NothingIsDropped(t, items, it);
      NothingIsDropped(once, items, it);
    }
    forall it | it in items && LastOf(items, it.source) == Some(it) && it.fingerprint != 0
      ensures Owner(once, items, it.fingerprint) == Some(it.source) <==> IsGreatest(it.source, CarriersAfter(t, items, it.fingerprint))
    {
      OwnerAfterwards(t, items, it);
    }
    forall s | s in Sources(items) ensures exists it :: it in items && LastOf(items, it.source) == Some(it) && it.source == s {
      var it :| it in items && it.source == s;
      assert LastOf(items, s).Some?;
    }
    KeysAfter(t, items);
    if OwnersSettled(t, items) {
      forall s | s in once ensures once[s] == twice[s] {
        if s in Sources(items) {
          var it :| it in items && LastOf(items, it.source) == Some(it) && it.source == s;
        }
      }
    }
  }

  lemma {:induction false} OwnerAfterwards(t: Table, items: seq<Item>, it: Item)
    requires it in items && LastOf(items, it.source) == Some(it)
    ensures Owner(Upserted(t, items), items, it.fingerprint) == Some(it.source) <==> IsGreatest(it.source, CarriersAfter(t, items, it.fingerprint))
  {
    CarriersAreKnown(t, items, it.fingerprint);
    assert it.source in CarriersAfter(t, items, it.fingerprint);
  }

  /** One application is not always enough: two new records of one fingerprint swap the flag on the second. */
  lemma {:induction false} OneApplicationMayNotSettle()
    ensures var items := [Item(1, 11, 7, false, 0), Item(2, 12, 7, false, 0)];
            var once := Upserted(map[], items);
            !once[1].review && once[2].review && Upserted(once, items)[1].review && !Upserted(once, items)[2].review
  {
    var first, second := Item(1, 11, 7, false, 0), Item(2, 12, 7, false, 0);
    var items := [first, second];
    var once := Upserted(map[], items);
    assert items[..1] == [first];
    assert FirstWith([first], 7) == Some(1);
    assert LastOf(items, 1) == Some(first) && LastOf(items, 2) == Some(second);
    NothingIsDropped(map[], items, first);
    NothingIsDropped(map[], items, second);
    NothingIsDropped(once, items, first);
    NothingIsDropped(once, items, second);
    assert Carriers(map[], 7) == {};
    assert 2 in Carriers(once, 7);
    assert IsGreatest(Greatest(Carriers(once, 7)), {1, 2});
  }

  // ---------------------------------------------------------------- the repository method

  ghost predicate IsLookup(known: map<nat, nat>, t: Table, fingerprints: set<nat>) {
    forall f: nat :: if f in fingerprints && Carriers(t, f) != {} then f in known && IsGreatest(known[f], Carriers(t, f)) else f !in known
  }

  lemma {:induction false} FirstWithGrows(items: seq<Item>, it: Item, f: nat)
    ensures FirstWith(items + [it], f) == if FirstWith(items, f).Some? then FirstWith(items, f)
                                          else if it.fingerprint == f then Some(it.source) else None
    ensures LastOf(items + [it], f) == if it.source == f then Some(it) else LastOf(items, f)
  {
  }

  lemma {:induction false} FirstWithStays(items: seq<Item>, i: nat, f: nat)
    requires i <= |items| && FirstWith(items[..i], f).Some?
    ensures FirstWith(items, f) == FirstWith(items[..i], f)
    decreases |items| - i
  {
    if i == |items| {
      assert items[..i] == items;
    } else {
      assert items[..i + 1] == items[..i] + [items[i]];
      FirstWithGrows(items[..i], items[i], f);
      FirstWithStays(items, i + 1, f);
    }
  }

  /** The identities known after a prefix of the batch. */
  ghost predicate IsKnown(known: map<nat, nat>, t: Table, items: seq<Item>, i: nat, fingerprints: set<nat>)
    requires i <= |items|
  {
    forall f: nat :: f != 0 ==>
      if f in fingerprints && Carriers(t, f) != {} then f in known && IsGreatest(known[f], Carriers(t, f))
      else if FirstWith(items[..i], f).Some? then f in known && Some(known[f]) == FirstWith(items[..i], f)
      else f !in known
  }

  function Fingerprints(items: seq<Item>): set<nat> {
    set it | it in items && it.fingerprint != 0 :: it.fingerprint
  }

  /** Reconciles one item: its review flag is the batch's verdict on it. */
  method ApplyFingerprintIdentity(it: Item, known: map<nat, nat>, ghost t: Table, ghost items: seq<Item>, ghost i: nat)
    returns (r: Item, next: map<nat, nat>)
    requires i < |items| && items[i] == it && IsKnown(known, t, items, i, Fingerprints(items))
    ensures IsKnown(next, t, items, i + 1, Fingerprints(items))
    ensures r == it.(review := Flagged(t, items, it))
  {
    r, next := it, known;
    assert items[..i + 1] == items[..i] + [it];
    forall f ensures FirstWith(items[..i + 1], f) == if FirstWith(items[..i], f).Some? then FirstWith(items[..i], f)
                                          else if it.fingerprint == f then Some(it.source) else None {
      FirstWithGrows(items[..i], it, f);
    }
    if it.fingerprint == 0 {
      return;
    }
    assert it.fingerprint in Fingerprints(items);
    FirstWithStays(items, i + 1, it.fingerprint);
    if it.fingerprint in known {
      if known[it.fingerprint] != it.source {
        r := r.(review := true);
      }
      return;
    }
    next := known[it.fingerprint := it.source];
  }

  class Store {
    var rows: Table

    constructor (t: Table)
      ensures rows == t
    {
      rows := t;
    }

    /** The stored identity of each fingerprint: rows come ordered by record, so the greatest is kept. */
    method LookUp(fingerprints: set<nat>) returns (known: map<nat, nat>)
      ensures IsLookup(known, rows, fingerprints)
    {
      var found := SortedSet(set s | s in rows && rows[s].fingerprint in fingerprints);
      known := map[];
      var i := 0;
      forall k | 0 <= k < |found| ensures found[k] in rows && rows[found[k]].fingerprint in fingerprints {
        assert found[k] in found;
      }
      while i < |found|
        invariant 0 <= i <= |found|
        invariant forall f :: f in known ==> f in fingerprints && known[f] in Carriers(rows, f)
        invariant forall k :: 0 <= k < i ==> rows[found[k]].fingerprint in known && found[k] <= known[rows[found[k]].fingerprint]
        invariant forall f :: f in known ==> exists k :: 0 <= k < i && known[f] == found[k]
      {
        known := known[rows[found[i]].fingerprint := found[i]];
        i := i + 1;
      }
      forall f: nat, s | f in fingerprints && s in Carriers(rows, f) ensures f in known && s <= known[f] {
        assert s in found;
        var k :| 0 <= k < |found| && found[k] == s;
      }
    }

    /** One INSERT with its conflict clause: the rows of one statement have distinct records. */
    method Create(chunk: seq<Item>)
      requires DistinctSources(chunk)
      modifies this
      ensures rows == Inserted(old(rows), chunk)
    {
      hide Inserted, Put;
      var i := 0;
      assert chunk[..0] == [];
      InsertedNothing(rows);
      while i < |chunk|
        invariant 0 <= i <= |chunk|
        invariant rows == Inserted(old(rows), chunk[..i])
      {
        InsertedOneMore(old(rows), chunk, i);
        rows := rows[chunk[i].source := Put(rows, chunk[i])];
        i := i + 1;
      }
      assert chunk[..i] == chunk;
    }

    /** Stores a batch, or nothing at all when the lookup or a statement fails. */
    method UpsertBatch(items: seq<Item>, lookUpOk: bool, failAt: Option<nat>) returns (ok: bool)
      modifies this
      ensures lookUpOk && failAt.None? ==> ok
      ensures rows == if ok then Upserted(old(rows), items) else old(rows)
    {
      if items == [] {
        assert Upserted(rows, items) == rows;
        return true;
      }
      hide Inserted, Upserted;
      if Fingerprints(items) != {} && !lookUpOk {
        return false;
      }
      var known := LookUp(Fingerprints(items));
      var reviewed := Collapse(items, known, rows);
      ghost var was := rows;
      var saved := rows;
      var start, statement := 0, 0;
      assert reviewed[..0] == [];
      InsertedNothing(rows);
      while start < |reviewed|
        invariant 0 <= start <= |reviewed|
        invariant saved == was
        invariant rows == Inserted(was, reviewed[..start])
      {
        var end := if start + CHUNK > |reviewed| then |reviewed| else start + CHUNK;
        if failAt == Some(statement) {
          rows := saved;
          return false;
        }
        InsertedJoin(was, reviewed, start, end);
        Create(reviewed[start..end]);
        start, statement := end, statement + 1;
      }
      assert reviewed[..start] == reviewed;
      return true;
    }
  }

  // ---------------------------------------------------------------- the batch's rows

  predicate DistinctSources(items: seq<Item>) {
    forall i, j :: 0 <= i < j < |items| ==> items[i].source != items[j].source
  }

  function Put(t: Table, it: Item): Row {
    Row(if it.source in t then t[it.source].identity else it.identity, it.fingerprint, it.review, it.data)
  }

  function Inserted(t: Table, items: seq<Item>): Table {
    map s | s in t.Keys + Sources(items) :: if s in Sources(items) then Put(t, LastOf(items, s).value) else t[s]
  }

  lemma {:induction false} InsertedOneMore(t: Table, items: seq<Item>, i: nat)
    requires DistinctSources(items) && i < |items|
    ensures var now := Inserted(t, items[..i]); now[items[i].source := Put(now, items[i])] == Inserted(t, items[..i + 1])
  {
    var it := items[i];
    assert items[..i + 1] == items[..i] + [it];
    forall s ensures LastOf(items[..i + 1], s) == if it.source == s then Some(it) else LastOf(items[..i], s) {
      FirstWithGrows(items[..i], it, s);
    }
    assert it.source !in Sources(items[..i]) by {
      assert forall k :: 0 <= k < i ==> items[..i][k] == items[k];
    }
    assert Sources(items[..i + 1]) == Sources(items[..i]) + {it.source};
  }

  lemma {:induction false} InsertedNothing(t: Table)
    ensures Inserted(t, []) == t
  {
  }

  /** Two statements in a row are one. */
  lemma {:induction false} InsertedJoin(t: Table, items: seq<Item>, start: nat, end: nat)
    requires DistinctSources(items) && start <= end <= |items|
    ensures DistinctSources(items[start..end])
    ensures Inserted(Inserted(t, items[..start]), items[start..end]) == Inserted(t, items[..end])
    decreases end
  {
    hide Inserted, Put, LastOf, Sources;
    if start == end {
      assert items[start..end] == [];
      InsertedNothing(Inserted(t, items[..start]));
    } else {
      var piece := items[start..end];
      InsertedJoin(t, items, start, end - 1);
      assert piece[..|piece| - 1] == items[start..end - 1];
      assert piece[..|piece|] == piece;
      InsertedOneMore(Inserted(t, items[..start]), piece, |piece| - 1);
      InsertedOneMore(t, items, end - 1);
    }
  }

  /** The batch collapsed: one reconciled item per record, the last one, in order of first appearance. */
  ghost predicate IsCollapsed(t: Table, items: seq<Item>, reviewed: seq<Item>) {
    && DistinctSources(reviewed) && Sources(reviewed) == Sources(items)
    && forall r :: r in reviewed ==>
         LastOf(items, r.source).Some? && r == LastOf(items, r.source).value.(review := Flagged(t, items, LastOf(items, r.source).value))
  }

  ghost predicate IsBySource(bySource: map<nat, Item>, t: Table, items: seq<Item>, i: nat)
    requires i <= |items|
  {
    && bySource.Keys == Sources(items[..i])
    && forall s :: s in bySource ==>
         LastOf(items[..i], s).Some? && bySource[s] == LastOf(items[..i], s).value.(review := Flagged(t, items, LastOf(items[..i], s).value))
  }

  method Collapse(items: seq<Item>, lookup: map<nat, nat>, ghost t: Table) returns (reviewed: seq<Item>)
    requires IsLookup(lookup, t, Fingerprints(items))
    ensures IsCollapsed(t, items, reviewed)
  {
    var known := lookup;
    var bySource: map<nat, Item> := map[];
    var order: seq<nat> := [];
    var i := 0;
    assert items[..0] == [];
    hide Flagged;
    while i < |items|
      invariant 0 <= i <= |items|
      invariant IsKnown(known, t, items, i, Fingerprints(items))
      invariant IsBySource(bySource, t, items, i)
      invariant forall a, b :: 0 <= a < b < |order| ==> order[a] != order[b]
      invariant forall s :: s in order <==> s in bySource
    {
      var r, next := ApplyFingerprintIdentity(items[i], known, t, items, i);
      BySourceGrows(bySource, t, items, i, r);
      known := next;
      if r.source !in bySource {
        order := order + [r.source];
      }
      bySource := bySource[r.source := r];
      i := i + 1;
    }
    assert items[..i] == items;
    reviewed := [];
    i := 0;
    while i < |order|
      invariant 0 <= i == |reviewed| <= |order|
      invariant forall k :: 0 <= k < i ==> order[k] in bySource && reviewed[k] == bySource[order[k]]
    {
      reviewed := reviewed + [bySource[order[i]]];
      i := i + 1;
    }
    CollapsedFromOrder(bySource, t, items, order, reviewed);
  }

  lemma {:induction false} BySourceGrows(bySource: map<nat, Item>, t: Table, items: seq<Item>, i: nat, r: Item)
    requires i < |items| && IsBySource(bySource, t, items, i) && r == items[i].(review := Flagged(t, items, items[i]))
    ensures IsBySource(bySource[r.source := r], t, items, i + 1)
  {
    hide Flagged;
    var it := items[i];
    assert items[..i + 1] == items[..i] + [it];
    forall s ensures LastOf(items[..i + 1], s) == if it.source == s then Some(it) else LastOf(items[..i], s) {
      FirstWithGrows(items[..i], it, s);
    }
    assert Sources(items[..i + 1]) == Sources(items[..i]) + {it.source};
  }

  lemma {:induction false} CollapsedFromOrder(bySource: map<nat, Item>, t: Table, items: seq<Item>, order: seq<nat>, reviewed: seq<Item>)
    requires IsBySource(bySource, t, items, |items|) && |reviewed| == |order|
    requires forall a, b :: 0 <= a < b < |order| ==> order[a] != order[b]
    requires forall s :: s in order <==> s in bySource
    requires forall k :: 0 <= k < |order| ==> order[k] in bySource && reviewed[k] == bySource[order[k]]
    ensures IsCollapsed(t, items, reviewed)
  {
    hide Flagged;
    assert items[..|items|] == items;
    assert forall k :: 0 <= k < |reviewed| ==> reviewed[k].source == order[k];
    forall s ensures s in Sources(reviewed) <==> s in Sources(items) {
      if s in Sources(items) {
        assert s in order;
        var k :| 0 <= k < |order| && order[k] == s;
        assert reviewed[k] in reviewed;
      }
      if s in Sources(reviewed) {
        var r :| r in reviewed && r.source == s;
        var k :| 0 <= k < |reviewed| && reviewed[k] == r;
        assert order[k] in order;
      }
    }
  }
}
