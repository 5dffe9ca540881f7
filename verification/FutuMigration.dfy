/**
 * The Futu migration: the retired per-market legs of one real account are folded into its
 * universal account. Row, account and source identifiers are numbers; a row's fill stands
 * for all its other columns.
 */
module FutuMigration {
  import opened Prelude

  const CHUNK := 2000

  datatype Row = Row(account: nat, source: nat, fill: nat)

  datatype Key = Key(id: nat, account: nat, source: nat)

  type Table = map<nat, Row>

  /** The unique index over (account, source record). */
  ghost predicate UniqueFills(t: Table) {
    forall i, j :: i in t && j in t && t[i].account == t[j].account && t[i].source == t[j].source ==> i == j
  }

  // ---------------------------------------------------------------- chunks

  function Concat(chunks: seq<seq<nat>>): seq<nat> {
    if chunks == [] then [] else Concat(chunks[..|chunks| - 1]) + chunks[|chunks| - 1]
  }

  lemma {:induction false} ConcatOneMore(chunks: seq<seq<nat>>, c: seq<nat>)
    ensures Concat(chunks + [c]) == Concat(chunks) + c
  {
  }

  /** The pieces, put together, are the list; none is empty or longer than the limit. */
  method ChunkStrings(ids: seq<nat>, size: nat) returns (chunks: seq<seq<nat>>)
    requires size > 0
    ensures Concat(chunks) == ids
    ensures forall c :: c in chunks ==> 0 < |c| <= size
  {
    hide Concat;
    chunks := [];
    var k := 0;
    assert Concat([]) == [] by { ConcatNothing(); }
    while k < |ids|
      invariant 0 <= k <= |ids|
      invariant Concat(chunks) == ids[..k]
      invariant forall c :: c in chunks ==> 0 < |c| <= size
    {
      var n := if size > |ids| - k then |ids| - k else size;
      ConcatOneMore(chunks, ids[k..k + n]);
      assert ids[..k + n] == ids[..k] + ids[k..k + n];
      chunks := chunks + [ids[k..k + n]];
      k := k + n;
    }
    assert ids[..k] == ids;
  }

  lemma {:induction false} ConcatNothing()
    ensures Concat([]) == []
  {
  }

  // ---------------------------------------------------------------- the plan

  function OfSource(olds: seq<Key>, source: nat): (r: seq<Key>)
    ensures forall o :: o in r <==> o in olds && o.source == source
  {
    if olds == [] then []
    else
      assert olds == olds[..|olds| - 1] + [olds[|olds| - 1]];
      var last := olds[|olds| - 1];
      OfSource(olds[..|olds| - 1], source) + if last.source == source then [last] else []
  }

  /** The primary leg's first copy, or the first copy at all. */
  ghost predicate IsKeeper(rows: seq<Key>, primary: nat, k: nat) {
    && k < |rows|
    && if exists i :: 0 <= i < |rows| && rows[i].account == primary
       then rows[k].account == primary && forall i :: 0 <= i < k ==> rows[i].account != primary
       else k == 0
  }

  method Keeper(rows: seq<Key>, primary: nat) returns (keep: nat)
    requires rows != []
    ensures IsKeeper(rows, primary, keep)
  {
    keep := 0;
    var i := 0;
    while i < |rows|
      invariant 0 <= i <= |rows| && keep == 0
      invariant forall j :: 0 <= j < i ==> rows[j].account != primary
    {
      if rows[i].account == primary {
        keep := i;
        break;
      }
      i := i + 1;
    }
  }

  /** Whether an old row moves to the merged account; every other old row is dropped. */
  ghost predicate Moved(olds: seq<Key>, primary: nat, newSources: set<nat>, o: Key) {
    o.source !in newSources && exists k: nat :: IsKeeper(OfSource(olds, o.source), primary, k) && OfSource(olds, o.source)[k] == o
  }

  predicate NoDuplicates(s: seq<nat>) {
    forall i, j :: 0 <= i < j < |s| ==> s[i] != s[j]
  }

  predicate DistinctIds(rows: seq<Key>) {
    forall i, j :: 0 <= i < j < |rows| ==> rows[i].id != rows[j].id
  }

  function IdSet(rows: seq<Key>): set<nat> {
    set o | o in rows :: o.id
  }

  ghost function MovedIds(olds: seq<Key>, primary: nat, newSources: set<nat>, sources: set<nat>): set<nat> {
    set o | o in olds && o.source in sources && Moved(olds, primary, newSources, o) :: o.id
  }

  ghost function DroppedIds(olds: seq<Key>, primary: nat, newSources: set<nat>, sources: set<nat>): set<nat> {
    set o | o in olds && o.source in sources && !Moved(olds, primary, newSources, o) :: o.id
  }

  /** Moves and drops split the rows of the given sources, each row into one of the two, once. */
  ghost predicate Splits(olds: seq<Key>, primary: nat, newSources: set<nat>, sources: set<nat>, moves: seq<nat>, drops: seq<nat>) {
    && NoDuplicates(moves) && NoDuplicates(drops)
    && Elements(moves) == MovedIds(olds, primary, newSources, sources)
    && Elements(drops) == DroppedIds(olds, primary, newSources, sources)
  }

  /** No row is both moved and dropped, and every row is one of them. */
  lemma {:induction false} MovesAndDropsPartition(olds: seq<Key>, primary: nat, newSources: set<nat>, moves: seq<nat>, drops: seq<nat>)
    requires DistinctIds(olds) && Splits(olds, primary, newSources, set o | o in olds :: o.source, moves, drops)
    ensures Elements(moves) !! Elements(drops) && Elements(moves) + Elements(drops) == IdSet(olds)
  {
  }

  ghost predicate IsGrouped(bySource: map<nat, seq<Key>>, olds: seq<Key>) {
    && (forall o :: o in olds ==> o.source in bySource)
    && (forall s :: s in bySource ==> bySource[s] == OfSource(olds, s) != [])
  }

  lemma {:induction false} NothingGrouped()
    ensures IsGrouped(map[], [])
  {
  }

  lemma {:induction false} GroupGrows(bySource: map<nat, seq<Key>>, olds: seq<Key>, o: Key)
    requires IsGrouped(bySource, olds)
    ensures IsGrouped(bySource[o.source := (if o.source in bySource then bySource[o.source] else []) + [o]], olds + [o])
  {
    assert (olds + [o])[..|olds|] == olds;
    var r := OfSource(olds, o.source);
    assert r == [] || r[0] in r;
  }

  lemma {:induction false} GroupsAreSources(bySource: map<nat, seq<Key>>, olds: seq<Key>)
    requires IsGrouped(bySource, olds)
    ensures bySource.Keys == (set o | o in olds :: o.source)
    ensures forall s :: s in bySource ==> bySource[s] == OfSource(olds, s) && exists o :: o in olds && o.source == s
  {
    forall s | s in bySource ensures exists o :: o in olds && o.source == s {
      assert bySource[s][0] in OfSource(olds, s);
    }
  }

  method GroupBySource(olds: seq<Key>) returns (bySource: map<nat, seq<Key>>)
    ensures IsGrouped(bySource, olds)
  {
    hide *;
    bySource := map[];
    var i := 0;
    NothingGrouped();
    assert olds[..0] == [];
    while i < |olds|
      invariant 0 <= i <= |olds|
      invariant IsGrouped(bySource, olds[..i])
    {
      var o := olds[i];
      GroupGrows(bySource, olds[..i], o);
      assert olds[..i + 1] == olds[..i] + [o];
      bySource := bySource[o.source := (if o.source in bySource then bySource[o.source] else []) + [o]];
      i := i + 1;
    }
    assert olds[..i] == olds;
  }

  lemma {:induction false} OneIdMore(s: seq<nat>, x: nat)
    requires NoDuplicates(s) && x !in s
    ensures NoDuplicates(s + [x]) && Elements(s + [x]) == Elements(s) + {x}
  {
  }

  /** One source's copies: all dropped when the merged account has the fill, else all but the keeper. */
  method SplitSource(rows: seq<Key>, primary: nat, known: bool) returns (moves: seq<nat>, drops: seq<nat>, ghost keep: nat)
    requires rows != [] && DistinctIds(rows)
    ensures IsKeeper(rows, primary, keep)
    ensures NoDuplicates(moves) && NoDuplicates(drops)
    ensures Elements(moves) == if known then {} else {rows[keep].id}
    ensures Elements(drops) == IdSet(rows) - Elements(moves)
  {
    var kept := Keeper(rows, primary);
    keep := kept;
    hide IsKeeper, DistinctIds, NoDuplicates, IdSet;
    moves, drops := [], [];
    var i := 0;
    assert NoDuplicates([]) && IdSet([]) == {} by { NothingSplit(); }
    while i < |rows|
      invariant 0 <= i <= |rows|
      invariant NoDuplicates(moves) && NoDuplicates(drops)
      invariant Elements(moves) == if !known && kept < i then {rows[kept].id} else {}
      invariant Elements(drops) == IdSet(rows[..i]) - Elements(moves)
      invariant Elements(moves) <= IdSet(rows[..i])
    {
      if !known && i == kept {
        OneIdMore(moves, rows[i].id);
        moves := moves + [rows[i].id];
      } else {
        OneIdMore(drops, rows[i].id);
        drops := drops + [rows[i].id];
      }
      i := i + 1;
    }
    assert rows[..i] == rows;
  }

  lemma {:induction false} NothingSplit()
    ensures NoDuplicates([]) && IdSet([]) == {}
  {
  }

  lemma {:induction false} NoDuplicatesJoined(a: seq<nat>, b: seq<nat>)
    requires NoDuplicates(a) && NoDuplicates(b) && Elements(a) !! Elements(b)
    ensures NoDuplicates(a + b) && Elements(a + b) == Elements(a) + Elements(b)
  {
    forall i, j | 0 <= i < j < |a + b| ensures (a + b)[i] != (a + b)[j] {
      assert i < |a| ==> (a + b)[i] in Elements(a);
      assert j >= |a| ==> (a + b)[j] in Elements(b);
    }
  }

  lemma {:induction false} OfSourceIsDistinct(olds: seq<Key>, source: nat)
    requires DistinctIds(olds)
    ensures DistinctIds(OfSource(olds, source))
  {
    if olds == [] {
    } else {
      var front, last := olds[..|olds| - 1], olds[|olds| - 1];
      OfSourceIsDistinct(front, source);
      var r := OfSource(front, source);
      forall i | 0 <= i < |r| ensures r[i].id != last.id {
        assert r[i] in r;
        var k :| 0 <= k < |front| && front[k] == r[i];
        assert olds[k] == r[i];
      }
    }
  }

  lemma {:induction false} MovedIsKept(olds: seq<Key>, primary: nat, newSources: set<nat>, o: Key, keep: nat)
    requires o in olds && IsKeeper(OfSource(olds, o.source), primary, keep)
    ensures Moved(olds, primary, newSources, o) <==> o.source !in newSources && o == OfSource(olds, o.source)[keep]
  {
  }

  /** What one source's split means in terms of the plan. */
  lemma {:induction false} SourceSplit(olds: seq<Key>, primary: nat, newSources: set<nat>, s: nat, keep: nat)
    requires DistinctIds(olds) && IsKeeper(OfSource(olds, s), primary, keep)
    ensures MovedIds(olds, primary, newSources, {s}) == if s in newSources then {} else {OfSource(olds, s)[keep].id}
    ensures DroppedIds(olds, primary, newSources, {s}) == IdSet(OfSource(olds, s)) - MovedIds(olds, primary, newSources, {s})
  {
    var rows := OfSource(olds, s);
    forall o | o in rows ensures Moved(olds, primary, newSources, o) <==> s !in newSources && o == rows[keep] {
      MovedIsKept(olds, primary, newSources, o, keep);
    }
    hide Moved, IsKeeper;
    assert rows[keep] in rows;
    assert forall o :: o in olds && o.source in {s} <==> o in rows;
  }

  lemma {:induction false} SourcesJoin(olds: seq<Key>, primary: nat, newSources: set<nat>, a: set<nat>, s: nat)
    requires DistinctIds(olds) && s !in a
    ensures MovedIds(olds, primary, newSources, a + {s}) == MovedIds(olds, primary, newSources, a) + MovedIds(olds, primary, newSources, {s})
    ensures DroppedIds(olds, primary, newSources, a + {s}) == DroppedIds(olds, primary, newSources, a) + DroppedIds(olds, primary, newSources, {s})
    ensures MovedIds(olds, primary, newSources, a) !! MovedIds(olds, primary, newSources, {s})
    ensures DroppedIds(olds, primary, newSources, a) !! DroppedIds(olds, primary, newSources, {s})
  {
  }

  lemma {:induction false} OneSourceMore(olds: seq<Key>, primary: nat, newSources: set<nat>, sources: set<nat>, moves: seq<nat>, drops: seq<nat>,
                                         s: nat, m: seq<nat>, d: seq<nat>)
    requires DistinctIds(olds) && s !in sources
    requires Splits(olds, primary, newSources, sources, moves, drops) && Splits(olds, primary, newSources, {s}, m, d)
    ensures Splits(olds, primary, newSources, sources + {s}, moves + m, drops + d)
  {
    hide MovedIds, DroppedIds, DistinctIds, NoDuplicates, Elements;
    SourcesJoin(olds, primary, newSources, sources, s);
    NoDuplicatesJoined(moves, m);
    NoDuplicatesJoined(drops, d);
  }

  method PlanSource(olds: seq<Key>, rows: seq<Key>, primary: nat, newSources: set<nat>, s: nat) returns (m: seq<nat>, d: seq<nat>)
    requires DistinctIds(olds) && rows == OfSource(olds, s) != []
    ensures Splits(olds, primary, newSources, {s}, m, d)
  {
    hide IsKeeper, MovedIds, DroppedIds, DistinctIds, NoDuplicates, IdSet;
    OfSourceIsDistinct(olds, s);
    ghost var keep;
    m, d, keep := SplitSource(rows, primary, s in newSources);
    SourceSplit(olds, primary, newSources, s, keep);
  }

  lemma {:induction false} NothingPlanned(olds: seq<Key>, primary: nat, newSources: set<nat>)
    ensures Splits(olds, primary, newSources, {}, [], [])
  {
  }

  method PlanMoves(olds: seq<Key>, primary: nat, newSources: set<nat>) returns (moves: seq<nat>, drops: seq<nat>)
    requires DistinctIds(olds)
    ensures Splits(olds, primary, newSources, set o | o in olds :: o.source, moves, drops)
  {
    hide *;
    var bySource := GroupBySource(olds);
    GroupsAreSources(bySource, olds);
    moves, drops := [], [];
    var left := bySource.Keys;
    NothingPlanned(olds, primary, newSources);
    assert bySource.Keys - left == {};
    while left != {}
      invariant left <= bySource.Keys
      invariant Splits(olds, primary, newSources, bySource.Keys - left, moves, drops)
      decreases |left|
    {
      var s :| s in left;
      var m, d := PlanSource(olds, bySource[s], primary, newSources, s);
      OneSourceMore(olds, primary, newSources, bySource.Keys - left, moves, drops, s, m, d);
      assert bySource.Keys - (left - {s}) == bySource.Keys - left + {s};
      left := left - {s};
      moves, drops := moves + m, drops + d;
    }
    assert bySource.Keys - left == set o | o in olds :: o.source;
  }

  // ---------------------------------------------------------------- the activities table

  function KeyOf(t: Table, id: nat): Key
    requires id in t
  {
    Key(id, t[id].account, t[id].source)
  }

  /** The rows of the given accounts, each once, in any order. */
  ghost predicate IsScan(t: Table, legs: set<nat>, olds: seq<Key>) {
    && DistinctIds(olds)
    && (forall o :: o in olds ==> o.id in t && o == KeyOf(t, o.id) && o.account in legs)
    && (forall id :: id in t && t[id].account in legs ==> KeyOf(t, id) in olds)
  }

  ghost predicate HasFill(t: Table, accounts: set<nat>, source: nat) {
    exists id :: id in t && t[id].account in accounts && t[id].source == source
  }

  function SourcesOf(t: Table, account: nat): set<nat> {
    set id | id in t && t[id].account == account :: t[id].source
  }

  function Repointed(t: Table, ids: set<nat>, account: nat): Table {
    map id | id in t :: if id in ids then t[id].(account := account) else t[id]
  }

  /** No fill is lost or doubled: the merged account has each source of the legs and of itself, in its own copy
      if it had one, else in the primary leg's, and rows of other accounts are untouched. */
  ghost predicate Conserves(was: Table, now: Table, newId: nat, legs: set<nat>, primary: nat) {
    && UniqueFills(now)
    && (forall id :: id in was && was[id].account !in legs ==> id in now && now[id] == was[id])
    && (forall id :: id in now ==> id in was && now[id].account !in legs)
    && (forall id :: id in now && was[id].account in legs ==>
          && now[id] == was[id].(account := newId)
          && was[id].source !in SourcesOf(was, newId)
          && (HasFill(was, {primary}, was[id].source) ==> was[id].account == primary))
    && (forall s: nat :: HasFill(was, legs + {newId}, s) <==> HasFill(now, {newId}, s))
  }

  lemma {:induction false} EarliestPrimary(rows: seq<Key>, primary: nat, i: nat)
    requires i < |rows| && rows[i].account == primary
    ensures exists k: nat :: IsKeeper(rows, primary, k)
  {
    if j :| 0 <= j < i && rows[j].account == primary {
      EarliestPrimary(rows, primary, j);
    } else {
      assert IsKeeper(rows, primary, i);
    }
  }

  /** Of the copies of a fill that the merged account lacks, exactly one moves: the primary leg's if there is one. */
  lemma {:induction false} OneCopyMoves(olds: seq<Key>, primary: nat, newSources: set<nat>, o: Key) returns (kept: Key)
    requires o in olds && o.source !in newSources
    ensures kept in olds && kept.source == o.source && Moved(olds, primary, newSources, kept)
    ensures forall x :: x in olds && x.source == o.source && Moved(olds, primary, newSources, x) ==> x == kept
    ensures (exists x :: x in olds && x.source == o.source && x.account == primary) ==> kept.account == primary
  {
    var rows := OfSource(olds, o.source);
    assert o in rows;
    var k: nat;
    if i :| 0 <= i < |rows| && rows[i].account == primary {
      EarliestPrimary(rows, primary, i);
      k :| IsKeeper(rows, primary, k);
    } else {
      k := 0;
      assert forall x :: x in rows ==> x.account != primary;
    }
    kept := rows[k];
    assert kept in rows;
    MovedIsKept(olds, primary, newSources, kept, k);
    forall x | x in olds && x.source == o.source && Moved(olds, primary, newSources, x) ensures x == kept {
      MovedIsKept(olds, primary, newSources, x, k);
    }
  }

  lemma {:induction false} LegRowsAreSplit(t: Table, legs: set<nat>, primary: nat, newSources: set<nat>, olds: seq<Key>, moves: seq<nat>, drops: seq<nat>)
    requires IsScan(t, legs, olds) && Splits(olds, primary, newSources, set o | o in olds :: o.source, moves, drops)
    ensures forall id :: id in moves ==> id in t && t[id].account in legs && Moved(olds, primary, newSources, KeyOf(t, id))
    ensures forall id :: id in drops ==> id in t && t[id].account in legs && id !in moves
    ensures forall id :: id in t && t[id].account in legs ==>
              if Moved(olds, primary, newSources, KeyOf(t, id)) then id in moves else id in drops
  {
  }

  /** While rows move, the unique index is never violated, whichever of the moves are done. */
  lemma {:induction false} IndexHoldsThroughout(was: Table, newId: nat, legs: set<nat>, primary: nat, olds: seq<Key>,
                                                moves: seq<nat>, drops: seq<nat>, some: set<nat>)
    requires UniqueFills(was) && newId !in legs && IsScan(was, legs, olds)
    requires Splits(olds, primary, SourcesOf(was, newId), set o | o in olds :: o.source, moves, drops)
    requires some <= Elements(moves)
    ensures UniqueFills(Repointed(was - Elements(drops), some, newId))
  {
  }

  lemma {:induction false} PlanConserves(was: Table, newId: nat, legs: set<nat>, primary: nat, olds: seq<Key>, moves: seq<nat>, drops: seq<nat>)
    requires UniqueFills(was) && newId !in legs && primary in legs && IsScan(was, legs, olds)
    requires Splits(olds, primary, SourcesOf(was, newId), set o | o in olds :: o.source, moves, drops)
    ensures Conserves(was, Repointed(was - Elements(drops), Elements(moves), newId), newId, legs, primary)
  {
    var newSources := SourcesOf(was, newId);
    var now := Repointed(was - Elements(drops), Elements(moves), newId);
    IndexHoldsThroughout(was, newId, legs, primary, olds, moves, drops, Elements(moves));
    hide Splits, UniqueFills, Moved, HasFill, IsScan, SourcesOf, Repointed, KeyOf;
    forall id | id in now && was[id].account in legs
      ensures was[id].source !in newSources && (HasFill(was, {primary}, was[id].source) ==> was[id].account == primary)
    {
    }
    forall s: nat ensures HasFill(was, legs + {newId}, s) <==> HasFill(now, {newId}, s) {
      FillSurvives(was, newId, legs, primary, olds, moves, drops, s);
    }
  }

  lemma {:induction false} FillSurvives(was: Table, newId: nat, legs: set<nat>, primary: nat, olds: seq<Key>, moves: seq<nat>, drops: seq<nat>, s: nat)
    requires newId !in legs && IsScan(was, legs, olds)
    requires Splits(olds, primary, SourcesOf(was, newId), set o | o in olds :: o.source, moves, drops)
    ensures HasFill(was, legs + {newId}, s) <==> HasFill(Repointed(was - Elements(drops), Elements(moves), newId), {newId}, s)
  {
    var newSources := SourcesOf(was, newId);
    var now := Repointed(was - Elements(drops), Elements(moves), newId);
    LegRowsAreSplit(was, legs, primary, newSources, olds, moves, drops);
    hide Splits, Moved;
    if HasFill(now, {newId}, s) {
      var id :| id in now && now[id].account in {newId} && now[id].source == s;
      assert id in was && was[id].account in legs + {newId} && was[id].source == s;
    }
    if HasFill(was, legs + {newId}, s) {
      var id :| id in was && was[id].account in legs + {newId} && was[id].source == s;
      var own := SurvivingCopy(was, newId, legs, primary, olds, id);
      assert own in now && now[own].account in {newId} && now[own].source == s;
    }
  }

  /** The row that keeps a fill: the merged account's own, else the copy that moves. */
  lemma {:induction false} SurvivingCopy(was: Table, newId: nat, legs: set<nat>, primary: nat, olds: seq<Key>, id: nat) returns (own: nat)
    requires newId !in legs && IsScan(was, legs, olds) && id in was && was[id].account in legs + {newId}
    ensures own in was && was[own].source == was[id].source
    ensures was[own].account == newId || (was[own].account in legs && Moved(olds, primary, SourcesOf(was, newId), KeyOf(was, own)))
  {
    hide Moved;
    if was[id].source in SourcesOf(was, newId) {
      own :| own in was && was[own].account == newId && was[own].source == was[id].source;
    } else {
      assert KeyOf(was, id) in olds;
      var kept := OneCopyMoves(olds, primary, SourcesOf(was, newId), KeyOf(was, id));
      own := kept.id;
      assert kept == KeyOf(was, own);
    }
  }

  class Ledger {
    var rows: Table

    constructor (t: Table)
      ensures rows == t
    {
      rows := t;
    }

    /** The key columns of the legs' rows, in whatever order the table gives them. */
    method Scan(legs: set<nat>) returns (olds: seq<Key>)
      ensures IsScan(rows, legs, olds)
    {
      olds := [];
      var left := rows.Keys;
      while left != {}
        invariant left <= rows.Keys
        invariant DistinctIds(olds)
        invariant forall o :: o in olds ==> o.id in rows && o.id !in left && o == KeyOf(rows, o.id) && o.account in legs
        invariant forall id :: id in rows && id !in left && rows[id].account in legs ==> KeyOf(rows, id) in olds
        decreases |left|
      {
        var id :| id in left;
        left := left - {id};
        if rows[id].account in legs {
          olds := olds + [KeyOf(rows, id)];
        }
      }
    }

    method Delete(ids: seq<nat>)
      modifies this
      ensures rows == old(rows) - Elements(ids)
    {
      rows := rows - Elements(ids);
    }

    /** The statement is refused by the unique index unless the fills stay unique. */
    method UpdateAccount(ids: seq<nat>, account: nat)
      requires UniqueFills(Repointed(rows, Elements(ids), account))
      modifies this
      ensures rows == Repointed(old(rows), Elements(ids), account)
    {
      rows := Repointed(rows, Elements(ids), account);
    }

    method DeleteAll(ids: seq<nat>)
      modifies this
      ensures rows == old(rows) - Elements(ids)
    {
      hide Concat;
      var chunks := ChunkStrings(ids, CHUNK);
      var i := 0;
      ConcatNothing();
      assert chunks[..0] == [];
      while i < |chunks|
        invariant 0 <= i <= |chunks|
        invariant rows == old(rows) - Elements(Concat(chunks[..i]))
      {
        Delete(chunks[i]);
        ConcatOneMore(chunks[..i], chunks[i]);
        assert chunks[..i + 1] == chunks[..i] + [chunks[i]];
        i := i + 1;
      }
      assert chunks[..i] == chunks;
    }

    method UpdateAll(ids: seq<nat>, account: nat)
      requires forall some :: some <= Elements(ids) ==> UniqueFills(Repointed(rows, some, account))
      modifies this
      ensures rows == Repointed(old(rows), Elements(ids), account)
    {
      hide Concat, UniqueFills;
      var chunks := ChunkStrings(ids, CHUNK);
      var i := 0;
      ConcatNothing();
      assert chunks[..0] == [];
      assert rows == Repointed(rows, {}, account);
      while i < |chunks|
        invariant 0 <= i <= |chunks|
        invariant rows == Repointed(old(rows), Elements(Concat(chunks[..i])), account)
      {
        ConcatOneMore(chunks[..i], chunks[i]);
        assert chunks[..i + 1] == chunks[..i] + [chunks[i]];
        ConcatPrefix(chunks, i + 1);
        assert Repointed(rows, Elements(chunks[i]), account) == Repointed(old(rows), Elements(Concat(chunks[..i + 1])), account);
        UpdateAccount(chunks[i], account);
        i := i + 1;
      }
      assert chunks[..i] == chunks;
    }

    /** Moves the legs' activities into the merged account; legs[0] is the primary leg. */
    method MergeActivities(newId: nat, legs: seq<nat>)
      requires legs != [] && newId !in legs && UniqueFills(rows)
      modifies this
      ensures Conserves(old(rows), rows, newId, Elements(legs), legs[0])
    {
      hide UniqueFills, IsScan, Splits, Conserves;
      var newSources := SourcesOf(rows, newId);
      var olds := Scan(Elements(legs));
      assert DistinctIds(olds);
      var moves, drops := PlanMoves(olds, legs[0], newSources);
      forall some | some <= Elements(moves) ensures UniqueFills(Repointed(rows - Elements(drops), some, newId)) {
        IndexHoldsThroughout(rows, newId, Elements(legs), legs[0], olds, moves, drops, some);
      }
      PlanConserves(rows, newId, Elements(legs), legs[0], olds, moves, drops);
      DeleteAll(drops);
      UpdateAll(moves, newId);
    }
  }

  lemma {:induction false} ConcatPrefix(chunks: seq<seq<nat>>, i: nat)
    requires i <= |chunks|
    ensures Elements(Concat(chunks[..i])) <= Elements(Concat(chunks))
    decreases |chunks| - i
  {
    if i == |chunks| {
      assert chunks[..i] == chunks;
    } else {
      ConcatPrefix(chunks, i + 1);
      assert chunks[..i + 1][..i] == chunks[..i];
    }
  }

  /** A second run finds nothing to merge and changes nothing. */
  lemma {:induction false} SecondRunIsIdle(was: Table, now: Table, again: Table, newId: nat, legs: set<nat>, primary: nat)
    requires Conserves(was, now, newId, legs, primary) && Conserves(now, again, newId, legs, primary)
    ensures again == now
  {
  }

  // ---------------------------------------------------------------- the account row

  datatype Account = Account(id: nat, syncEnabled: bool, isPaper: bool, txDone: bool, holdingsDone: bool,
                             lastTx: Option<int>, lastHoldings: Option<int>, firstTx: Option<int>, descriptors: nat)

  predicate IsLatest(r: Option<int>, times: seq<Option<int>>) {
    match r
    case None => forall t :: t in times ==> t.None?
    case Some(x) => r in times && forall t :: t in times && t.Some? ==> t.value <= x
  }

  predicate IsEarliest(r: Option<int>, times: seq<Option<int>>) {
    match r
    case None => forall t :: t in times ==> t.None?
    case Some(x) => r in times && forall t :: t in times && t.Some? ==> x <= t.value
  }

  method MaxTimeOf(times: seq<Option<int>>) returns (best: Option<int>)
    ensures IsLatest(best, times)
  {
    best := None;
    var i := 0;
    while i < |times|
      invariant 0 <= i <= |times|
      invariant IsLatest(best, times[..i])
    {
      if times[i].Some? && (best.None? || times[i].value > best.value) {
        best := times[i];
      }
      assert times[..i + 1] == times[..i] + [times[i]];
      i := i + 1;
    }
    assert times[..i] == times;
  }

  method MinTimeOf(times: seq<Option<int>>) returns (best: Option<int>)
    ensures IsEarliest(best, times)
  {
    best := None;
    var i := 0;
    while i < |times|
      invariant 0 <= i <= |times|
      invariant IsEarliest(best, times[..i])
    {
      if times[i].Some? && (best.None? || times[i].value < best.value) {
        best := times[i];
      }
      assert times[..i + 1] == times[..i] + [times[i]];
      i := i + 1;
    }
    assert times[..i] == times;
  }

  function Times(legs: seq<Account>, pick: Account -> Option<int>): (r: seq<Option<int>>)
    ensures |r| == |legs| && forall i :: 0 <= i < |r| ==> r[i] == pick(legs[i])
  {
    seq(|legs|, i requires 0 <= i < |legs| => pick(legs[i]))
  }

  predicate AllEnabled(legs: seq<Account>) {
    forall l :: l in legs ==> l.syncEnabled
  }

  /** The universal row: a completed or enabled leg alone never makes the merged account complete or enabled. */
  method MergeAccountRow(newId: nat, legs: seq<Account>) returns (merged: Account)
    requires legs != []
    ensures merged.id == newId && merged.descriptors == legs[0].descriptors
    ensures merged.syncEnabled <==> AllEnabled(legs)
    ensures merged.txDone <==> forall l :: l in legs ==> l.txDone
    ensures merged.holdingsDone <==> forall l :: l in legs ==> l.holdingsDone
    ensures merged.isPaper <==> exists l :: l in legs && l.isPaper
    ensures if merged.txDone then IsLatest(merged.lastTx, Times(legs, (a: Account) => a.lastTx)) else merged.lastTx == None
    ensures if merged.holdingsDone then IsLatest(merged.lastHoldings, Times(legs, (a: Account) => a.lastHoldings)) else merged.lastHoldings == None
    ensures IsEarliest(merged.firstTx, Times(legs, (a: Account) => a.firstTx))
  {
    hide IsLatest, IsEarliest;
    var sync, tx, hold, paper := true, true, true, legs[0].isPaper;
    var i := 0;
    while i < |legs|
      invariant 0 <= i <= |legs|
      invariant sync <==> forall k :: 0 <= k < i ==> legs[k].syncEnabled
      invariant tx <==> forall k :: 0 <= k < i ==> legs[k].txDone
      invariant hold <==> forall k :: 0 <= k < i ==> legs[k].holdingsDone
      invariant paper <==> legs[0].isPaper || exists k :: 0 <= k < i && legs[k].isPaper
    {
      sync, tx, hold, paper := sync && legs[i].syncEnabled, tx && legs[i].txDone, hold && legs[i].holdingsDone, paper || legs[i].isPaper;
      i := i + 1;
    }
    var lastTx, lastHoldings := None, None;
    if tx {
      lastTx := MaxTimeOf(Times(legs, (a: Account) => a.lastTx));
    }
    if hold {
      lastHoldings := MaxTimeOf(Times(legs, (a: Account) => a.lastHoldings));
    }
    var firstTx := MinTimeOf(Times(legs, (a: Account) => a.firstTx));
    merged := legs[0].(id := newId, syncEnabled := sync, txDone := tx, holdingsDone := hold, isPaper := paper,
                       lastTx := lastTx, lastHoldings := lastHoldings, firstTx := firstTx);
  }

  /** A row that a later sync already made keeps its own values, and is only ever switched off. */
  method StoreMergedAccount(existing: Option<Account>, newId: nat, legs: seq<Account>) returns (row: Account)
    requires legs != []
    ensures row.syncEnabled <==> AllEnabled(legs) && (existing.Some? ==> existing.value.syncEnabled)
    ensures existing.Some? ==> row == existing.value.(syncEnabled := row.syncEnabled)
  {
    if existing.None? {
      row := MergeAccountRow(newId, legs);
      return;
    }
    var sync := true;
    var i := 0;
    while i < |legs|
      invariant 0 <= i <= |legs|
      invariant sync <==> forall k :: 0 <= k < i ==> legs[k].syncEnabled
    {
      sync := sync && legs[i].syncEnabled;
      i := i + 1;
    }
    row := existing.value;
    if !sync && row.syncEnabled {
      row := row.(syncEnabled := false);
    }
  }

  // ---------------------------------------------------------------- the holdings

  datatype Position = Position(symbol: nat, detail: nat)

  /** A leg's stored snapshot; one that cannot be decoded is not readable. */
  datatype Snapshot = Snapshot(capturedAt: int, balances: nat, positions: seq<Position>, options: seq<Position>, readable: bool)

  datatype Holdings = Holdings(capturedAt: int, balances: nat, positions: seq<Position>, options: seq<Position>)

  /** The same snapshots with their option positions in place of the others; an option's symbol is its identity. */
  function OptionsOf(snaps: map<nat, Snapshot>): (r: map<nat, Snapshot>)
    ensures r.Keys == snaps.Keys
    ensures forall leg :: leg in snaps ==> r[leg] == snaps[leg].(positions := snaps[leg].options)
  {
    map leg | leg in snaps :: snaps[leg].(positions := snaps[leg].options)
  }

  predicate Readable(snaps: map<nat, Snapshot>, leg: nat) {
    leg in snaps && snaps[leg].readable
  }

  predicate Holds(snaps: map<nat, Snapshot>, leg: nat, symbol: nat) {
    Readable(snaps, leg) && exists k :: 0 <= k < |snaps[leg].positions| && snaps[leg].positions[k].symbol == symbol
  }

  predicate IsBase(legs: seq<nat>, snaps: map<nat, Snapshot>, b: nat) {
    b < |legs| && legs[b] in snaps && forall j :: 0 <= j < b ==> legs[j] !in snaps
  }

  /** The position is a leg's, and no leg of higher priority holds the symbol. */
  ghost predicate FromFirstHolder(legs: seq<nat>, snaps: map<nat, Snapshot>, p: Position) {
    exists i :: 0 <= i < |legs| && Readable(snaps, legs[i]) && p in snaps[legs[i]].positions && forall j :: 0 <= j < i ==> !Holds(snaps, legs[j], p.symbol)
  }

  predicate DistinctSymbols(s: seq<Position>) {
    forall i, j :: 0 <= i < j < |s| ==> s[i].symbol != s[j].symbol
  }

  function Symbols(s: seq<Position>): (r: set<nat>)
    ensures forall p :: p in s ==> p.symbol in r
    ensures forall x :: x in r ==> exists k :: 0 <= k < |s| && s[k].symbol == x
  {
    set p | p in s :: p.symbol
  }

  /** Adds the positions of one leg whose symbols are not held yet. */
  method Absorb(held: seq<Position>, more: seq<Position>) returns (all: seq<Position>)
    ensures held <= all && Symbols(all) == Symbols(held) + Symbols(more)
    ensures DistinctSymbols(held) ==> DistinctSymbols(all)
    ensures forall k :: |held| <= k < |all| ==> all[k] in more && all[k].symbol !in Symbols(held)
  {
    hide DistinctSymbols, Symbols;
    all := held;
    var seen := Symbols(held);
    var i := 0;
    NoSymbols();
    while i < |more|
      invariant 0 <= i <= |more|
      invariant held <= all && seen == Symbols(all) == Symbols(held) + Symbols(more[..i])
      invariant DistinctSymbols(held) ==> DistinctSymbols(all)
      invariant forall k :: |held| <= k < |all| ==> all[k] in more && all[k].symbol !in Symbols(held)
    {
      assert more[..i + 1] == more[..i] + [more[i]];
      OnePositionMore(more[..i], more[i]);
      if more[i].symbol !in seen {
        OnePositionMore(all, more[i]);
        seen := seen + {more[i].symbol};
        all := all + [more[i]];
      }
      i := i + 1;
    }
    assert more[..i] == more;
  }

  lemma {:induction false} NoSymbols()
    ensures Symbols([]) == {}
  {
  }

  lemma {:induction false} OnePositionMore(s: seq<Position>, p: Position)
    ensures Symbols(s + [p]) == Symbols(s) + {p.symbol}
    ensures DistinctSymbols(s) && p.symbol !in Symbols(s) ==> DistinctSymbols(s + [p])
  {
    assert forall k :: 0 <= k < |s| ==> s[k] in s;
  }

  ghost predicate IsUnion(legs: seq<nat>, snaps: map<nat, Snapshot>, upTo: nat, s: seq<Position>)
    requires upTo <= |legs|
  {
    && (forall p :: p in s ==> FromFirstHolder(legs, snaps, p))
    && (forall i, x :: 0 <= i < upTo && Holds(snaps, legs[i], x) ==> x in Symbols(s))
    && (forall x :: x in Symbols(s) ==> exists i :: 0 <= i < upTo && Holds(snaps, legs[i], x))
  }

  lemma {:induction false} UnionGrows(legs: seq<nat>, snaps: map<nat, Snapshot>, i: nat, s: seq<Position>, t: seq<Position>)
    requires i < |legs| && IsUnion(legs, snaps, i, s)
    requires if Readable(snaps, legs[i])
             then s <= t && Symbols(t) == Symbols(s) + Symbols(snaps[legs[i]].positions)
                  && forall k :: |s| <= k < |t| ==> t[k] in snaps[legs[i]].positions && t[k].symbol !in Symbols(s)
             else t == s
    ensures IsUnion(legs, snaps, i + 1, t)
  {
  }

  ghost predicate BaseReadable(legs: seq<nat>, snaps: map<nat, Snapshot>) {
    exists b: nat :: IsBase(legs, snaps, b) && snaps[legs[b]].readable
  }

  /** The time of the latest snapshot that can be read. */
  predicate IsLatestCapture(legs: seq<nat>, snaps: map<nat, Snapshot>, captured: int) {
    && (forall k :: 0 <= k < |legs| && Readable(snaps, legs[k]) ==> snaps[legs[k]].capturedAt <= captured)
    && exists k :: 0 <= k < |legs| && Readable(snaps, legs[k]) && snaps[legs[k]].capturedAt == captured
  }

  /** Positions are united over the legs, those of the base leg first. */
  ghost predicate UnitedFrom(legs: seq<nat>, snaps: map<nat, Snapshot>, b: nat, s: seq<Position>)
    requires b < |legs| && legs[b] in snaps
  {
    && IsUnion(legs, snaps, |legs|, s) && snaps[legs[b]].positions <= s
    && (DistinctSymbols(snaps[legs[b]].positions) ==> DistinctSymbols(s))
  }

  method AbsorbLegs(legs: seq<nat>, snaps: map<nat, Snapshot>, b: nat) returns (positions: seq<Position>, captured: int)
    requires IsBase(legs, snaps, b) && snaps[legs[b]].readable
    ensures UnitedFrom(legs, snaps, b, positions)
    ensures IsLatestCapture(legs, snaps, captured)
  {
    hide IsUnion, DistinctSymbols, Symbols;
    positions, captured := snaps[legs[b]].positions, snaps[legs[b]].capturedAt;
    BaseIsUnion(legs, snaps, b);
    var i := b + 1;
    while i < |legs|
      invariant b < i <= |legs|
      invariant IsUnion(legs, snaps, i, positions)
      invariant snaps[legs[b]].positions <= positions && (DistinctSymbols(snaps[legs[b]].positions) ==> DistinctSymbols(positions))
      invariant forall k :: 0 <= k < i && Readable(snaps, legs[k]) ==> snaps[legs[k]].capturedAt <= captured
      invariant exists k :: 0 <= k < i && Readable(snaps, legs[k]) && snaps[legs[k]].capturedAt == captured
    {
      ghost var before := positions;
      if legs[i] in snaps && snaps[legs[i]].readable {
        positions := Absorb(positions, snaps[legs[i]].positions);
        if snaps[legs[i]].capturedAt > captured {
          captured := snaps[legs[i]].capturedAt;
        }
      }
      UnionGrows(legs, snaps, i, before, positions);
      i := i + 1;
    }
  }

  /** Every symbol and option that a readable leg holds, from the first leg that holds it; balances from the first leg
      with a snapshot, and nothing at all when that one cannot be read. */
  method UnionHoldings(legs: seq<nat>, snaps: map<nat, Snapshot>) returns (merged: Option<Holdings>)
    ensures merged.Some? <==> BaseReadable(legs, snaps)
    ensures merged.Some? ==>
              && IsLatestCapture(legs, snaps, merged.value.capturedAt)
              && exists b: nat :: IsBase(legs, snaps, b) && merged.value.balances == snaps[legs[b]].balances
                                  && UnitedFrom(legs, snaps, b, merged.value.positions)
                                  && UnitedFrom(legs, OptionsOf(snaps), b, merged.value.options)
  {
    var b := 0;
    while b < |legs| && legs[b] !in snaps
      invariant 0 <= b <= |legs|
      invariant forall j :: 0 <= j < b ==> legs[j] !in snaps
    {
      b := b + 1;
    }
    hide BaseReadable, UnitedFrom, IsLatestCapture;
    if b == |legs| || !snaps[legs[b]].readable {
      return None;
    }
    assert IsBase(legs, snaps, b);
    var positions, captured := AbsorbLegs(legs, snaps, b);
    var options, _ := AbsorbLegs(legs, OptionsOf(snaps), b);
    merged := Some(Holdings(captured, snaps[legs[b]].balances, positions, options));
  }

  lemma {:induction false} BaseIsUnion(legs: seq<nat>, snaps: map<nat, Snapshot>, b: nat)
    requires IsBase(legs, snaps, b) && snaps[legs[b]].readable
    ensures IsUnion(legs, snaps, b + 1, snaps[legs[b]].positions)
  {
  }
}
