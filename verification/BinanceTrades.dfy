/**
 * The Binance trade history: pages of fills by ascending trade id, a cursor derived
 * from the stored fills alone, and a rotation over the pairs within a request budget.
 * Pairs are numbered in the order of their names.
 */
module BinanceTrades {
  import opened Prelude

  const PAGE_LIMIT := 1000
  const PAGE_BUDGET := 20
  const PAGES_PER_PAIR := 2
  const MAX_ID := 0x7FFF_FFFF_FFFF_FFFF

  /** An upstream fill; one that is not `wellFormed` fails to map. */
  datatype Trade = Trade(id: Id, wellFormed: bool)

  /** A non-negative 64-bit trade id. */
  type Id = n: nat | n <= MAX_ID

  /** A history request fails, or sees the first `count` fills of the pair. */
  datatype Reply = RequestFailed | Sees(count: nat)

  predicate Ascending(up: seq<Trade>) {
    forall i, j :: 0 <= i < j < |up| ==> up[i].id < up[j].id
  }

  predicate Usable(t: Trade) {
    t.wellFormed && t.id != MAX_ID
  }

  /** How many fills have an id below `id`. */
  function Below(up: seq<Trade>, id: nat): (n: nat)
    requires Ascending(up)
    ensures n <= |up|
    ensures forall i :: 0 <= i < n ==> up[i].id < id
    ensures forall i :: n <= i < |up| ==> up[i].id >= id
  {
    if up != [] && up[|up| - 1].id >= id then Below(up[..|up| - 1], id) else |up|
  }

  lemma {:induction false} BelowIs(up: seq<Trade>, id: nat, n: nat)
    requires Ascending(up) && n <= |up|
    requires forall i :: 0 <= i < n ==> up[i].id < id
    requires forall i :: n <= i < |up| ==> up[i].id >= id
    ensures Below(up, id) == n
  {
    if n < |up| {
      BelowIs(up[..|up| - 1], id, n);
    }
  }

  function Ids(up: seq<Trade>): set<nat> {
    set i | 0 <= i < |up| :: up[i].id
  }

  /** Exactly the first fills of the pair, up to some point, all of them usable. */
  predicate InitialSegment(up: seq<Trade>, ids: set<nat>, length: nat) {
    length <= |up| && ids == Ids(up[..length]) && forall i :: 0 <= i < length ==> Usable(up[i])
  }

  /** Max stored id plus one, or zero: the id that the next request starts from. */
  predicate IsCursor(ids: set<nat>, cursor: nat) {
    (forall id :: id in ids ==> id < cursor) && (cursor > 0 ==> cursor - 1 in ids)
  }

  /** Deriving the cursor from an initial segment skips nothing and repeats nothing. */
  lemma {:induction false} CursorContinuesTheSegment(up: seq<Trade>, ids: set<nat>, length: nat, cursor: nat)
    requires Ascending(up) && InitialSegment(up, ids, length) && IsCursor(ids, cursor)
    ensures Below(up, cursor) == length
  {
    forall i | 0 <= i < length ensures up[i].id < cursor {
      assert up[..length][i].id in ids;
    }
    if cursor > 0 {
      var i :| 0 <= i < length && up[..length][i].id == cursor - 1;
      assert forall j :: length <= j < |up| ==> up[i].id < up[j].id;
    }
    BelowIs(up, cursor, length);
  }

  /** Storing the fills that follow a segment leaves a segment. */
  lemma {:induction false} AppendingKeepsTheSegment(up: seq<Trade>, ids: set<nat>, length: nat, to: nat)
    requires InitialSegment(up, ids, length) && length <= to <= |up|
    requires forall i :: length <= i < to ==> Usable(up[i])
    ensures InitialSegment(up, ids + Ids(up[length..to]), to)
  {
  }

  /** A page: the fills from `from` on, at most a thousand of those that exist. */
  function PageEnd(up: seq<Trade>, from: nat, count: nat): nat
    requires Ascending(up)
  {
    Min(Below(up, from) + PAGE_LIMIT, Max(Below(up, from), Min(count, |up|)))
  }

  /**
   * At most `budget` pages of one pair. The fills returned directly follow the cursor
   * without a gap, with an error too; without one, `complete` says that everything
   * which existed at the last request was returned.
   */
  method SymbolTrades(up: seq<Trade>, fromId: Id, budget: nat, replies: seq<Reply>)
    returns (trades: seq<Trade>, complete: bool, used: nat, failed: bool)
    requires Ascending(up) && budget >= 1 && |replies| == budget
    ensures 1 <= used <= budget
    ensures var from := Below(up, fromId);
            && Follows(up, from, trades)
            && (complete ==> !failed && replies[used - 1].Sees? && from + |trades| >= Min(replies[used - 1].count, |up|))
            && (!complete && !failed ==> used == budget && |trades| == budget * PAGE_LIMIT)
            && (failed ==> replies[used - 1].RequestFailed? || (from + |trades| < |up| && !Usable(up[from + |trades|])))
  {
    var from, nextFrom: Id := Below(up, fromId), fromId;
    trades, complete, failed, used := [], false, false, 0;
    assert Follows(up, from, trades);
    hide Follows, Ascending, Usable, Below;
    while used < budget
      invariant 0 <= used <= budget && |trades| == used * PAGE_LIMIT && !complete && !failed
      invariant Follows(up, from, trades) && Below(up, nextFrom) == from + |trades| <= |up|
    {
      var reply := replies[used];
      used := used + 1;
      if reply.RequestFailed? { failed := true; return; }
      trades, nextFrom, complete, failed := FetchPage(up, from, trades, nextFrom, reply.count);
      if failed || complete { return; }
    }
  }

  /** One answered page of `symbolTrades`. */
  method FetchPage(up: seq<Trade>, from: nat, trades: seq<Trade>, fromId: Id, count: nat)
    returns (grown: seq<Trade>, nextId: Id, complete: bool, failed: bool)
    requires Ascending(up) && Follows(up, from, trades) && Below(up, fromId) == from + |trades| <= |up|
    ensures Follows(up, from, grown) && !(complete && failed)
    ensures failed ==> from + |grown| < |up| && !Usable(up[from + |grown|])
    ensures complete ==> from + |grown| >= Min(count, |up|)
    ensures !failed && !complete ==> |grown| == |trades| + PAGE_LIMIT && Below(up, nextId) == from + |grown| <= |up|
  {
    hide Follows, Ascending, Usable;
    var start := from + |trades|;
    var page := up[start..PageEnd(up, fromId, count)];
    var good;
    good, nextId, failed := MapPage(page, fromId);
    PageFollows(up, from, trades, page, good);
    grown, complete := trades + page[..good], false;
    if failed {
      assert page[good] == up[start + good];
    } else if |page| < PAGE_LIMIT {
      complete := true;
    } else {
      NextIdContinues(up, start + good, nextId);
    }
  }

  /** `trades` are the usable fills right after the first `from` ones. */
  predicate Follows(up: seq<Trade>, from: nat, trades: seq<Trade>) {
    && from + |trades| <= |up| && trades == up[from..from + |trades|]
    && forall i :: from <= i < from + |trades| ==> Usable(up[i])
  }

  lemma {:induction false} PageFollows(up: seq<Trade>, from: nat, trades: seq<Trade>, page: seq<Trade>, good: nat)
    requires Follows(up, from, trades) && good <= |page|
    requires from + |trades| + |page| <= |up| && page == up[from + |trades|..from + |trades| + |page|]
    requires forall k :: 0 <= k < good ==> Usable(page[k])
    ensures Follows(up, from, trades + page[..good])
  {
  }

  /** Maps a page in order up to the first record that cannot be used. */
  method MapPage(page: seq<Trade>, fromId: Id) returns (good: nat, nextId: Id, failed: bool)
    ensures good <= |page| && (forall k :: 0 <= k < good ==> Usable(page[k]))
    ensures failed <==> good < |page|
    ensures failed ==> !Usable(page[good])
    ensures nextId == (if good == 0 then fromId else page[good - 1].id + 1)
  {
    good, nextId, failed := 0, fromId, false;
    while good < |page|
      invariant good <= |page| && !failed
      invariant forall k :: 0 <= k < good ==> Usable(page[k])
      invariant nextId == if good == 0 then fromId else page[good - 1].id + 1
    {
      if !page[good].wellFormed { failed := true; return; }
      if page[good].id == MAX_ID { failed := true; return; }
      nextId := page[good].id + 1;
      good := good + 1;
    }
  }

  lemma {:induction false} NextIdContinues(up: seq<Trade>, to: nat, nextId: nat)
    requires Ascending(up) && 0 < to <= |up| && nextId == up[to - 1].id + 1
    ensures Below(up, nextId) == to
  {
    assert forall i :: 0 <= i < to ==> up[i].id <= up[to - 1].id;
    assert forall i :: to <= i < |up| ==> up[to - 1].id < up[i].id;
    BelowIs(up, nextId, to);
  }

  // ------------------------------------------------------------ stored fills

  /** A stored activity row: a fill of a pair, or a row of another source. */
  datatype Row = Fill(pair: nat, id: int) | Foreign

  function StoredIds(rows: seq<Row>, pair: nat): set<nat> {
    set k | 0 <= k < |rows| && rows[k].Fill? && rows[k].pair == pair && rows[k].id >= 0 :: rows[k].id
  }

  predicate BadRow(row: Row) {
    row.Fill? && (row.id < 0 || row.id >= MAX_ID)
  }

  /**
   * Pages through the stored activities. An unreadable page or an invalid id refuses
   * to derive any progress; otherwise each pair's cursor is its greatest id plus one.
   */
  method SavedCursors(rows: seq<Row>, failAt: Option<nat>) returns (cursors: map<nat, nat>, failed: bool)
    ensures !failed ==> forall k :: 0 <= k < |rows| ==> !BadRow(rows[k])
    ensures !failed ==> forall p :: p in cursors <==> StoredIds(rows, p) != {}
    ensures !failed ==> forall p :: p in cursors ==> IsCursor(StoredIds(rows, p), cursors[p]) && cursors[p] <= MAX_ID
    ensures failAt.None? && (forall k :: 0 <= k < |rows| ==> !BadRow(rows[k])) ==> !failed
  {
    cursors, failed := map[], false;
    var offset, page := 0, 0;
    while true
      invariant offset <= |rows| && !failed
      invariant forall k :: 0 <= k < offset ==> !BadRow(rows[k])
      invariant CursorsOf(rows[..offset], cursors)
      invariant page > 0 ==> offset < |rows|
      decreases |rows| - offset, if page == 0 then 1 else 0
    {
      if failAt == Some(page) { failed := true; return; }
      var end := Min(offset + 1000, |rows|);
      while offset < end
        invariant offset <= end
        invariant forall k :: 0 <= k < offset ==> !BadRow(rows[k])
        invariant CursorsOf(rows[..offset], cursors)
      {
        var row := rows[offset];
        if BadRow(row) { failed := true; return; }
        assert rows[..offset + 1] == rows[..offset] + [row];
        CursorsGrow(rows[..offset], cursors, row);
        if row.Fill? {
          var known := if row.pair in cursors then cursors[row.pair] else 0;
          cursors := cursors[row.pair := Max(known, row.id + 1)];
        }
        offset := offset + 1;
      }
      page := page + 1;
      if offset >= |rows| {
        assert rows[..offset] == rows;
        return;
      }
    }
  }

  ghost predicate CursorsOf(rows: seq<Row>, cursors: map<nat, nat>) {
    && (forall p :: p in cursors <==> StoredIds(rows, p) != {})
    && forall p :: p in cursors ==> IsCursor(StoredIds(rows, p), cursors[p]) && cursors[p] <= MAX_ID
  }

  lemma {:induction false} CursorsGrow(rows: seq<Row>, cursors: map<nat, nat>, row: Row)
    requires CursorsOf(rows, cursors) && !BadRow(row)
    ensures var known := if row.Fill? && row.pair in cursors then cursors[row.pair] else 0;
            CursorsOf(rows + [row], if row.Fill? then cursors[row.pair := Max(known, row.id + 1)] else cursors)
  {
    hide StoredIds, IsCursor;
    var known := if row.Fill? && row.pair in cursors then cursors[row.pair] else 0;
    var next := if row.Fill? then cursors[row.pair := Max(known, row.id + 1)] else cursors;
    forall p: nat
      ensures p in next <==> StoredIds(rows + [row], p) != {}
      ensures p in next ==> IsCursor(StoredIds(rows + [row], p), next[p]) && next[p] <= MAX_ID
    {
      IdsOfOneMore(rows, row, p);
      if row.Fill? && row.pair == p {
        CursorOfOneMore(StoredIds(rows, p), known, row.id);
      } else {
        assert StoredIds(rows, p) + {} == StoredIds(rows, p);
      }
    }
  }

  lemma {:induction false} CursorOfOneMore(ids: set<nat>, known: nat, id: nat)
    requires if ids == {} then known == 0 else IsCursor(ids, known)
    ensures IsCursor(ids + {id}, Max(known, id + 1))
  {
  }

  lemma {:induction false} IdsOfOneMore(rows: seq<Row>, row: Row, p: nat)
    requires !BadRow(row)
    ensures StoredIds(rows + [row], p) == StoredIds(rows, p) + if row.Fill? && row.pair == p then {row.id as nat} else {}
  {
    var all := rows + [row];
    assert forall k :: 0 <= k < |rows| ==> all[k] == rows[k];
    assert all[|rows|] == row;
  }

  /** The activity rows of a pair's fills; both legs of a fill travel in one row here. */
  function FillRows(pair: nat, trades: seq<Trade>): seq<Row> {
    seq(|trades|, k requires 0 <= k < |trades| => Fill(pair, trades[k].id))
  }

  lemma {:induction false} FillRowsAddIds(rows: seq<Row>, pair: nat, trades: seq<Trade>, p: nat)
    ensures StoredIds(rows + FillRows(pair, trades), p) == StoredIds(rows, p) + if p == pair then Ids(trades) else {}
  {
    var fills := FillRows(pair, trades);
    var all := rows + fills;
    forall id | id in StoredIds(rows, p) ensures id in StoredIds(all, p) {
      var k :| 0 <= k < |rows| && rows[k].Fill? && rows[k].pair == p && rows[k].id >= 0 && rows[k].id == id;
      assert all[k] == rows[k];
    }
    if p == pair {
      forall id | id in Ids(trades) ensures id in StoredIds(all, p) {
        var k :| 0 <= k < |trades| && trades[k].id == id;
        assert all[|rows| + k] == fills[k];
      }
    }
    forall id | id in StoredIds(all, p) ensures id in StoredIds(rows, p) + if p == pair then Ids(trades) else {} {
      var k :| 0 <= k < |all| && all[k].Fill? && all[k].pair == p && all[k].id >= 0 && all[k].id == id;
      if k < |rows| {
        assert rows[k] == all[k];
      } else {
        assert fills[k - |rows|] == all[k] && trades[k - |rows|].id == id;
      }
    }
  }

  // ------------------------------------------------------------------ rotation

  /** The first position whose pair is not before `next`. */
  function SearchPairs(symbols: seq<nat>, next: nat): (k: nat)
    requires Increasing(symbols)
    ensures k <= |symbols|
    ensures forall i :: 0 <= i < k ==> symbols[i] < next
    ensures forall i :: k <= i < |symbols| ==> symbols[i] >= next
  {
    if symbols != [] && symbols[|symbols| - 1] >= next then SearchPairs(symbols[..|symbols| - 1], next) else |symbols|
  }

  lemma {:induction false} SearchFindsAMember(symbols: seq<nat>, k: nat)
    requires Increasing(symbols) && k < |symbols|
    ensures SearchPairs(symbols, symbols[k]) == k
  {
    if k < |symbols| - 1 {
      SearchFindsAMember(symbols[..|symbols| - 1], k);
    } else if k > 0 {
      assert symbols[k - 1] < symbols[k];
    }
  }

  /** The pair at a position of the endless rotation. */
  function PairAt(symbols: seq<nat>, k: nat): nat
    requires symbols != []
  {
    symbols[k % |symbols|]
  }

  /** `x % n` for positions that wrap at most once. */
  lemma {:induction false} WrapsOnce(x: nat, n: nat)
    requires n > 0 && x < 2 * n
    ensures x % n == if x < n then x else x - n
  {
  }

  /** How many steps of the rotation position `j` lies ahead of `start`. */
  function Ahead(j: nat, start: nat, n: nat): nat
    requires j < n && start < n
  {
    if j >= start then j - start else j - start + n
  }

  function Total(spent: seq<nat>): nat {
    if spent == [] then 0 else Total(spent[..|spent| - 1]) + spent[|spent| - 1]
  }

  lemma {:induction false} TotalMore(spent: seq<nat>, more: nat)
    ensures Total(spent + [more]) == Total(spent) + more
  {
    assert (spent + [more])[..|spent|] == spent;
  }

  /** A committed run: its scope, the pair that the rotation resumed from, and how many pairs it finished. */
  datatype Run = Run(symbols: seq<nat>, next: nat, visited: nat)

  function StartOf(symbols: seq<nat>, next: nat): (start: nat)
    requires Increasing(symbols) && symbols != []
    ensures start < |symbols|
  {
    SearchPairs(symbols, next) % |symbols|
  }

  predicate Proper(r: Run) {
    Increasing(r.symbols) && r.visited <= |r.symbols|
  }

  /** The pair that the next run resumes from. */
  function After(r: Run): nat
    requires Proper(r)
  {
    if r.visited == 0 then r.next else PairAt(r.symbols, StartOf(r.symbols, r.next) + r.visited)
  }

  /** The pairs that the run brought to the end of their budget. */
  function PairsOf(r: Run): seq<nat>
    requires Proper(r)
  {
    seq<nat>(r.visited, k requires 0 <= k < r.visited => PairAt(r.symbols, StartOf(r.symbols, r.next) + k))
  }

  ghost predicate Chained(runs: seq<Run>) {
    && (forall k :: 0 <= k < |runs| ==> Proper(runs[k]))
    && (forall k :: 0 <= k < |runs| - 1 ==> runs[k + 1].next == After(runs[k]))
  }

  /** Where one run stopped, the next one starts. */
  lemma {:induction false} NextRunContinues(r: Run)
    requires Proper(r) && r.visited > 0
    ensures StartOf(r.symbols, After(r)) == (StartOf(r.symbols, r.next) + r.visited) % |r.symbols|
  {
    var k := (StartOf(r.symbols, r.next) + r.visited) % |r.symbols|;
    SearchFindsAMember(r.symbols, k);
    WrapsOnce(k, |r.symbols|);
  }

  function TotalVisited(runs: seq<Run>): nat {
    if runs == [] then 0 else runs[0].visited + TotalVisited(runs[1..])
  }

  /** Consecutive runs that together finish more pairs than lie ahead of one reach it. */
  lemma {:induction false} EnoughVisitsReachEveryPair(runs: seq<Run>, symbols: seq<nat>, j: nat)
    requires Chained(runs) && runs != [] && Increasing(symbols) && j < |symbols|
    requires forall k :: 0 <= k < |runs| ==> runs[k].symbols == symbols
    requires Ahead(j, StartOf(symbols, runs[0].next), |symbols|) < TotalVisited(runs)
    ensures exists k :: 0 <= k < |runs| && symbols[j] in PairsOf(runs[k])
    decreases |runs|
  {
    var n, start := |symbols|, StartOf(symbols, runs[0].next);
    var ahead := Ahead(j, start, n);
    if ahead < runs[0].visited {
      WrapsOnce(start + ahead, n);
      assert PairsOf(runs[0])[ahead] == PairAt(symbols, start + ahead) == symbols[j];
    } else {
      var rest := runs[1..];
      if runs[0].visited > 0 { NextRunContinues(runs[0]); }
      WrapsOnce(start + runs[0].visited, n);
      assert |runs| > 1 && rest[0] == runs[1];
      EnoughVisitsReachEveryPair(rest, symbols, j);
      var k :| 0 <= k < |rest| && symbols[j] in PairsOf(rest[k]);
      assert runs[k + 1] == rest[k];
    }
  }

  /** How many of the runs finished at least `each` pairs. */
  function FullRuns(runs: seq<Run>, each: nat): nat {
    if runs == [] then 0 else (if runs[0].visited >= each then 1 else 0) + FullRuns(runs[1..], each)
  }

  lemma {:induction false} TotalAtLeast(runs: seq<Run>, each: nat)
    ensures TotalVisited(runs) >= each * FullRuns(runs, each)
  {
    if runs != [] {
      TotalAtLeast(runs[1..], each);
      if runs[0].visited >= each {
        assert each * (1 + FullRuns(runs[1..], each)) == each + each * FullRuns(runs[1..], each);
      }
    }
  }

  lemma {:induction false} BudgetsAddUp(n: nat, full: nat, total: nat)
    requires full >= (n + 9) / 10 && total >= Min(n, PAGE_BUDGET / PAGES_PER_PAIR) * full
    ensures total >= n
  {
    if 0 < n < 10 {
      assert full >= 1;
      assert n * full >= n;
    }
  }

  /**
   * Consecutive committed runs of one scope, n/10 rounded up of which finish their budget, visit every one of its n
   * pairs, however many others fail half way in between.
   */
  lemma {:induction false} RotationIsFair(runs: seq<Run>, symbols: seq<nat>, s: nat)
    requires Chained(runs) && Increasing(symbols) && s in symbols && forall k :: 0 <= k < |runs| ==> runs[k].symbols == symbols
    requires FullRuns(runs, Min(|symbols|, PAGE_BUDGET / PAGES_PER_PAIR)) >= (|symbols| + 9) / 10
    ensures exists k :: 0 <= k < |runs| && s in PairsOf(runs[k])
  {
    var j :| 0 <= j < |symbols| && symbols[j] == s;
    hide *;
    var each := Min(|symbols|, PAGE_BUDGET / PAGES_PER_PAIR);
    TotalAtLeast(runs, each);
    BudgetsAddUp(|symbols|, FullRuns(runs, each), TotalVisited(runs));
    EnoughVisitsReachEveryPair(runs, symbols, j);
  }

  // ---------------------------------------------------------------- the fetcher

  /** In-memory progress: which pairs last came to their end, and where to go on. */
  datatype Progress = Progress(finished: map<nat, bool>, next: nat)

  datatype Result = HistoryComplete | HistoryPending | HistoryFailed

  function ListOf(exchange: map<nat, seq<Trade>>, p: nat): seq<Trade> {
    if p in exchange then exchange[p] else []
  }

  ghost predicate IsSegment(up: seq<Trade>, ids: set<nat>) {
    Ascending(up) && exists length :: InitialSegment(up, ids, length)
  }

  /** Upstream growth and an unchanged table keep a segment. */
  lemma {:induction false} GrowthKeepsSegment(up: seq<Trade>, fills: seq<Trade>, ids: set<nat>)
    requires IsSegment(up, ids) && Ascending(up + fills)
    ensures IsSegment(up + fills, ids)
  {
    var length: nat :| InitialSegment(up, ids, length);
    assert (up + fills)[..length] == up[..length];
    assert InitialSegment(up + fills, ids, length);
  }

  /** What a run returns for one pair continues what is stored of it. */
  lemma {:induction false} FillsContinue(up: seq<Trade>, ids: set<nat>, cursor: nat, trades: seq<Trade>)
    requires IsSegment(up, ids) && IsCursor(ids, cursor) && Follows(up, Below(up, cursor), trades)
    ensures IsSegment(up, ids + Ids(trades))
  {
    var length: nat :| InitialSegment(up, ids, length);
    CursorContinuesTheSegment(up, ids, length, cursor);
    AppendingKeepsTheSegment(up, ids, length, length + |trades|);
    assert InitialSegment(up, ids + Ids(trades), length + |trades|);
  }

  predicate OnlyPairs(rows: seq<Row>, pairs: seq<nat>) {
    forall k :: 0 <= k < |rows| ==> rows[k].Fill? && rows[k].pair in pairs
  }

  lemma {:induction false} NoRows()
    ensures OnlyPairs([], []) && Total([]) == 0
  {
  }

  lemma {:induction false} RowsOfPairs(rows: seq<Row>, pairs: seq<nat>, pair: nat, trades: seq<Trade>)
    requires OnlyPairs(rows, pairs)
    ensures OnlyPairs(rows + FillRows(pair, trades), pairs + [pair])
  {
  }

  /** The pairs tried so far are the first ones selected, and each took one or two of the requests. */
  ghost predicate Tally(tried: seq<nat>, spent: seq<nat>, selected: seq<nat>, n: nat, requests: nat) {
    && |spent| == n <= |selected| && tried == selected[..n]
    && requests == Total(spent) <= PAGES_PER_PAIR * n && requests <= PAGE_BUDGET
    && forall k :: 0 <= k < n ==> 1 <= spent[k] <= PAGES_PER_PAIR
  }

  lemma {:induction false} NoTally(selected: seq<nat>)
    ensures Tally([], [], selected, 0, 0)
  {
  }

  lemma {:induction false} TallyMore(tried: seq<nat>, spent: seq<nat>, selected: seq<nat>, n: nat, requests: nat, used: nat)
    requires Tally(tried, spent, selected, n, requests) && n < |selected|
    requires 1 <= used <= PAGES_PER_PAIR && requests + used <= PAGE_BUDGET
    ensures Tally(tried + [selected[n]], spent + [used], selected, n + 1, requests + used)
  {
    TotalMore(spent, used);
  }

  lemma {:induction false} TallyMeans(tried: seq<nat>, spent: seq<nat>, selected: seq<nat>, n: nat, requests: nat)
    requires Tally(tried, spent, selected, n, requests)
    ensures tried == selected[..n] && n <= |selected| && requests <= PAGES_PER_PAIR * n
  {
  }

  class Fetcher {
    var rows: seq<Row>
    var progress: Progress
    var pending: Progress
    /** Every fill that each pair will ever have shown so far. */
    ghost var upstream: map<nat, seq<Trade>>
    /** The committed runs of this process. */
    ghost var runs: seq<Run>

    ghost function UpstreamOf(p: nat): seq<Trade>
      reads this`upstream
    {
      ListOf(upstream, p)
    }

    /** Were `more` stored too, the pair's fills would be an initial segment. */
    ghost predicate SegmentWith(more: seq<Row>, p: nat)
      reads `rows, `upstream
    {
      IsSegment(UpstreamOf(p), StoredIds(rows + more, p))
    }

    ghost predicate Valid()
      reads `rows, `upstream
    {
      forall p: nat :: SegmentWith([], p)
    }

    /** The rotation resumes where the last committed run stopped. */
    ghost predicate InRotation()
      reads `progress, `runs
    {
      Chained(runs) && (runs != [] ==> progress.next == After(runs[|runs| - 1]))
    }

    constructor (ghost fills: map<nat, seq<Trade>>)
      requires forall p :: p in fills ==> Ascending(fills[p])
      ensures Valid() && InRotation() && rows == [] && upstream == fills && runs == []
    {
      rows, upstream, runs := [], fills, [];
      progress, pending := Progress(map[], 0), Progress(map[], 0);
      new;
      forall p: nat ensures SegmentWith([], p) {
        assert InitialSegment(UpstreamOf(p), StoredIds(rows + [], p), 0);
      }
    }

    /** New fills get greater ids. */
    ghost method Arrive(p: nat, fills: seq<Trade>)
      requires Valid() && Ascending(UpstreamOf(p) + fills)
      modifies this`upstream
      ensures Valid() && upstream == old(upstream)[p := old(UpstreamOf(p)) + fills]
    {
      assert SegmentWith([], p);
      GrowthKeepsSegment(UpstreamOf(p), fills, StoredIds(rows + [], p));
      ghost var before := upstream;
      assert forall q: nat :: SegmentWith([], q) ==> IsSegment(ListOf(before, q), StoredIds(rows + [], q));
      upstream := upstream[p := UpstreamOf(p) + fills];
    }

    /** One pair of a run: what is returned continues what is stored. */
    lemma {:induction false} PairContinues(all: seq<Row>, pair: nat, cursor: nat, trades: seq<Trade>)
      requires forall p: nat :: SegmentWith(all, p)
      requires StoredIds(rows + all, pair) == StoredIds(rows, pair) && IsCursor(StoredIds(rows, pair), cursor)
      requires Ascending(UpstreamOf(pair)) && Follows(UpstreamOf(pair), Below(UpstreamOf(pair), cursor), trades)
      ensures forall p: nat :: SegmentWith(all + FillRows(pair, trades), p)
    {
      var more := all + FillRows(pair, trades);
      forall p: nat ensures SegmentWith(more, p) {
        assert SegmentWith(all, p);
        assert rows + more == (rows + all) + FillRows(pair, trades);
        FillRowsAddIds(rows + all, pair, trades, p);
        if p == pair {
          FillsContinue(UpstreamOf(p), StoredIds(rows, pair), cursor, trades);
        } else {
          assert StoredIds(rows + more, p) == StoredIds(rows + all, p);
        }
      }
    }

    /**
     * One run over the scope. `replies[i]` answers the requests for the i-th selected
     * pair; `missing` are pairs without market metadata.
     */
    method Trades(symbols: seq<nat>, configured: bool, readFailAt: Option<nat>, infoOk: bool, missing: set<nat>,
                  exchange: map<nat, seq<Trade>>, replies: seq<seq<Reply>>)
      returns (all: seq<Row>, result: Result, visited: nat, requests: nat, ghost tried: seq<nat>, ghost spent: seq<nat>)
      requires Valid() && Increasing(symbols) && exchange == upstream
      requires |replies| == PAGE_BUDGET && forall i :: 0 <= i < |replies| ==> |replies[i]| == PAGES_PER_PAIR
      modifies this`pending
      ensures forall p: nat :: SegmentWith(all, p)
      ensures requests == Total(spent) <= PAGE_BUDGET
      ensures visited <= |spent| <= Min(|symbols|, visited + 1) && forall k :: 0 <= k < |spent| ==> 1 <= spent[k] <= PAGES_PER_PAIR
      ensures visited <= |symbols| && pending.next == After(Run(symbols, progress.next, visited))
      ensures |tried| == |spent| && OnlyPairs(all, tried)
      ensures forall k :: 0 <= k < |tried| ==> tried[k] == PairAt(symbols, StartOf(symbols, progress.next) + k)
      ensures result != HistoryFailed ==> visited >= Min(|symbols|, PAGE_BUDGET / PAGES_PER_PAIR)
      ensures result == HistoryComplete ==> configured
      ensures result == HistoryComplete ==> forall s :: s in symbols ==> s in pending.finished && pending.finished[s]
    {
      NothingFetchedYet();
      hide StoredIds, IsCursor, IsSegment, SegmentWith, SearchPairs, PairAt, OnlyPairs;
      assert OnlyPairs([], []) by { NoRows(); }
      all, result, visited, requests, tried, spent := [], HistoryFailed, 0, 0, [], [];
      pending := progress;
      var cursors, failed := SavedCursors(rows, readFailAt);
      if failed { return; }
      if symbols == [] {
        result := if configured then HistoryComplete else HistoryPending;
        return;
      }
      var start := StartOf(symbols, progress.next);
      var selected := SelectPairs(symbols, start, Min(|symbols|, PAGE_BUDGET));
      if !infoOk { return; }
      all, visited, requests, failed, tried, spent := VisitSelected(symbols, start, selected, cursors, missing, exchange, replies);
      if failed { return; }
      var finished := AllFinished(symbols, pending.finished);
      result := if finished && configured then HistoryComplete else HistoryPending;
    }

    /** The selected pairs in turn, until the budget is spent. */
    method VisitSelected(symbols: seq<nat>, start: nat, selected: seq<nat>, cursors: map<nat, nat>, missing: set<nat>,
                         exchange: map<nat, seq<Trade>>, replies: seq<seq<Reply>>)
      returns (all: seq<Row>, visited: nat, requests: nat, failed: bool, ghost tried: seq<nat>, ghost spent: seq<nat>)
      requires Valid() && exchange == upstream && symbols != [] && |selected| == Min(|symbols|, PAGE_BUDGET)
      requires forall k :: 0 <= k < |selected| ==> selected[k] == PairAt(symbols, start + k)
      requires forall i, j :: 0 <= i < j < |selected| ==> selected[i] != selected[j]
      requires |replies| == PAGE_BUDGET && forall i :: 0 <= i < |replies| ==> |replies[i]| == PAGES_PER_PAIR
      requires forall p: nat :: p in cursors <==> StoredIds(rows, p) != {}
      requires forall p :: p in cursors ==> IsCursor(StoredIds(rows, p), cursors[p]) && cursors[p] <= MAX_ID
      modifies this`pending
      ensures forall p: nat :: SegmentWith(all, p)
      ensures Tally(tried, spent, selected, |tried|, requests) && visited <= |tried| <= visited + 1 && OnlyPairs(all, tried)
      ensures pending.next == if visited == 0 then old(pending).next else PairAt(symbols, start + visited)
      ensures !failed ==> visited == |tried| && (visited == |selected| || requests == PAGE_BUDGET)
    {
      NothingFetchedYet();
      NoRows();
      assert Tally([], [], selected, 0, 0) by { NoTally(selected); }
      hide StoredIds, IsCursor, SegmentWith, PairAt, OnlyPairs, Total, Valid, Tally;
      all, visited, requests, failed, tried, spent := [], 0, 0, false, [], [];
      while visited < |selected| && requests < PAGE_BUDGET
        invariant visited == |tried| <= |selected| && requests <= PAGE_BUDGET && !failed
        invariant Tally(tried, spent, selected, visited, requests)
        invariant OnlyPairs(all, tried) && forall p: nat :: SegmentWith(all, p)
        invariant pending.next == if visited == 0 then old(pending).next else PairAt(symbols, start + visited)
        decreases |selected| - visited
      {
        var symbol := selected[visited];
        pending := pending.(finished := pending.finished[symbol := false]);
        if symbol in missing {
          failed := true;
          return;
        }
        TallyMeans(tried, spent, selected, visited, requests);
        var done, used;
        all, done, used, failed := VisitPair(all, symbol, tried, cursors, exchange, Min(PAGES_PER_PAIR, PAGE_BUDGET - requests), replies[visited]);
        TallyMore(tried, spent, selected, visited, requests, used);
        tried, spent, requests := tried + [symbol], spent + [used], requests + used;
        if failed { return; }
        visited := visited + 1;
        pending := Progress(pending.finished[symbol := done], PairAt(symbols, start + visited));
      }
    }

    /** The pages of one selected pair, from its stored cursor. */
    method VisitPair(all: seq<Row>, symbol: nat, ghost before: seq<nat>, cursors: map<nat, nat>, exchange: map<nat, seq<Trade>>,
                     budget: nat, replies: seq<Reply>)
      returns (grown: seq<Row>, done: bool, used: nat, failed: bool)
      requires exchange == upstream && 1 <= budget <= PAGES_PER_PAIR == |replies|
      requires forall p: nat :: p in cursors <==> StoredIds(rows, p) != {}
      requires forall p :: p in cursors ==> IsCursor(StoredIds(rows, p), cursors[p]) && cursors[p] <= MAX_ID
      requires symbol !in before && OnlyPairs(all, before) && forall p: nat :: SegmentWith(all, p)
      ensures 1 <= used <= budget
      ensures OnlyPairs(grown, before + [symbol]) && forall p: nat :: SegmentWith(grown, p)
    {
      hide StoredIds, IsCursor, IsSegment, SegmentWith, Follows, Below, Ascending, FillRows;
      var cursor := if symbol in cursors then cursors[symbol] else 0;
      PairIsAscending(all, symbol);
      var trades;
      trades, done, used, failed := SymbolTrades(ListOf(exchange, symbol), cursor, budget, replies[..budget]);
      UnseenPair(all, symbol, before);
      CursorOf(cursors, symbol, cursor);
      PairContinues(all, symbol, cursor, trades);
      RowsOfPairs(all, before, symbol, trades);
      grown := all + FillRows(symbol, trades);
    }

    lemma {:induction false} NothingFetchedYet()
      requires Valid()
      ensures forall p: nat :: SegmentWith([], p)
    {
    }

    lemma {:induction false} PairIsAscending(all: seq<Row>, p: nat)
      requires SegmentWith(all, p)
      ensures Ascending(UpstreamOf(p))
    {
    }

    lemma {:induction false} CursorOf(cursors: map<nat, nat>, pair: nat, cursor: nat)
      requires forall p: nat :: p in cursors <==> StoredIds(rows, p) != {}
      requires forall p :: p in cursors ==> IsCursor(StoredIds(rows, p), cursors[p])
      requires cursor == if pair in cursors then cursors[pair] else 0
      ensures IsCursor(StoredIds(rows, pair), cursor)
    {
    }

    /** No fetched row belongs to a pair that was not selected before. */
    lemma {:induction false} UnseenPair(all: seq<Row>, pair: nat, before: seq<nat>)
      requires pair !in before && OnlyPairs(all, before)
      ensures StoredIds(rows + all, pair) == StoredIds(rows, pair)
    {
      var both := rows + all;
      forall k | |rows| <= k < |both| ensures both[k].Fill? && both[k].pair != pair {
        assert both[k] == all[k - |rows|];
      }
      forall id | id in StoredIds(both, pair) ensures id in StoredIds(rows, pair) {
        var k :| 0 <= k < |both| && both[k].Fill? && both[k].pair == pair && both[k].id >= 0 && both[k].id == id;
        assert rows[k] == both[k];
      }
      forall id | id in StoredIds(rows, pair) ensures id in StoredIds(both, pair) {
        var k :| 0 <= k < |rows| && rows[k].Fill? && rows[k].pair == pair && rows[k].id >= 0 && rows[k].id == id;
        assert both[k] == rows[k];
      }
    }

    /** The engine stores the whole batch in one transaction or none of it. */
    method Persist(all: seq<Row>, ok: bool)
      requires Valid() && forall p: nat :: SegmentWith(all, p)
      modifies this`rows
      ensures Valid() && rows == if ok then old(rows) + all else old(rows)
    {
      if ok {
        ghost var grown := rows + all;
        assert grown + [] == grown;
        assert forall p: nat :: SegmentWith(all, p) && IsSegment(UpstreamOf(p), StoredIds(grown, p));
        rows := rows + all;
        forall p: nat ensures SegmentWith([], p) {
          assert IsSegment(UpstreamOf(p), StoredIds(grown, p));
        }
      }
    }

    method SnapshotCommitted()
      modifies this`progress
      ensures progress == pending
    {
      progress := pending;
    }

    /**
     * One sync: the fetched fills are stored whole or not at all, and the rotation moves on only when they are. `runs`
     * records what was committed, also when the history failed half way.
     */
    method Sync(symbols: seq<nat>, configured: bool, readFailAt: Option<nat>, infoOk: bool, missing: set<nat>,
                exchange: map<nat, seq<Trade>>, replies: seq<seq<Reply>>, saveOk: bool)
      returns (result: Result, visited: nat)
      requires Valid() && InRotation() && Increasing(symbols) && exchange == upstream
      requires |replies| == PAGE_BUDGET && forall i :: 0 <= i < |replies| ==> |replies[i]| == PAGES_PER_PAIR
      modifies `pending, `rows, `progress, `runs
      ensures Valid() && InRotation()
      ensures if saveOk then old(rows) <= rows else rows == old(rows) && progress == old(progress)
      ensures visited <= |symbols| && runs == old(runs) + if saveOk then [Run(symbols, old(progress).next, visited)] else []
      ensures result != HistoryFailed ==> visited >= Min(|symbols|, PAGE_BUDGET / PAGES_PER_PAIR)
    {
      hide SegmentWith, After, Total, OnlyPairs, PairAt;
      var all, requests;
      ghost var tried, spent;
      all, result, visited, requests, tried, spent := Trades(symbols, configured, readFailAt, infoOk, missing, exchange, replies);
      Persist(all, saveOk);
      if saveOk {
        ghost var run := Run(symbols, progress.next, visited);
        RunsGrow(run);
        SnapshotCommitted();
        runs := runs + [run];
      }
    }

    lemma {:induction false} RunsGrow(run: Run)
      requires InRotation() && Proper(run) && run.next == progress.next
      ensures Chained(runs + [run])
    {
      hide After, Proper;
      var more := runs + [run];
      assert forall k :: 0 <= k < |runs| ==> more[k] == runs[k];
    }

    /**
     * Between any two moments: once n/10 rounded up syncs of one scope were committed without a failure, each of its n
     * pairs has been visited, whatever failed in between.
     */
    lemma {:induction false} EveryPairIsVisited(symbols: seq<nat>, s: nat, from: nat, to: nat)
      requires InRotation() && Increasing(symbols) && s in symbols && from <= to <= |runs|
      requires forall k :: from <= k < to ==> runs[k].symbols == symbols
      requires FullRuns(runs[from..to], Min(|symbols|, PAGE_BUDGET / PAGES_PER_PAIR)) >= (|symbols| + 9) / 10
      ensures exists k :: from <= k < to && Proper(runs[k]) && s in PairsOf(runs[k])
    {
      hide After, PairsOf, FullRuns;
      var window := runs[from..to];
      assert forall k :: 0 <= k < |window| ==> window[k] == runs[from + k];
      RotationIsFair(window, symbols, s);
      var k :| 0 <= k < |window| && s in PairsOf(window[k]);
      assert runs[from + k] == window[k];
    }
  }

  method AllFinished(symbols: seq<nat>, finished: map<nat, bool>) returns (all: bool)
    ensures all <==> forall s :: s in symbols ==> s in finished && finished[s]
  {
    for k := 0 to |symbols|
      invariant forall i :: 0 <= i < k ==> symbols[i] in finished && finished[symbols[i]]
    {
      if !(symbols[k] in finished && finished[symbols[k]]) { return false; }
    }
    all := true;
  }

  /** `count` pairs from `start` on, wrapping around. */
  method SelectPairs(symbols: seq<nat>, start: nat, count: nat) returns (selected: seq<nat>)
    requires Increasing(symbols) && start < |symbols| && count <= |symbols|
    ensures |selected| == count
    ensures forall i :: 0 <= i < count ==> selected[i] == PairAt(symbols, start + i)
    ensures forall i, j :: 0 <= i < j < count ==> selected[i] != selected[j]
  {
    selected := [];
    for i := 0 to count
      invariant |selected| == i
      invariant forall k :: 0 <= k < i ==> selected[k] == PairAt(symbols, start + k)
    {
      selected := selected + [PairAt(symbols, start + i)];
    }
    forall i, j | 0 <= i < j < count ensures selected[i] != selected[j] {
      WrapsOnce(start + i, |symbols|);
      WrapsOnce(start + j, |symbols|);
    }
  }
}
