/**
 * The TON history backfill for one wallet. The indexer serves actions newest first by
 * page offset, so every new action shifts all offsets by one. Actions are numbered by
 * age: action `i` is the i-th that ever happened, and `n` of them exist at a request.
 */
module TonBackfill {
  import opened Prelude
  import TonGroups

  const PAGE_LIMIT := 1000
  const NEWEST_PAGES := 2
  const TAIL_PAGES := 18

  function PageHi(n: nat, page: nat): nat {
    Max(0, n - page * PAGE_LIMIT)
  }

  function PageLo(n: nat, page: nat): nat {
    Max(0, n - (page + 1) * PAGE_LIMIT)
  }

  predicate InPage(i: nat, n: nat, page: nat) {
    PageLo(n, page) <= i < PageHi(n, page)
  }

  predicate Distinct(rows: seq<nat>) {
    forall j, k :: 0 <= j < k < |rows| ==> rows[j] != rows[k]
  }

  /** The actions on a page, newest first. */
  function PageRows(n: nat, page: nat): (rows: seq<nat>)
    ensures |rows| == PageHi(n, page) - PageLo(n, page) <= PAGE_LIMIT
    ensures forall i: nat :: i in rows <==> InPage(i, n, page)
    ensures Distinct(rows)
  {
    var rows := seq(PageHi(n, page) - PageLo(n, page),
                    k requires 0 <= k < PageHi(n, page) - PageLo(n, page) => PageHi(n, page) - 1 - k);
    assert forall i: nat :: InPage(i, n, page) ==> rows[PageHi(n, page) - 1 - i] == i;
    rows
  }

  /** Request `k` of a window sees `counts[k]` actions and reads page `startPage + k`. */
  predicate InWindow(i: nat, counts: seq<nat>, startPage: nat) {
    exists k :: 0 <= k < |counts| && InPage(i, counts[k], startPage + k)
  }

  /** Actions only arrive. */
  predicate Drifts(counts: seq<nat>) {
    forall k :: 0 <= k < |counts| - 1 ==> counts[k] <= counts[k + 1]
  }

  /** However the offsets drift, consecutive pages leave no gap. */
  lemma {:induction false} WindowHasNoGap(counts: seq<nat>, startPage: nat, i: nat)
    requires Drifts(counts) && counts != []
    requires PageLo(counts[|counts| - 1], startPage + |counts| - 1) <= i < PageHi(counts[0], startPage)
    ensures InWindow(i, counts, startPage)
  {
    var last := |counts| - 1;
    if InPage(i, counts[last], startPage + last) {
    } else {
      assert last > 0;
      WindowHasNoGap(counts[..last], startPage, i);
      var k :| 0 <= k < last && InPage(i, counts[..last][k], startPage + k);
      assert InPage(i, counts[k], startPage + k);
    }
  }

  /** Each page of the window is a whole one. */
  predicate AllFull(counts: seq<nat>, startPage: nat) {
    forall k :: 0 <= k < |counts| ==> counts[k] >= (startPage + k + 1) * PAGE_LIMIT
  }

  /** Pages [startPage, startPage + |counts|), stopping early on a short page or an error. */
  method FetchActionWindow(counts: seq<nat>, startPage: nat, failAt: Option<nat>)
    returns (all: seq<nat>, truncated: bool, failed: bool, ghost used: nat)
    requires Drifts(counts)
    ensures used <= |counts| && !(truncated && failed)
    ensures forall i: nat :: i in all <==> InWindow(i, counts[..used], startPage)
    ensures failed ==> failAt == Some(used)
    ensures truncated ==> used == |counts| && |all| == |counts| * PAGE_LIMIT
    ensures truncated ==> AllFull(counts, startPage)
    ensures !truncated && !failed ==> 0 < used && counts[used - 1] < (startPage + used) * PAGE_LIMIT
    ensures failed ==> used < |counts|
    ensures used <= 1 ==> Distinct(all)
  {
    all, truncated, failed, used := [], false, false, 0;
    for k := 0 to |counts|
      invariant used == k && |all| == k * PAGE_LIMIT
      invariant forall i: nat :: i in all <==> InWindow(i, counts[..k], startPage)
      invariant k <= 1 ==> Distinct(all)
      invariant forall j :: 0 <= j < k ==> counts[j] >= (startPage + j + 1) * PAGE_LIMIT
    {
      if failAt == Some(k) {
        failed := true;
        return;
      }
      var page := PageRows(counts[k], startPage + k);
      WindowGrows(counts, startPage, k);
      used := k + 1;
      if |page| == 0 { return; }
      all := all + page;
      if |page| < PAGE_LIMIT { return; }
    }
    assert counts[..|counts|] == counts;
    truncated := true;
  }

  lemma {:induction false} WindowGrows(counts: seq<nat>, startPage: nat, k: nat)
    requires k < |counts|
    ensures forall i: nat :: InWindow(i, counts[..k + 1], startPage) <==>
              InWindow(i, counts[..k], startPage) || InPage(i, counts[k], startPage + k)
  {
    hide InPage;
    var was, now := counts[..k], counts[..k + 1];
    assert forall j :: 0 <= j < k ==> now[j] == was[j];
    forall i: nat ensures InWindow(i, now, startPage) <==> InWindow(i, was, startPage) || InPage(i, now[k], startPage + k) {
      if InWindow(i, was, startPage) {
        var j :| 0 <= j < k && InPage(i, was[j], startPage + j);
        assert InPage(i, now[j], startPage + j);
      }
      if InWindow(i, now, startPage) {
        var j :| 0 <= j <= k && InPage(i, now[j], startPage + j);
        assert j < k ==> InPage(i, was[j], startPage + j);
      }
    }
  }

  /** A window that ended on a short page read everything older than its first page. */
  lemma {:induction false} ShortPageReachesTheOldest(counts: seq<nat>, startPage: nat, used: nat, i: nat)
    requires Drifts(counts) && 0 < used <= |counts|
    requires counts[used - 1] < (startPage + used) * PAGE_LIMIT
    requires i < PageHi(counts[0], startPage)
    ensures InWindow(i, counts[..used], startPage)
  {
    var read := counts[..used];
    assert Drifts(read) && read[used - 1] == counts[used - 1];
    WindowHasNoGap(read, startPage, i);
  }

  // ------------------------------------------------------------ the tail offset

  function StartPage(tail: nat): nat {
    Max(tail / PAGE_LIMIT, NEWEST_PAGES)
  }

  predicate AllStored(stored: set<nat>, from: int, to: int) {
    forall i: nat :: from <= i < to ==> i in stored
  }

  /**
   * No later run can miss what existed when the last committed run began. An offset of at most two
   * pages makes the tail follow the newest window directly; behind any other, everything from the
   * tail's start on is stored.
   */
  predicate TailIsSafe(tail: nat, stored: set<nat>, committed: nat, seen: nat) {
    tail % PAGE_LIMIT == 0 && (tail > NEWEST_PAGES * PAGE_LIMIT ==> AllStored(stored, seen - tail, committed))
  }

  /**
   * What neither window of a run reads was stored before: the newest window reaches down to the
   * count of the last committed run because at most 2000 actions arrived since, and the tail starts
   * where everything above is stored.
   */
  lemma {:induction false} MiddleIsStored(stored: set<nat>, committed: nat, seen: nat, tail: nat,
                                          second: nat, tailFirst: nat, i: nat)
    requires TailIsSafe(tail, stored, committed, seen)
    requires seen <= second <= tailFirst && second <= committed + NEWEST_PAGES * PAGE_LIMIT
    requires PageHi(tailFirst, StartPage(tail)) <= i < PageLo(second, NEWEST_PAGES - 1)
    ensures i in stored
  {
  }

  /** Appends what was not seen yet, in order. */
  method MergeUnique(newest: seq<nat>, tail: seq<nat>) returns (merged: seq<nat>)
    ensures forall i :: i in merged <==> i in newest || i in tail
    ensures Distinct(merged)
  {
    merged := [];
    var seen := {};
    for k := 0 to |newest|
      invariant forall i :: i in seen <==> i in newest[..k]
      invariant forall i :: i in merged <==> i in seen
      invariant Distinct(merged)
    {
      assert newest[..k + 1] == newest[..k] + [newest[k]];
      if newest[k] !in seen {
        seen, merged := seen + {newest[k]}, merged + [newest[k]];
      }
    }
    assert newest[..|newest|] == newest;
    for k := 0 to |tail|
      invariant forall i :: i in seen <==> i in newest || i in tail[..k]
      invariant forall i :: i in merged <==> i in seen
      invariant Distinct(merged)
    {
      assert tail[..k + 1] == tail[..k] + [tail[k]];
      if tail[k] !in seen {
        seen, merged := seen + {tail[k]}, merged + [tail[k]];
      }
    }
    assert tail[..|tail|] == tail;
  }

  /** What a successful run has covered once its rows are stored. */
  lemma {:induction false} RunCovers(stored: set<nat>, committed: nat, seen: nat, tail: nat,
                                     newest: seq<nat>, tailCounts: seq<nat>, used: nat, truncated: bool, i: nat)
    requires TailIsSafe(tail, stored, committed, seen)
    requires |newest| == NEWEST_PAGES && Drifts(newest) && Drifts(tailCounts) && 0 < used <= |tailCounts|
    requires seen <= newest[0] && newest[1] <= tailCounts[0] && newest[1] <= committed + NEWEST_PAGES * PAGE_LIMIT
    requires if truncated then used == |tailCounts| else tailCounts[used - 1] < (StartPage(tail) + used) * PAGE_LIMIT
    requires i < newest[0]
    requires truncated ==> PageLo(tailCounts[used - 1], StartPage(tail) + used - 1) <= i
    ensures InWindow(i, newest, 0) || InWindow(i, tailCounts[..used], StartPage(tail)) || i in stored
  {
    if PageLo(newest[1], 1) <= i {
      WindowHasNoGap(newest, 0, i);
    } else if PageHi(tailCounts[0], StartPage(tail)) <= i {
      MiddleIsStored(stored, committed, seen, tail, newest[1], tailCounts[0], i);
    } else if !truncated {
      ShortPageReachesTheOldest(tailCounts, StartPage(tail), used, i);
    } else {
      assert tailCounts[..used] == tailCounts;
      WindowHasNoGap(tailCounts, StartPage(tail), i);
    }
  }

  /** So the merged windows hold all that is not stored, from the lowest action of a truncated tail on. */
  lemma {:induction false} MergedCovers(stored: set<nat>, committed: nat, seen: nat, tail: nat,
                                        newest: seq<nat>, tailCounts: seq<nat>, used: nat, truncated: bool, merged: seq<nat>)
    requires TailIsSafe(tail, stored, committed, seen)
    requires |newest| == NEWEST_PAGES && Drifts(newest) && Drifts(tailCounts) && 0 < used <= |tailCounts|
    requires seen <= newest[0] && newest[1] <= tailCounts[0] && newest[1] <= committed + NEWEST_PAGES * PAGE_LIMIT
    requires if truncated then used == |tailCounts| else tailCounts[used - 1] < (StartPage(tail) + used) * PAGE_LIMIT
    requires forall i: nat :: i in merged <==> InWindow(i, newest, 0) || InWindow(i, tailCounts[..used], StartPage(tail))
    ensures var bottom := if truncated then PageLo(tailCounts[used - 1], StartPage(tail) + used - 1) else 0;
            forall i: nat :: bottom <= i < newest[0] ==> i in merged || i in stored
  {
    hide InWindow, TailIsSafe, Drifts, PageLo, StartPage;
    var bottom := if truncated then PageLo(tailCounts[used - 1], StartPage(tail) + used - 1) else 0;
    forall i: nat | bottom <= i < newest[0] ensures i in merged || i in stored {
      RunCovers(stored, committed, seen, tail, newest, tailCounts, used, truncated, i);
    }
  }

  /** The actions that a run reads when it finds tail offset `tail`. */
  predicate InRun(i: nat, counts: seq<nat>, tail: nat)
    requires |counts| >= NEWEST_PAGES
  {
    InWindow(i, counts[..NEWEST_PAGES], 0) || InWindow(i, counts[NEWEST_PAGES..], StartPage(tail))
  }

  /** The offset that it stages: all pages of both windows were whole, or there is nothing left to read. */
  function NextTail(counts: seq<nat>, tail: nat): nat
    requires |counts| >= NEWEST_PAGES
  {
    if AllFull(counts[..NEWEST_PAGES], 0) && AllFull(counts[NEWEST_PAGES..], StartPage(tail))
    then (StartPage(tail) + TAIL_PAGES - 1) * PAGE_LIMIT else 0
  }

  lemma {:induction false} SplitCounts(counts: seq<nat>)
    requires |counts| == NEWEST_PAGES + TAIL_PAGES && Drifts(counts)
    ensures Drifts(counts[..NEWEST_PAGES]) && Drifts(counts[NEWEST_PAGES..])
    ensures counts[NEWEST_PAGES..][TAIL_PAGES - 1] == counts[|counts| - 1]
    ensures counts[0] <= counts[1] <= counts[NEWEST_PAGES] <= counts[|counts| - 1]
    ensures forall k :: 0 <= k < |counts| ==> counts[0] <= counts[k] <= counts[|counts| - 1]
  {
    CountsGrow(counts);
  }

  /** What prefixes of the two windows read belongs to the run. */
  lemma {:induction false} WithinRun(counts: seq<nat>, usedNewest: nat, usedTail: nat, tail: nat)
    requires |counts| == NEWEST_PAGES + TAIL_PAGES && usedNewest <= NEWEST_PAGES && usedTail <= TAIL_PAGES
    ensures forall i: nat :: InWindow(i, counts[..NEWEST_PAGES][..usedNewest], 0) ==> InRun(i, counts, tail)
    ensures forall i: nat :: InWindow(i, counts[NEWEST_PAGES..][..usedTail], StartPage(tail)) ==> InRun(i, counts, tail)
  {
  }

  lemma {:induction false} WholeRun(counts: seq<nat>, tail: nat)
    requires |counts| == NEWEST_PAGES + TAIL_PAGES
    ensures forall i: nat :: InRun(i, counts, tail) ==>
              InWindow(i, counts[..NEWEST_PAGES], 0) || InWindow(i, counts[NEWEST_PAGES..][..TAIL_PAGES], StartPage(tail))
  {
    assert counts[NEWEST_PAGES..][..TAIL_PAGES] == counts[NEWEST_PAGES..];
  }

  /** The next tail of a truncated run starts at the top of its last page, which so is read again whole. */
  lemma {:induction false} TruncatedTailRewinds(counts: seq<nat>, tail: nat)
    requires |counts| == NEWEST_PAGES + TAIL_PAGES
    requires AllFull(counts[..NEWEST_PAGES], 0) && AllFull(counts[NEWEST_PAGES..], StartPage(tail))
    ensures var seen, next, last := counts[|counts| - 1], NextTail(counts, tail), StartPage(tail) + TAIL_PAGES - 1;
            && next == last * PAGE_LIMIT > NEWEST_PAGES * PAGE_LIMIT && next <= seen && next % PAGE_LIMIT == 0
            && seen - next == PageHi(seen, last) == PageLo(seen, last) + PAGE_LIMIT
  {
    assert counts[NEWEST_PAGES..][TAIL_PAGES - 1] == counts[|counts| - 1];
  }

  /** The lowest action that a truncated run reads existed at the last committed run. */
  lemma {:induction false} TailReachesBelow(seen: nat, committed: nat, tail: nat)
    requires seen <= committed + (NEWEST_PAGES + TAIL_PAGES) * PAGE_LIMIT
    ensures PageLo(seen, StartPage(tail) + TAIL_PAGES - 1) <= committed
  {
  }

  lemma {:induction false} ShortTailEndsTheBackfill(counts: seq<nat>, tail: nat, used: nat)
    requires |counts| == NEWEST_PAGES + TAIL_PAGES && 0 < used <= TAIL_PAGES
    requires counts[NEWEST_PAGES..][used - 1] < (StartPage(tail) + used) * PAGE_LIMIT
    ensures NextTail(counts, tail) == 0
  {
  }

  lemma {:induction false} ShortHistoryEndsTheBackfill(counts: seq<nat>, used: nat, tail: nat)
    requires |counts| == NEWEST_PAGES + TAIL_PAGES && Drifts(counts) && 0 < used <= NEWEST_PAGES
    requires counts[used - 1] < used * PAGE_LIMIT
    ensures forall i: nat :: i < counts[0] ==> InWindow(i, counts[..NEWEST_PAGES][..used], 0)
    ensures NextTail(counts, tail) == 0
  {
    SplitCounts(counts);
    forall i: nat | i < counts[0] ensures InWindow(i, counts[..NEWEST_PAGES][..used], 0) {
      ShortPageReachesTheOldest(counts[..NEWEST_PAGES], 0, used, i);
    }
    assert counts[..NEWEST_PAGES][used - 1] == counts[used - 1];
  }

  lemma {:induction false} CountsGrow(counts: seq<nat>)
    requires Drifts(counts)
    ensures forall j, k :: 0 <= j <= k < |counts| ==> counts[j] <= counts[k]
  {
    forall j, k | 0 <= j <= k < |counts| ensures counts[j] <= counts[k] {
      CountsGrowTo(counts, j, k);
    }
  }

  lemma {:induction false} CountsGrowTo(counts: seq<nat>, j: nat, k: nat)
    requires Drifts(counts) && j <= k < |counts|
    ensures counts[j] <= counts[k]
  {
    if j < k { CountsGrowTo(counts, j, k - 1); }
  }

  // ------------------------------------------------------------ the safe offsets are the right ones

  /** A run during which nothing arrives. */
  function Still(n: nat): (counts: seq<nat>)
    ensures |counts| == NEWEST_PAGES + TAIL_PAGES && forall k :: 0 <= k < |counts| ==> counts[k] == n
  {
    seq(NEWEST_PAGES + TAIL_PAGES, k => n)
  }

  /** Consecutive committed runs on n actions, by the offsets they start from: the last one reports no truncation. */
  ghost predicate Completes(n: nat, tail: nat, tails: seq<nat>) {
    && tails != [] && tails[0] == tail
    && (forall j :: 0 <= j < |tails| - 1 ==> tails[j + 1] == NextTail(Still(n), tails[j]) > 0)
    && NextTail(Still(n), tails[|tails| - 1]) == 0
  }

  ghost predicate ReadBySome(i: nat, n: nat, tails: seq<nat>) {
    exists j :: 0 <= j < |tails| && InRun(i, Still(n), tails[j])
  }

  /** However the backfill continues from an offset, it reports completion with nothing missing. */
  ghost predicate NeverMisses(tail: nat, stored: set<nat>, committed: nat, seen: nat) {
    forall n: nat, tails, i: nat :: seen <= n <= committed + NEWEST_PAGES * PAGE_LIMIT && Completes(n, tail, tails) && i < n ==>
      i in stored || ReadBySome(i, n, tails)
  }

  /** Without arrivals only the last page can tell that there is more. */
  lemma {:induction false} StillTail(n: nat, tail: nat)
    ensures NextTail(Still(n), tail) ==
              if n < (StartPage(tail) + TAIL_PAGES) * PAGE_LIMIT then 0 else (StartPage(tail) + TAIL_PAGES - 1) * PAGE_LIMIT
  {
    if n < (StartPage(tail) + TAIL_PAGES) * PAGE_LIMIT {
      assert Still(n)[NEWEST_PAGES..][TAIL_PAGES - 1] == n;
    }
  }

  lemma {:induction false} StillReads(i: nat, n: nat, tail: nat)
    ensures InRun(i, Still(n), tail) <==> i < n && (n - NEWEST_PAGES * PAGE_LIMIT <= i
                                                   || n - (StartPage(tail) + TAIL_PAGES) * PAGE_LIMIT <= i < n - StartPage(tail) * PAGE_LIMIT)
  {
    var counts := Still(n);
    assert Drifts(counts[..NEWEST_PAGES]) && Drifts(counts[NEWEST_PAGES..]);
    if i < n && n - NEWEST_PAGES * PAGE_LIMIT <= i {
      WindowHasNoGap(counts[..NEWEST_PAGES], 0, i);
    }
    if n - (StartPage(tail) + TAIL_PAGES) * PAGE_LIMIT <= i < n - StartPage(tail) * PAGE_LIMIT {
      WindowHasNoGap(counts[NEWEST_PAGES..], StartPage(tail), i);
    }
  }

  /** No run starts above the first one. */
  predicate ReadOn(tail: nat, tails: seq<nat>) {
    forall j :: 0 <= j < |tails| ==> tail <= tails[j] && tails[j] % PAGE_LIMIT == 0
  }

  /** Some number of still runs always completes. */
  lemma {:induction false} StillRunsComplete(n: nat, tail: nat)
    requires tail % PAGE_LIMIT == 0
    ensures exists tails :: Completes(n, tail, tails) && ReadOn(tail, tails)
    decreases if n > tail then n - tail else 0
  {
    var next := NextTail(Still(n), tail);
    StillTail(n, tail);
    if next == 0 {
      assert Completes(n, tail, [tail]) && ReadOn(tail, [tail]);
    } else {
      StillRunsComplete(n, next);
      var rest :| Completes(n, next, rest) && ReadOn(next, rest);
      assert Completes(n, tail, [tail] + rest) && ReadOn(tail, [tail] + rest);
    }
  }

  /** An action missing behind the offset is still missing when later runs report completion. */
  lemma {:induction false} UnsafeTailMisses(tail: nat, committed: nat, seen: nat, i: nat)
    requires tail % PAGE_LIMIT == 0 && tail > NEWEST_PAGES * PAGE_LIMIT
    requires seen <= committed + NEWEST_PAGES * PAGE_LIMIT && seen - tail <= i < committed
    ensures exists n: nat, tails :: seen <= n <= committed + NEWEST_PAGES * PAGE_LIMIT && i < n
                                    && Completes(n, tail, tails) && !ReadBySome(i, n, tails)
  {
    var n := Max(seen, i + NEWEST_PAGES * PAGE_LIMIT + 1);
    StillRunsComplete(n, tail);
    var tails :| Completes(n, tail, tails) && ReadOn(tail, tails);
    forall j | 0 <= j < |tails| ensures !InRun(i, Still(n), tails[j]) {
      StillReads(i, n, tails[j]);
    }
  }

  /** Consecutive tail windows overlap by a page, so together they read everything below the first. */
  lemma {:induction false} TailsReadDown(n: nat, tails: seq<nat>, j: nat, i: nat)
    requires tails != [] && j < |tails| && Completes(n, tails[0], tails)
    requires i < n - StartPage(tails[j]) * PAGE_LIMIT
    ensures ReadBySome(i, n, tails)
    decreases |tails| - j
  {
    StillReads(i, n, tails[j]);
    StillTail(n, tails[j]);
    if !(n - (StartPage(tails[j]) + TAIL_PAGES) * PAGE_LIMIT <= i) {
      TailsReadDown(n, tails, j + 1, i);
    }
  }

  /** Exactly the safe offsets never miss an action. */
  lemma {:induction false} SafeTailsNeverMiss(tail: nat, stored: set<nat>, committed: nat, seen: nat)
    requires tail % PAGE_LIMIT == 0 && seen <= committed + NEWEST_PAGES * PAGE_LIMIT
    ensures TailIsSafe(tail, stored, committed, seen) <==> NeverMisses(tail, stored, committed, seen)
  {
    hide InRun, Completes;
    if TailIsSafe(tail, stored, committed, seen) {
      forall n: nat, tails, i: nat | seen <= n <= committed + NEWEST_PAGES * PAGE_LIMIT && Completes(n, tail, tails) && i < n
        ensures i in stored || ReadBySome(i, n, tails)
      {
        FirstTail(n, tail, tails);
        StillReads(i, n, tails[0]);
        if i < n - StartPage(tail) * PAGE_LIMIT {
          TailsReadDown(n, tails, 0, i);
        }
      }
    } else {
      var i: nat :| seen - tail <= i < committed && i !in stored;
      UnsafeTailMisses(tail, committed, seen, i);
    }
  }

  lemma {:induction false} FirstTail(n: nat, tail: nat, tails: seq<nat>)
    requires Completes(n, tail, tails)
    ensures tails != [] && tails[0] == tail
  {
  }

  // ------------------------------------------------------------ the client

  function Named(rows: seq<nat>, actions: seq<TonGroups.Action>): (r: seq<TonGroups.Action>)
    requires forall k :: 0 <= k < |rows| ==> rows[k] < |actions|
    ensures |r| == |rows| && forall k :: 0 <= k < |r| ==> r[k] == actions[rows[k]]
  {
    seq(|rows|, k requires 0 <= k < |rows| => actions[rows[k]])
  }

  predicate ByAge(actions: seq<TonGroups.Action>) {
    forall k :: 0 <= k < |actions| ==> actions[k].id == k
  }

  /** The rows that a run hands to storage: none when classifying fails, and without the edge cluster of a cut history. */
  predicate IsSaved(i: nat, merged: seq<nat>, actions: seq<TonGroups.Action>, cut: bool, classifyOk: bool)
    requires i < |actions| && forall k :: 0 <= k < |merged| ==> merged[k] < |actions|
  {
    classifyOk && (cut ==> actions[i] !in TonGroups.Boundary(Named(merged, actions)))
  }

  method KeepRows(merged: seq<nat>, actions: seq<TonGroups.Action>, cut: bool, classifyOk: bool) returns (rows: set<nat>)
    requires ByAge(actions) && (cut ==> Distinct(merged))
    requires forall k :: 0 <= k < |merged| ==> merged[k] < |actions|
    ensures rows == set i | i in merged && IsSaved(i, merged, actions, cut, classifyOk)
  {
    if !classifyOk {
      return {};
    }
    var named := Named(merged, actions);
    assert forall k :: 0 <= k < |merged| ==> named[k] in named && named[k].id == merged[k];
    assert forall a :: a in named ==> a.id in merged && a == actions[a.id];
    if cut && merged != [] {
      assert TonGroups.DistinctIds(named);
      named := TonGroups.DropBoundary(named);
    }
    rows := TonGroups.IdsOf(named);
  }

  /** What a run leaves unstored from a point on that it read from. */
  lemma {:induction false} WhatIsMissing(was: set<nat>, merged: seq<nat>, saved: set<nat>, bottom: nat, from: int, to: nat)
    requires forall i: nat :: bottom <= i < to ==> i in merged || i in was
    requires bottom <= from || bottom == 0
    ensures AllStored(was + saved, from, to) <==> forall i | i in merged && from <= i < to :: i in saved || i in was
  {
    var now := was + saved;
    if AllStored(now, from, to) {
      forall i | i in merged && from <= i < to ensures i in saved || i in was {
        assert i in now;
      }
    }
  }

  /** A run that kept all it read has everything, from wherever one looks. */
  lemma {:induction false} NothingIsMissing(was: set<nat>, merged: seq<nat>, saved: set<nat>, to: nat)
    requires forall i: nat :: i < to ==> i in merged || i in was
    requires forall i :: i in merged ==> i in saved
    ensures forall from: int :: AllStored(was + saved, from, to)
  {
  }

  lemma {:induction false} OlderTailStaysSafe(tail: nat, stored: set<nat>, committed: nat, seen: nat, next: nat)
    requires TailIsSafe(tail, stored, committed, seen)
    ensures AllStored(stored, committed, next) ==> TailIsSafe(tail, stored, next, seen)
  {
  }

  lemma {:induction false} ReadExisted(counts: seq<nat>, merged: seq<nat>, tail: nat)
    requires |counts| == NEWEST_PAGES + TAIL_PAGES && Drifts(counts)
    requires forall i: nat :: i in merged ==> InRun(i, counts, tail)
    ensures forall k :: 0 <= k < |merged| ==> merged[k] < counts[|counts| - 1]
  {
    CountsGrow(counts);
    forall k | 0 <= k < |merged| ensures merged[k] < counts[|counts| - 1] {
      assert InRun(merged[k], counts, tail);
    }
  }

  class Backfill {
    var tailOffset: Option<nat>
    var tailCommitted: bool
    /** The cursor row; 0 when it is absent. */
    var durable: nat
    var stored: set<nat>
    /** The count at the first request of the last committed run, and the latest count. */
    ghost var committed: nat
    ghost var seen: nat
    /** What the staged run read: its lowest action, the start of the tail it stages, its first count, its rows. */
    ghost var stagedBottom: nat
    ghost var stagedTop: nat
    ghost var stagedCount: nat
    ghost var stagedRows: seq<nat>

    ghost predicate Valid()
      reads this
    {
      && committed <= seen
      && TailIsSafe(durable, stored, committed, seen)
      && (tailOffset.Some? && tailCommitted ==> TailIsSafe(tailOffset.value, stored, committed, seen))
      && (tailOffset.Some? && !tailCommitted ==> Staged(tailOffset.value))
    }

    ghost predicate Staged(tail: nat)
      reads this
    {
      && committed <= stagedCount <= seen && stagedBottom <= committed && stagedBottom <= stagedTop
      && tail % PAGE_LIMIT == 0 && (tail == 0 || (tail > NEWEST_PAGES * PAGE_LIMIT && stagedTop <= seen - tail))
      && forall i: nat :: stagedBottom <= i < stagedCount ==> i in stagedRows || i in stored
    }

    constructor (ghost existing: nat)
      ensures Valid() && stored == {} && durable == 0 && tailOffset == None && committed == seen == existing
    {
      tailOffset, tailCommitted, durable, stored := None, false, 0, {};
      committed, seen := existing, existing;
      stagedBottom, stagedTop, stagedCount, stagedRows := 0, 0, 0, [];
    }

    /** The offset that the next run starts from. */
    function TailSeen(readOk: bool): nat
      reads this
    {
      if tailOffset.Some? && tailCommitted then tailOffset.value else if readOk then durable else 0
    }

    /** Uncommitted progress is dropped; an unreadable or corrupt row restarts the backfill. */
    method TailCursor(readOk: bool) returns (offset: nat)
      requires Valid()
      modifies this`tailOffset, this`tailCommitted
      ensures Valid() && tailOffset == Some(offset) && tailCommitted
      ensures offset == old(TailSeen(readOk))
    {
      if tailOffset.Some? && tailCommitted { return tailOffset.value; }
      offset := if readOk then durable else 0;
      tailOffset, tailCommitted := Some(offset), true;
    }

    method SetTailCursor(offset: nat, ghost bottom: nat, ghost top: nat, ghost count: nat, ghost rows: seq<nat>)
      modifies this`tailOffset, this`tailCommitted, this`stagedBottom, this`stagedTop, this`stagedCount, this`stagedRows
      ensures tailOffset == Some(offset) && !tailCommitted
      ensures stagedBottom == bottom && stagedTop == top && stagedCount == count && stagedRows == rows
    {
      tailOffset, tailCommitted := Some(offset), false;
      stagedBottom, stagedTop, stagedCount, stagedRows := bottom, top, count, rows;
    }

    /**
     * The actions of one run. `counts[k]` actions exist at its k-th request. When it reports neither
     * truncation nor an error, every action that existed at its start was fetched by it or is stored
     * already; a truncated run stages the top of its last page as the next tail.
     */
    method WalletActionHistory(counts: seq<nat>, readOk: bool, failAt: Option<nat>)
      returns (merged: seq<nat>, truncated: bool, failed: bool)
      requires Valid()
      requires |counts| == NEWEST_PAGES + TAIL_PAGES && Drifts(counts) && seen <= counts[0]
      requires counts[1] <= committed + NEWEST_PAGES * PAGE_LIMIT
      requires counts[|counts| - 1] <= committed + (NEWEST_PAGES + TAIL_PAGES) * PAGE_LIMIT
      modifies `tailOffset, `tailCommitted, `seen, `stagedBottom, `stagedTop, `stagedCount, `stagedRows
      ensures Valid() && seen == counts[|counts| - 1]
      ensures !truncated && !failed ==> forall i: nat :: i < counts[0] ==> i in merged || i in stored
      ensures !failed ==> tailOffset.Some? && !tailCommitted && stagedRows == merged && stagedCount == counts[0]
      ensures !failed ==> tailOffset.value == NextTail(counts, old(TailSeen(readOk)))
      ensures !failed ==> (truncated <==> tailOffset.value > 0)
      ensures !failed && truncated ==> stagedTop == seen - tailOffset.value
      ensures !failed && !truncated ==> stagedBottom == 0
      ensures forall i: nat :: i in merged ==> InRun(i, counts, old(TailSeen(readOk)))
      ensures !failed && truncated ==> forall i: nat :: InRun(i, counts, old(TailSeen(readOk))) ==> i in merged
      ensures failAt.None? ==> !failed
      ensures truncated || failed ==> Distinct(merged)
      ensures failed ==> (tailOffset == old(tailOffset) && tailCommitted == old(tailCommitted)) || tailCommitted
    {
      assert TailIsSafe(TailSeen(readOk), stored, committed, seen);
      hide InWindow, InPage, InRun, Drifts, AllStored, PageLo, PageHi, TailIsSafe, StartPage, NextTail, AllFull, Distinct;
      ghost var before, tailAt := seen, TailSeen(readOk);
      ghost var head := counts[..NEWEST_PAGES];
      SplitCounts(counts);
      seen := counts[|counts| - 1];
      var newest, newestTruncated, newestFailed; ghost var used;
      newest, newestTruncated, newestFailed, used := FetchActionWindow(counts[..NEWEST_PAGES], 0, failAt);
      WithinRun(counts, used, 0, tailAt);
      if newestFailed { return newest, false, true; }
      if !newestTruncated {
        ShortHistoryEndsTheBackfill(counts, used, tailAt);
        SetTailCursor(0, 0, 0, counts[0], newest);
        return newest, false, false;
      }
      assert head[..used] == head;
      merged, truncated, failed := TailHistory(counts, newest, readOk, failAt, before);
    }

    /** The second half of a run whose newest window was full. */
    method TailHistory(counts: seq<nat>, newest: seq<nat>, readOk: bool, failAt: Option<nat>, ghost before: nat)
      returns (merged: seq<nat>, truncated: bool, failed: bool)
      requires Valid() && TailIsSafe(TailSeen(readOk), stored, committed, before)
      requires |counts| == NEWEST_PAGES + TAIL_PAGES && Drifts(counts) && before <= counts[0] && seen == counts[|counts| - 1]
      requires committed <= counts[0] && counts[1] <= committed + NEWEST_PAGES * PAGE_LIMIT
      requires seen <= committed + (NEWEST_PAGES + TAIL_PAGES) * PAGE_LIMIT && AllFull(counts[..NEWEST_PAGES], 0)
      requires forall i: nat :: i in newest <==> InWindow(i, counts[..NEWEST_PAGES], 0)
      modifies `tailOffset, `tailCommitted, `stagedBottom, `stagedTop, `stagedCount, `stagedRows
      ensures Valid()
      ensures !truncated && !failed ==> forall i: nat :: i < counts[0] ==> i in merged || i in stored
      ensures !failed ==> tailOffset.Some? && !tailCommitted && stagedRows == merged && stagedCount == counts[0]
      ensures !failed ==> tailOffset.value == NextTail(counts, old(TailSeen(readOk)))
      ensures !failed ==> (truncated <==> tailOffset.value > 0)
      ensures !failed && truncated ==> stagedTop == seen - tailOffset.value
      ensures !failed && !truncated ==> stagedBottom == 0
      ensures forall i: nat :: i in merged ==> InRun(i, counts, old(TailSeen(readOk)))
      ensures !failed && truncated ==> forall i: nat :: InRun(i, counts, old(TailSeen(readOk))) ==> i in merged
      ensures failAt.None? ==> !failed
      ensures Distinct(merged)
      ensures failed ==> tailCommitted
    {
      hide InWindow, InPage, InRun, Drifts, AllStored, PageLo, PageHi, TailIsSafe, StartPage, NextTail, AllFull, Distinct;
      ghost var tailAt := TailSeen(readOk);
      ghost var head, rest := counts[..NEWEST_PAGES], counts[NEWEST_PAGES..];
      SplitCounts(counts);
      var offset := TailCursor(readOk);
      var startPage := StartPage(offset);
      var tail; ghost var used;
      var tailFail := if failAt.Some? && failAt.value >= NEWEST_PAGES then Some(failAt.value - NEWEST_PAGES) else None;
      tail, truncated, failed, used := FetchActionWindow(counts[NEWEST_PAGES..], startPage, tailFail);
      assert head[..NEWEST_PAGES] == head;
      WithinRun(counts, NEWEST_PAGES, used, tailAt);
      WholeRun(counts, tailAt);
      merged := MergeUnique(newest, tail);
      if failed { return merged, true, true; }
      MergedCovers(stored, committed, before, tailAt, head, rest, used, truncated, merged);
      if truncated {
        TruncatedTailRewinds(counts, tailAt);
        TailReachesBelow(seen, committed, tailAt);
        var next := startPage * PAGE_LIMIT + |tail| - PAGE_LIMIT;
        SetTailCursor(next, PageLo(seen, startPage + TAIL_PAGES - 1), seen - next, counts[0], merged);
      } else {
        ShortTailEndsTheBackfill(counts, tailAt, used);
        SetTailCursor(0, 0, 0, counts[0], merged);
      }
    }

    /**
     * Publishes staged progress. Later runs can rely on it exactly when the published offset is zero, or
     * everything from the start of the tail it names up to this run's first count is stored; the client
     * itself does not check that.
     */
    method SnapshotCommitted(setOk: bool)
      requires Valid()
      modifies `tailCommitted, `durable, `committed
      ensures old(tailOffset.None? || tailCommitted) ==> Valid() && committed == old(committed)
      ensures old(tailOffset.Some? && !tailCommitted) ==> committed == stagedCount
      ensures old(tailOffset.Some? && !tailCommitted) && setOk ==>
                (Valid() <==> tailOffset.value == 0 || AllStored(stored, seen - tailOffset.value, stagedCount))
      ensures old(tailOffset.Some? && !tailCommitted) && !setOk ==>
                (Valid() <==> (tailOffset.value == 0 || AllStored(stored, seen - tailOffset.value, stagedCount))
                              && (durable <= NEWEST_PAGES * PAGE_LIMIT || AllStored(stored, seen - durable, stagedCount)))
      ensures tailOffset.Some? ==> tailCommitted && (durable == if setOk then tailOffset.value else old(durable))
    {
      hide AllStored;
      if tailOffset.None? { return; }
      if !tailCommitted { committed := stagedCount; }
      tailCommitted := true;
      if setOk { durable := tailOffset.value; }
    }

    /** Rows that reach storage disturb nothing. */
    method StoreRows(rows: set<nat>)
      requires Valid()
      modifies this`stored
      ensures Valid() && stored == old(stored) + rows
    {
      stored := stored + rows;
    }

    /**
     * One run of the wallet, in the client's order: the committed offset is looked up, the history is fetched,
     * the cluster at the edge of a cut history is dropped, the rest is classified, and only when the engine has
     * saved the rows is the staged offset published. `actions` describes the actions by age.
     */
    method Sync(counts: seq<nat>, actions: seq<TonGroups.Action>, readOk: bool, failAt: Option<nat>,
                classifyOk: bool, saveOk: bool, setOk: bool)
      returns (truncated: bool, failed: bool, ghost merged: seq<nat>)
      requires Valid()
      requires |counts| == NEWEST_PAGES + TAIL_PAGES && Drifts(counts) && seen <= counts[0]
      requires counts[1] <= committed + NEWEST_PAGES * PAGE_LIMIT
      requires counts[|counts| - 1] <= committed + (NEWEST_PAGES + TAIL_PAGES) * PAGE_LIMIT
      requires |actions| >= counts[|counts| - 1] && ByAge(actions)
      modifies this
      ensures !saveOk ==> Valid() && stored == old(stored)
      ensures forall k :: 0 <= k < |merged| ==> merged[k] < |actions|
      ensures saveOk ==> stored == old(stored) + set i | i in merged && IsSaved(i, merged, actions, truncated || failed, classifyOk)
      ensures saveOk && failed ==> Valid()
      ensures saveOk && !truncated && !failed && classifyOk ==> Valid() && AllStored(stored, 0, counts[0])
      ensures !failed ==> tailOffset.Some? && tailOffset.value == NextTail(counts, old(TailSeen(readOk)))
      ensures !failed ==> (truncated <==> tailOffset.value > 0)
      ensures !failed && truncated ==> forall i: nat :: InRun(i, counts, old(TailSeen(readOk))) <==> i in merged
      ensures failAt.None? ==> !failed
      ensures seen == counts[|counts| - 1] && (saveOk && setOk && !failed ==> durable == tailOffset.value)
      ensures saveOk && truncated && !failed
              && (forall i | i in merged && Min(old(committed), seen - tailOffset.value) <= i < counts[0] ::
                    IsSaved(i, merged, actions, true, classifyOk) || i in old(stored))
              ==> Valid()
      ensures saveOk && truncated && !failed && setOk ==>
                (Valid() <==> forall i | i in merged && seen - tailOffset.value <= i < counts[0] ::
                                IsSaved(i, merged, actions, true, classifyOk) || i in old(stored))
    {
      hide Drifts, AllStored, TailIsSafe, InRun, NextTail;
      var _ := TailCursor(readOk);
      var fetched;
      fetched, truncated, failed := WalletActionHistory(counts, readOk, failAt);
      merged := fetched;
      ReadExisted(counts, merged, old(TailSeen(readOk)));
      var rows := KeepRows(fetched, actions, truncated || failed, classifyOk);
      if saveOk {
        StoreRows(rows);
        if truncated && !failed {
          WhatIsMissing(old(stored), merged, rows, stagedBottom, seen - tailOffset.value, stagedCount);
          WhatIsMissing(old(stored), merged, rows, stagedBottom, committed, stagedCount);
          OlderTailStaysSafe(durable, stored, committed, seen, stagedCount);
        }
        if !truncated && !failed && classifyOk {
          assert forall i :: i in merged ==> i in rows;
          NothingIsMissing(old(stored), merged, rows, stagedCount);
        }
        SnapshotCommitted(setOk);
      }
    }

    /** A process restart forgets the tentative state. */
    method Restart()
      requires Valid()
      modifies `tailOffset, `tailCommitted
      ensures Valid() && tailOffset == None
    {
      tailOffset, tailCommitted := None, false;
    }
  }

  // ------------------------------------------------------------ a window that was not saved

  /** A wallet of 40000 actions, of which those from 20000 to 21200 succeeded, all in one trace. */
  function OneBigTrace(): (actions: seq<TonGroups.Action>)
    ensures |actions| == 40_000 && ByAge(actions)
    ensures forall i :: 0 <= i < 40_000 ==> actions[i] == TonGroups.Action(i, 7, 20_000 <= i <= 21_200)
  {
    seq(40_000, i requires 0 <= i < 40_000 => TonGroups.Action(i, 7, 20_000 <= i <= 21_200))
  }

  /** Its first run drops that trace as the edge cluster, although the trace reaches above the last page. */
  lemma {:induction false} EdgeClusterIsDropped(merged: seq<nat>)
    requires forall k :: 0 <= k < |merged| ==> merged[k] < 40_000
    requires forall i: nat :: i in merged <==> InRun(i, Still(40_000), 0)
    ensures 21_200 in merged && !IsSaved(21_200, merged, OneBigTrace(), true, true)
    ensures 40_000 - NextTail(Still(40_000), 0) <= 21_200
  {
    var named := Named(merged, OneBigTrace());
    StillReads(21_200, 40_000, 0);
    StillTail(40_000, 0);
    hide InRun, NextTail;
    TonGroups.OnlyTraceIsTheBoundary(named, 7);
    var k :| 0 <= k < |merged| && merged[k] == 21_200;
    assert named[k] == OneBigTrace()[21_200];
    assert named[k] in TonGroups.OfTrace(named, 7);
  }

  /** So the offset that this run publishes, with every request and every write succeeding, is not safe. */
  method EdgeClusterRun() returns (b: Backfill)
    ensures fresh(b) && b.durable == 19_000 && !b.Valid() && 21_200 !in b.stored
  {
    b := new Backfill(40_000);
    var truncated, failed, merged := b.Sync(Still(40_000), OneBigTrace(), true, None, true, true, true);
    StillTail(40_000, 0);
    EdgeClusterIsDropped(merged);
  }

  /**
   * Wallet of 40000 actions, no arrivals. A first run stages offset 19000, and action 21200 of it is dropped with the
   * edge cluster as in the run above, or action 30000 is lost since the next committed run skipped the wallet. The
   * next two runs then report completion without having read either action.
   */
  lemma {:induction false} UnsavedRowsAreReportedComplete()
    ensures InRun(30_000, Still(40_000), 0) && InRun(21_200, Still(40_000), 0) && NextTail(Still(40_000), 0) == 19_000
    ensures Completes(40_000, 19_000, [19_000, 36_000])
    ensures !ReadBySome(30_000, 40_000, [19_000, 36_000]) && !ReadBySome(21_200, 40_000, [19_000, 36_000])
  {
    StillTail(40_000, 0);
    StillTail(40_000, 19_000);
    StillTail(40_000, 36_000);
    hide InRun;
    forall i: nat, tail: nat | i in {30_000, 21_200} && tail in {0, 19_000, 36_000} ensures InRun(i, Still(40_000), tail) <==> tail == 0 {
      StillReads(i, 40_000, tail);
    }
  }
}
