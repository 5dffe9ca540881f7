/**
 * The backward walk over a Steam inventory history. The upstream history is a
 * sequence of rows, oldest first, that grows at the end; a provider cursor is a
 * position in it, and the page at position `p` holds rows just below `p`.
 */
module SteamHistory {
  import opened Prelude

  /** A parsed history row; time 0 stands for a date that did not parse. */
  datatype Row = Row(id: string, time: nat)

  /** How a page ends when it does not end the history. */
  datatype PageTail = Advance(back: nat) | BadCursor | EmptyCursor

  /**
   * One upstream answer. A page holds `extra + 1` rows where that many remain. Its
   * next cursor points just below it, or `back` positions higher when the provider
   * repeats itself; the last page may have a null cursor. A page can lie about the end
   * too: come empty, or with a null cursor, while rows remain below it.
   */
  datatype Reply = HttpError | NotSuccess | Page(extra: nat, tail: PageTail, nullAtEnd: bool, lie: Lie)

  datatype Lie = Honest | EmptyPage | NullCursor

  function Bottom(pos: nat, extra: nat): (bottom: nat)
    ensures bottom <= pos && (pos > 0 ==> bottom < pos)
  {
    if pos <= extra + 1 then 0 else pos - extra - 1
  }

  /** The rows of one page, newest first. */
  function PageRows(h: seq<Row>, bottom: nat, pos: nat): (rows: seq<Row>)
    requires bottom <= pos <= |h|
    ensures |rows| == pos - bottom
    ensures forall i :: bottom <= i < pos ==> rows[pos - 1 - i] == h[i]
  {
    seq(pos - bottom, k requires 0 <= k < pos - bottom => h[pos - 1 - k])
  }

  function Ids(rows: seq<Row>): set<string> {
    set k | 0 <= k < |rows| :: rows[k].id
  }

  predicate DistinctIds(rows: seq<Row>) {
    forall i, j :: 0 <= i < j < |rows| ==> rows[i].id != rows[j].id
  }

  /** Every row from `low` up to `from` was collected. */
  predicate Covers(h: seq<Row>, low: nat, from: nat, all: seq<Row>)
    requires low <= from <= |h|
  {
    forall i :: low <= i < from ==> h[i].id in Ids(all)
  }

  /** Every collected row is an upstream row of that range. */
  predicate ComesFrom(h: seq<Row>, low: nat, from: nat, all: seq<Row>)
    requires low <= from <= |h|
  {
    forall k :: 0 <= k < |all| ==> exists i :: low <= i < from && h[i] == all[k]
  }

  /** The oldest dated row of a page, 0 when no date parsed. */
  method PageMinTime(rows: seq<Row>) returns (earliest: nat)
    ensures earliest == 0 <==> forall k :: 0 <= k < |rows| ==> rows[k].time == 0
    ensures earliest != 0 ==> exists k :: 0 <= k < |rows| && rows[k].time == earliest
    ensures forall k :: 0 <= k < |rows| && rows[k].time != 0 ==> earliest <= rows[k].time
  {
    earliest := 0;
    for n := 0 to |rows|
      invariant earliest == 0 <==> forall k :: 0 <= k < n ==> rows[k].time == 0
      invariant earliest != 0 ==> exists k :: 0 <= k < n && rows[k].time == earliest
      invariant forall k :: 0 <= k < n && rows[k].time != 0 ==> earliest <= rows[k].time
    {
      if rows[n].time != 0 && (earliest == 0 || rows[n].time < earliest) {
        earliest := rows[n].time;
      }
    }
  }

  /** The newest date collected, 0 when nothing dated was observed. */
  method NewestEventTime(events: seq<Row>) returns (newest: nat)
    ensures newest != 0 ==> exists k :: 0 <= k < |events| && events[k].time == newest
    ensures forall k :: 0 <= k < |events| ==> events[k].time <= newest
  {
    newest := 0;
    for n := 0 to |events|
      invariant newest != 0 ==> exists k :: 0 <= k < n && events[k].time == newest
      invariant forall k :: 0 <= k < n ==> events[k].time <= newest
    {
      if events[n].time > newest { newest := events[n].time; }
    }
  }

  /** Appends the rows whose ids were not collected before. */
  method AppendUnseen(all: seq<Row>, seen: set<string>, rows: seq<Row>) returns (grown: seq<Row>, seen': set<string>)
    requires seen == Ids(all) && DistinctIds(all)
    ensures seen' == Ids(grown) == Ids(all) + Ids(rows) && DistinctIds(grown)
    ensures forall k :: 0 <= k < |grown| ==> grown[k] in all || grown[k] in rows
  {
    grown, seen' := all, seen;
    for n := 0 to |rows|
      invariant seen' == Ids(grown) == Ids(all) + Ids(rows[..n]) && DistinctIds(grown)
      invariant forall k :: 0 <= k < |grown| ==> grown[k] in all || grown[k] in rows
    {
      assert rows[..n + 1] == rows[..n] + [rows[n]];
      IdsGrow(rows[..n], rows[n]);
      if rows[n].id !in seen' {
        IdsGrow(grown, rows[n]);
        seen' := seen' + {rows[n].id};
        grown := grown + [rows[n]];
      }
    }
    assert rows[..|rows|] == rows;
  }

  lemma {:induction false} IdsGrow(rows: seq<Row>, row: Row)
    ensures Ids(rows + [row]) == Ids(rows) + {row.id}
  {
    var grown := rows + [row];
    assert forall k :: 0 <= k < |rows| ==> rows[k] == grown[k];
    assert grown[|rows|] == row;
  }

  /** A page joined to the range above it. */
  lemma {:induction false} PageExtendsRange(h: seq<Row>, low: nat, from: nat, all: seq<Row>,
                                            bottom: nat, pos: nat, grown: seq<Row>)
    requires low <= pos <= from <= |h| && bottom <= pos
    requires Covers(h, low, from, all) && ComesFrom(h, low, from, all)
    requires Ids(grown) == Ids(all) + Ids(PageRows(h, bottom, pos))
    requires forall k :: 0 <= k < |grown| ==> grown[k] in all || grown[k] in PageRows(h, bottom, pos)
    ensures Covers(h, Min(low, bottom), from, grown) && ComesFrom(h, Min(low, bottom), from, grown)
  {
  }

  /** A row dated at or before one second after the watermark. */
  predicate ReachesWatermark(h: seq<Row>, low: nat, from: nat, stopBefore: nat)
    requires low <= from <= |h|
  {
    exists i :: low <= i < from && 0 < h[i].time <= stopBefore + 1
  }

  /** The oldest date of a page decides whether it meets the watermark. */
  lemma {:induction false} OldestDateDecides(h: seq<Row>, bottom: nat, pos: nat, earliest: nat, stopBefore: nat)
    requires bottom <= pos <= |h|
    requires var rows := PageRows(h, bottom, pos);
             && (earliest != 0 ==> exists k :: 0 <= k < |rows| && rows[k].time == earliest)
             && (forall k :: 0 <= k < |rows| && rows[k].time != 0 ==> 0 < earliest <= rows[k].time)
    ensures 0 < earliest <= stopBefore + 1 <==> ReachesWatermark(h, bottom, pos, stopBefore)
  {
    var rows := PageRows(h, bottom, pos);
    if 0 < earliest <= stopBefore + 1 {
      var k :| 0 <= k < |rows| && rows[k].time == earliest;
      assert h[pos - 1 - k] == rows[k];
    }
    if ReachesWatermark(h, bottom, pos, stopBefore) {
      var i :| bottom <= i < pos && 0 < h[i].time <= stopBefore + 1;
      assert rows[pos - 1 - i] == h[i];
    }
  }

  /** Every page arrives and moves on: no error, no stall. */
  predicate Clean(script: seq<Reply>) {
    forall k :: 0 <= k < |script| ==> script[k].Page? && script[k].tail == Advance(0)
  }

  /** Collects one page, and dates its oldest row. */
  method ReadPage(h: seq<Row>, ghost low: nat, ghost from: nat, all: seq<Row>, seen: set<string>, bottom: nat, pos: nat,
                  ghost stopBefore: nat)
    returns (grown: seq<Row>, seen': set<string>, earliest: nat)
    requires low <= pos <= from <= |h| && bottom <= pos
    requires Covers(h, low, from, all) && ComesFrom(h, low, from, all) && DistinctIds(all) && seen == Ids(all)
    ensures Covers(h, Min(low, bottom), from, grown) && ComesFrom(h, Min(low, bottom), from, grown)
    ensures DistinctIds(grown) && seen' == Ids(grown)
    ensures 0 < earliest <= stopBefore + 1 <==> ReachesWatermark(h, bottom, pos, stopBefore)
  {
    hide Covers, ComesFrom, DistinctIds, Ids, ReachesWatermark;
    var rows := PageRows(h, bottom, pos);
    grown, seen' := AppendUnseen(all, seen, rows);
    PageExtendsRange(h, low, from, all, bottom, pos, grown);
    earliest := PageMinTime(rows);
    OldestDateDecides(h, bottom, pos, earliest, stopBefore);
  }

  // ---------------------------------------------------------------- where a walk goes

  /** A fresh walk starts above the newest row. */
  function StartOf(h: seq<Row>, start: Option<nat>): nat {
    if start.Some? then start.value else |h|
  }

  /** The position that page `k` is requested at, when all earlier pages moved the walk on. */
  function PosAt(h: seq<Row>, start: Option<nat>, script: seq<Reply>, k: nat): (pos: nat)
    requires k <= |script|
    ensures pos <= StartOf(h, start)
  {
    if k == 0 then StartOf(h, start)
    else if script[k - 1].Page? && script[k - 1].tail.Advance? then
      Min(StartOf(h, start), Bottom(PosAt(h, start, script, k - 1), script[k - 1].extra) + script[k - 1].tail.back)
    else 0
  }

  /** The cursors that the first `k` pages led to. */
  function AskedFor(h: seq<Row>, start: Option<nat>, script: seq<Reply>, k: nat): set<nat>
    requires k <= |script|
  {
    if k == 0 then {} else AskedFor(h, start, script, k - 1) + {PosAt(h, start, script, k)}
  }

  /** The lowest position that the first `k` pages reach down to. */
  function LowAt(h: seq<Row>, start: Option<nat>, script: seq<Reply>, k: nat): (low: nat)
    requires k <= |script|
    ensures low <= StartOf(h, start)
  {
    if k == 0 then StartOf(h, start)
    else if script[k - 1].Page? then
      Min(LowAt(h, start, script, k - 1), Bottom(PosAt(h, start, script, k - 1), script[k - 1].extra))
    else LowAt(h, start, script, k - 1)
  }

  /** Page `k` brings rows. */
  predicate HasRows(h: seq<Row>, start: Option<nat>, script: seq<Reply>, k: nat)
    requires k < |script|
  {
    script[k].Page? && PosAt(h, start, script, k) > 0 && !script[k].lie.EmptyPage?
  }

  /** Page `k` makes the walk report that it is complete: it is empty, meets the watermark, or has no next cursor. */
  predicate Ends(h: seq<Row>, start: Option<nat>, stopBefore: nat, script: seq<Reply>, k: nat)
    requires k < |script| && StartOf(h, start) <= |h|
  {
    var pos := PosAt(h, start, script, k);
    script[k].Page?
    && (!HasRows(h, start, script, k)
        || (start.None? && stopBefore != 0 && ReachesWatermark(h, Bottom(pos, script[k].extra), pos, stopBefore))
        || (Bottom(pos, script[k].extra) == 0 && script[k].nullAtEnd)
        || script[k].lie.NullCursor?)
  }

  /** Page `k` is followed by a request at a position not asked for before. */
  predicate MovesOn(h: seq<Row>, start: Option<nat>, stopBefore: nat, script: seq<Reply>, k: nat)
    requires k < |script| && StartOf(h, start) <= |h|
  {
    && script[k].Page? && !Ends(h, start, stopBefore, script, k) && script[k].tail.Advance?
    && PosAt(h, start, script, k + 1) !in AskedFor(h, start, script, k)
  }

  function CursorAt(h: seq<Row>, start: Option<nat>, script: seq<Reply>, k: nat): Option<nat>
    requires k <= |script|
  {
    if k == 0 then start else Some(PosAt(h, start, script, k))
  }

  /** How a walk ended: the page that ended it, or the page cap, and the lowest position read. */
  datatype Walk = Walk(at: nat, complete: bool, resume: Option<nat>, low: nat)

  /**
   * A walk in terms of the answers that it gets. Only a page that ends the history, or seems to, completes it; the
   * cap and an undecodable cursor leave a place to resume.
   */
  ghost predicate IsWalk(h: seq<Row>, start: Option<nat>, stopBefore: nat, script: seq<Reply>, w: Walk)
    requires StartOf(h, start) <= |h|
  {
    var at := w.at;
    && at <= |script| && (forall k: nat :: k < at ==> MovesOn(h, start, stopBefore, script, k))
    && (at < |script| ==> !MovesOn(h, start, stopBefore, script, at))
    && (w.complete <==> at < |script| && Ends(h, start, stopBefore, script, at))
    && w.low == LowAt(h, start, script, if at < |script| && HasRows(h, start, script, at) then at + 1 else at)
    && w.resume == if at == |script| then (if at == 0 then None else CursorAt(h, start, script, at))
                 else if script[at].Page? && !w.complete && script[at].tail.BadCursor? then CursorAt(h, start, script, at)
                 else None
  }

  /** A walk was lied to when the page that completed it was. */
  predicate LiedTo(script: seq<Reply>, w: Walk) {
    w.at < |script| && script[w.at].Page? && !script[w.at].lie.Honest?
  }

  /** The answers decide the whole outcome. */
  lemma {:induction false} WalkIsUnique(h: seq<Row>, start: Option<nat>, stopBefore: nat, script: seq<Reply>, w: Walk, x: Walk)
    requires StartOf(h, start) <= |h| && IsWalk(h, start, stopBefore, script, w) && IsWalk(h, start, stopBefore, script, x)
    ensures w == x
  {
  }

  /** Pages of one row each. */
  function OneByOne(n: nat): (script: seq<Reply>)
    ensures |script| == n && forall k :: 0 <= k < n ==> script[k] == Page(0, Advance(0), false, Honest)
  {
    seq(n, k => Page(0, Advance(0), false, Honest))
  }

  lemma {:induction false} OneByOneDescends(h: seq<Row>, k: nat)
    requires k <= |h|
    ensures PosAt(h, None, OneByOne(|h|), k) == LowAt(h, None, OneByOne(|h|), k) == |h| - k
    ensures forall c :: c in AskedFor(h, None, OneByOne(|h|), k) ==> c >= |h| - k
  {
    if k > 0 { OneByOneDescends(h, k - 1); }
  }

  /** A fresh walk over such pages stops at the newest row that meets the watermark. */
  lemma {:induction false} OneByOneStopsAt(h: seq<Row>, watermark: nat, j: nat)
    requires j < |h| && watermark != 0 && 0 < h[j].time <= watermark + 1
    requires forall i :: j < i < |h| ==> !(0 < h[i].time <= watermark + 1)
    ensures exists w :: IsWalk(h, None, watermark, OneByOne(|h|), w) && w.complete && w.low == j
  {
    var script, at := OneByOne(|h|), |h| - 1 - j;
    hide IsWalk;
    forall k: nat | k < at ensures MovesOn(h, None, watermark, script, k) {
      OneByOneDescends(h, k);
      OneByOneDescends(h, k + 1);
    }
    OneByOneDescends(h, at);
    OneByOneDescends(h, at + 1);
    assert Ends(h, None, watermark, script, at);
    assert Reaches(h, None, watermark, script, at, CursorAt(h, None, script, at), AskedFor(h, None, script, at), j + 1);
    StopsHere(h, None, watermark, script, at, CursorAt(h, None, script, at), AskedFor(h, None, script, at), j + 1, Walk(at, true, None, j));
  }

  /** Each request is at or above what was read so far. */
  lemma {:induction false} LowIsBelow(h: seq<Row>, start: Option<nat>, script: seq<Reply>, k: nat)
    requires k <= |script| && forall j: nat :: j < k ==> script[j].Page? && script[j].tail.Advance?
    ensures LowAt(h, start, script, k) <= PosAt(h, start, script, k)
  {
    if k > 0 { LowIsBelow(h, start, script, k - 1); }
  }

  /** A place to resume never points below what was read, and each capped walk over pages that all move on lowers it by the
      page cap. */
  lemma {:induction false} ResumePoint(h: seq<Row>, start: Option<nat>, stopBefore: nat, script: seq<Reply>, w: Walk)
    requires StartOf(h, start) <= |h| && IsWalk(h, start, stopBefore, script, w)
    ensures w.resume.Some? ==> !w.complete && w.low <= w.resume.value <= StartOf(h, start)
    ensures Clean(script) && script != [] && !w.complete ==> w.resume.Some? && w.resume.value + |script| <= StartOf(h, start)
  {
    forall j: nat | j < w.at ensures script[j].Page? && script[j].tail.Advance? {
      assert MovesOn(h, start, stopBefore, script, j);
    }
    LowIsBelow(h, start, script, w.at);
    if Clean(script) && !w.complete {
      CleanPagesDescend(h, start, stopBefore, script, w.at);
    }
  }

  lemma {:induction false} CleanPagesDescend(h: seq<Row>, start: Option<nat>, stopBefore: nat, script: seq<Reply>, k: nat)
    requires StartOf(h, start) <= |h| && k <= |script| && Clean(script)
    requires forall j: nat :: j < k ==> MovesOn(h, start, stopBefore, script, j)
    ensures PosAt(h, start, script, k) + k <= StartOf(h, start)
    ensures forall c :: c in AskedFor(h, start, script, k) ==> PosAt(h, start, script, k) <= c
  {
    if k > 0 {
      CleanPagesDescend(h, start, stopBefore, script, k - 1);
      assert MovesOn(h, start, stopBefore, script, k - 1);
    }
  }

  /** Unless it was lied to, a complete walk read to the bottom or met the watermark. */
  lemma {:induction false} HonestEnd(h: seq<Row>, start: Option<nat>, stopBefore: nat, script: seq<Reply>, w: Walk)
    requires StartOf(h, start) <= |h| && IsWalk(h, start, stopBefore, script, w) && w.complete
    ensures w.low <= StartOf(h, start) && w.resume.None?
    ensures !LiedTo(script, w) ==>
              w.low == 0 || (start.None? && stopBefore != 0 && ReachesWatermark(h, w.low, StartOf(h, start), stopBefore))
  {
    forall j: nat | j < w.at ensures script[j].Page? && script[j].tail.Advance? {
      assert MovesOn(h, start, stopBefore, script, j);
    }
    LowIsBelow(h, start, script, w.at);
  }

  /** What one answer does to the walk. */
  lemma {:induction false} OnePage(h: seq<Row>, start: Option<nat>, stopBefore: nat, script: seq<Reply>, k: nat, asked: set<nat>)
    requires k < |script| && StartOf(h, start) <= |h| && asked == AskedFor(h, start, script, k)
    ensures !script[k].Page? ==> !Ends(h, start, stopBefore, script, k) && !HasRows(h, start, script, k)
    ensures MovesOn(h, start, stopBefore, script, k) ==> script[k].Page? && !Ends(h, start, stopBefore, script, k)
    ensures script[k].Page? ==>
              var pos := PosAt(h, start, script, k);
              var bottom := Bottom(pos, script[k].extra);
              var next := Min(StartOf(h, start), bottom + if script[k].tail.Advance? then script[k].tail.back else 0);
              && (HasRows(h, start, script, k) <==> pos > 0 && !script[k].lie.EmptyPage?)
              && (Ends(h, start, stopBefore, script, k) <==>
                    !HasRows(h, start, script, k) || (start.None? && stopBefore != 0 && ReachesWatermark(h, bottom, pos, stopBefore))
                    || (bottom == 0 && script[k].nullAtEnd) || script[k].lie.NullCursor?)
              && (script[k].tail.Advance? ==> PosAt(h, start, script, k + 1) == next)
              && (MovesOn(h, start, stopBefore, script, k) <==>
                    !Ends(h, start, stopBefore, script, k) && script[k].tail.Advance? && next !in asked)
  {
  }

  /** The walk has moved on from every page before `k`. */
  ghost predicate Reaches(h: seq<Row>, start: Option<nat>, stopBefore: nat, script: seq<Reply>, k: nat,
                          cursor: Option<nat>, asked: set<nat>, low: nat)
    requires StartOf(h, start) <= |h|
  {
    && k <= |script| && (forall j: nat :: j < k ==> MovesOn(h, start, stopBefore, script, j))
    && cursor == CursorAt(h, start, script, k) && asked == AskedFor(h, start, script, k) && low == LowAt(h, start, script, k)
  }

  lemma {:induction false} NothingRead(h: seq<Row>, start: Option<nat>, stopBefore: nat, script: seq<Reply>)
    requires StartOf(h, start) <= |h|
    ensures Covers(h, StartOf(h, start), StartOf(h, start), []) && ComesFrom(h, StartOf(h, start), StartOf(h, start), [])
    ensures DistinctIds([]) && Ids([]) == {}
    ensures Reaches(h, start, stopBefore, script, 0, start, {}, StartOf(h, start))
  {
  }

  /** The position that page `k` is asked at. */
  lemma {:induction false} AsksAt(h: seq<Row>, start: Option<nat>, stopBefore: nat, script: seq<Reply>, k: nat,
                                  cursor: Option<nat>, asked: set<nat>, low: nat)
    requires StartOf(h, start) <= |h| && Reaches(h, start, stopBefore, script, k, cursor, asked, low)
    ensures PosAt(h, start, script, k) == (if cursor.Some? then cursor.value else |h|)
    ensures low <= PosAt(h, start, script, k) <= StartOf(h, start)
    ensures k < |script| && script[k].Page? ==>
              LowAt(h, start, script, k + 1) == Min(low, Bottom(PosAt(h, start, script, k), script[k].extra))
  {
    forall j: nat | j < k ensures script[j].Page? && script[j].tail.Advance? {
      assert MovesOn(h, start, stopBefore, script, j);
    }
    LowIsBelow(h, start, script, k);
  }

  lemma {:induction false} Continues(h: seq<Row>, start: Option<nat>, stopBefore: nat, script: seq<Reply>, k: nat,
                                     cursor: Option<nat>, asked: set<nat>, low: nat)
    requires StartOf(h, start) <= |h| && Reaches(h, start, stopBefore, script, k, cursor, asked, low)
    requires k < |script| && MovesOn(h, start, stopBefore, script, k)
    ensures var next := PosAt(h, start, script, k + 1);
            Reaches(h, start, stopBefore, script, k + 1, Some(next), asked + {next}, LowAt(h, start, script, k + 1))
  {
  }

  /** The answer to page `k` ends the walk. */
  lemma {:induction false} StopsHere(h: seq<Row>, start: Option<nat>, stopBefore: nat, script: seq<Reply>, k: nat,
                                     cursor: Option<nat>, asked: set<nat>, low: nat, w: Walk)
    requires StartOf(h, start) <= |h| && Reaches(h, start, stopBefore, script, k, cursor, asked, low)
    requires k < |script| && !MovesOn(h, start, stopBefore, script, k)
    requires w.at == k && (w.complete <==> Ends(h, start, stopBefore, script, k))
    requires w.low == if HasRows(h, start, script, k) then LowAt(h, start, script, k + 1) else low
    requires w.resume == if script[k].Page? && !w.complete && script[k].tail.BadCursor? then cursor else None
    ensures IsWalk(h, start, stopBefore, script, w)
  {
  }

  /** The walk reached the page cap. */
  lemma {:induction false} CapReached(h: seq<Row>, start: Option<nat>, stopBefore: nat, script: seq<Reply>,
                                      cursor: Option<nat>, asked: set<nat>, low: nat)
    requires StartOf(h, start) <= |h| && Reaches(h, start, stopBefore, script, |script|, cursor, asked, low)
    ensures IsWalk(h, start, stopBefore, script, Walk(|script|, false, if script == [] then None else cursor, low))
  {
  }

  /**
   * The walk from the newest page, or from `start` when a capped walk is resumed.
   * `w.low` is the lowest position it read down to: nothing in between is skipped.
   */
  method FetchHistory(h: seq<Row>, start: Option<nat>, stopBefore: nat, maxPages: nat, script: seq<Reply>)
    returns (all: seq<Row>, complete: bool, resume: Option<nat>, ghost w: Walk)
    requires |script| == maxPages
    requires start.Some? ==> start.value <= |h|
    ensures IsWalk(h, start, stopBefore, script, w) && w.complete == complete && w.resume == resume
    ensures DistinctIds(all)
    ensures w.low <= StartOf(h, start) && Covers(h, w.low, StartOf(h, start), all) && ComesFrom(h, w.low, StartOf(h, start), all)
  {
    var from := StartOf(h, start);
    all, complete, resume := [], false, None;
    ghost var low: nat := from;
    var cursor: Option<nat> := start;
    var seenCursor: set<nat>, seenEvents: set<string> := {}, {};
    NothingRead(h, start, stopBefore, script);
    hide Covers, ComesFrom, DistinctIds, Ids, PageRows, ReachesWatermark;
    hide Reaches, IsWalk, MovesOn, Ends, HasRows, PosAt, LowAt;
    for page := 0 to maxPages
      invariant low <= from && Covers(h, low, from, all) && ComesFrom(h, low, from, all) && DistinctIds(all)
      invariant seenEvents == Ids(all)
      invariant Reaches(h, start, stopBefore, script, page, cursor, seenCursor, low)
      invariant !complete && resume == if page == 0 then None else cursor
    {
      AsksAt(h, start, stopBefore, script, page, cursor, seenCursor, low);
      OnePage(h, start, stopBefore, script, page, seenCursor);
      ghost var before := low;
      var pos := if cursor.Some? then cursor.value else |h|;
      var reply := script[page];
      if !reply.Page? {
        w := Walk(page, false, None, low);
        StopsHere(h, start, stopBefore, script, page, cursor, seenCursor, before, w);
        return all, false, None, w;
      }
      if pos == 0 || reply.lie.EmptyPage? {
        w := Walk(page, true, None, low);
        StopsHere(h, start, stopBefore, script, page, cursor, seenCursor, before, w);
        return all, true, None, w;
      }
      var bottom := Bottom(pos, reply.extra);
      var earliest;
      all, seenEvents, earliest := ReadPage(h, low, from, all, seenEvents, bottom, pos, stopBefore);
      low := Min(low, bottom);
      if start.None? && stopBefore != 0 && earliest != 0 && earliest <= stopBefore + 1 {
        w := Walk(page, true, None, low);
        StopsHere(h, start, stopBefore, script, page, cursor, seenCursor, before, w);
        return all, true, None, w;
      }
      if (bottom == 0 && reply.nullAtEnd) || reply.lie.NullCursor? {
        w := Walk(page, true, None, low);
        StopsHere(h, start, stopBefore, script, page, cursor, seenCursor, before, w);
        return all, true, None, w;
      }
      if !reply.tail.Advance? {
        resume := if reply.tail.BadCursor? then cursor else None;
        w := Walk(page, false, resume, low);
        StopsHere(h, start, stopBefore, script, page, cursor, seenCursor, before, w);
        return all, false, resume, w;
      }
      var next := Min(from, bottom + reply.tail.back);
      if next in seenCursor {
        w := Walk(page, false, None, low);
        StopsHere(h, start, stopBefore, script, page, cursor, seenCursor, before, w);
        return all, false, None, w;
      }
      Continues(h, start, stopBefore, script, page, cursor, seenCursor, before);
      seenCursor := seenCursor + {next};
      cursor, resume := Some(next), Some(next);
    }
    CapReached(h, start, stopBefore, script, cursor, seenCursor, low);
    w := Walk(maxPages, false, resume, low);
  }
}
