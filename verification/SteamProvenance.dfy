/**
 * Durable progress of the Steam history import: rows are written first, the walk
 * state is staged, and it is published only once the sync engine reports that the
 * whole snapshot was saved.
 */
module SteamProvenance {
  import opened Prelude
  import opened SteamHistory

  /** The stored walk state; watermark 0 is the zero time. */
  datatype Cursor = Cursor(watermark: nat, resume: Option<nat>)

  const NO_CURSOR := Cursor(0, None)

  /** One run's result for the history source. */
  datatype Outcome = Outcome(complete: bool, newest: nat, resume: Option<nat>)

  const NO_OUTCOME := Outcome(false, 0, None)

  function MergeProvenanceCursor(prev: Cursor, out: Outcome): Cursor {
    if !out.complete && out.resume.None? then prev
    else Cursor(Max(prev.watermark, out.newest), if out.complete then None else out.resume)
  }

  /**
   * `fence` counts the upstream rows that the walk behind a cursor could see. Each of
   * them is stored or lies beyond the saved resume cursor, the watermark dates one of
   * them, and every later row is undated or more than a second newer than all of them.
   */
  ghost predicate Accounted(h: seq<Row>, stored: set<string>, c: Cursor, fence: nat) {
    && fence <= |h| && (c.resume.Some? ==> c.resume.value <= fence)
    && (forall i :: 0 <= i < fence ==> Safe(h, stored, c, i))
    && (c.watermark != 0 ==> exists i :: 0 <= i < fence && h[i].time == c.watermark)
    && (forall i, j :: 0 <= i < fence <= j < |h| ==> AppearsLater(h[i], h[j]))
  }

  predicate Safe(h: seq<Row>, stored: set<string>, c: Cursor, i: nat)
    requires i < |h|
  {
    h[i].id in stored || (c.resume.Some? && i < c.resume.value)
  }

  predicate AppearsLater(earlier: Row, later: Row) {
    later.time == 0 || later.time > earlier.time + 1
  }

  /** The claim a user relies on: no row dated at or before the watermark is lost. */
  lemma {:induction false} NothingBelowWatermarkIsLost(h: seq<Row>, stored: set<string>, c: Cursor, fence: nat, i: nat)
    requires Accounted(h, stored, c, fence)
    requires i < |h| && 0 < h[i].time <= c.watermark
    ensures Safe(h, stored, c, i)
  {
  }

  /** Storing more rows, or new rows on top, disturbs no cursor. */
  lemma {:induction false} AccountedSurvives(h: seq<Row>, stored: set<string>, c: Cursor, fence: nat,
                                             arrivals: seq<Row>, stored': set<string>)
    requires Accounted(h, stored, c, fence) && stored <= stored'
    requires forall i, k :: 0 <= i < fence && 0 <= k < |arrivals| ==> AppearsLater(h[i], arrivals[k])
    ensures Accounted(h + arrivals, stored', c, fence)
  {
    var all := h + arrivals;
    forall i | 0 <= i < fence ensures Safe(all, stored', c, i) {
      assert Safe(h, stored, c, i);
    }
    forall i, j | 0 <= i < fence <= j < |all| ensures AppearsLater(all[i], all[j]) {
      if j < |h| { assert AppearsLater(h[i], h[j]); }
    }
    if c.watermark != 0 {
      var i :| 0 <= i < fence && h[i].time == c.watermark;
      assert all[i].time == c.watermark;
    }
  }

  /** A walk from the top stops at the watermark, a resumed one runs below it. */
  function StopOf(c: Cursor): nat {
    if c.resume.Some? then 0 else c.watermark
  }

  /** What a walk and the write of its rows guarantee. */
  ghost predicate WalkStored(h: seq<Row>, stored: set<string>, start: Option<nat>, out: Outcome, low: nat) {
    var from := StartOf(h, start);
    && low <= from <= |h|
    && (forall i :: low <= i < from ==> h[i].id in stored)
    && (out.newest != 0 ==> exists i :: low <= i < from && h[i].time == out.newest)
    && (out.resume.Some? ==> low <= out.resume.value <= from)
  }

  /** A walk whose rows all reached the table. */
  lemma {:induction false} WrittenWalk(h: seq<Row>, stored: set<string>, start: Option<nat>, events: seq<Row>, out: Outcome, low: nat)
    requires start.Some? ==> start.value <= |h|
    requires Ids(events) <= stored
    requires out.newest != 0 ==> exists k :: 0 <= k < |events| && events[k].time == out.newest
    requires low <= StartOf(h, start) && Covers(h, low, StartOf(h, start), events) && ComesFrom(h, low, StartOf(h, start), events)
    requires out.resume.Some? ==> low <= out.resume.value <= StartOf(h, start)
    ensures WalkStored(h, stored, start, out, low)
  {
  }

  /** A run without a session, or whose rows could not be written, says nothing. */
  lemma {:induction false} NoWalk(h: seq<Row>, stored: set<string>, start: Option<nat>)
    requires start.Some? ==> start.value <= |h|
    ensures WalkStored(h, stored, start, NO_OUTCOME, StartOf(h, start))
  {
  }

  /** The fence of the merged cursor: a fresh walk sees everything, a resumed one what the capped walk saw. */
  function MergedFence(h: seq<Row>, start: Option<nat>, out: Outcome, walkFence: nat, prevFence: nat): nat {
    if !out.complete && out.resume.None? then prevFence
    else if start.None? then |h| else walkFence
  }

  /** Every row below the lowest one that a walk read is stored. */
  predicate BelowStored(h: seq<Row>, stored: set<string>, low: nat) {
    forall i :: 0 <= i < low && i < |h| ==> h[i].id in stored
  }

  /**
   * The step that makes the protocol safe. `read1` and `read2` are the two cursor
   * reads of a run, before the walk and before the merge; either may have failed and
   * then read as the empty cursor.
   */
  lemma {:induction false} MergeKeepsAccounted(h: seq<Row>, stored: set<string>, durable: Cursor, fence: nat,
                                               read1: bool, read2: bool, out: Outcome, low: nat)
    requires Accounted(h, stored, durable, fence)
    requires WalkStored(h, stored, if read1 then durable.resume else None, out, low)
    requires out.complete ==> BelowStored(h, stored, low)
    ensures var start := if read1 then durable.resume else None;
            var prev := if read2 then durable else NO_CURSOR;
            Accounted(h, stored, MergeProvenanceCursor(prev, out),
                      MergedFence(h, start, out, fence, if read2 then fence else 0))
  {
    var start := if read1 then durable.resume else None;
    var prev := if read2 then durable else NO_CURSOR;
    var prevFence := if read2 then fence else 0;
    assert Accounted(h, stored, prev, prevFence);
    if out.complete || out.resume.Some? {
      var next := MergeProvenanceCursor(prev, out);
      var fence' := MergedFence(h, start, out, fence, prevFence);
      forall i | 0 <= i < fence' ensures Safe(h, stored, next, i) {
        if start.Some? {
          assert Safe(h, stored, durable, i);
        }
      }
    }
  }

  /** Below the page that met the watermark every row was stored by an earlier walk. */
  lemma {:induction false} WatermarkStopIsSafe(h: seq<Row>, stored: set<string>, durable: Cursor, fence: nat, low: nat, i: nat)
    requires Accounted(h, stored, durable, fence) && durable.resume.None?
    requires low <= |h| && durable.watermark != 0 && ReachesWatermark(h, low, |h|, durable.watermark)
    requires i < low
    ensures h[i].id in stored
  {
    var j :| low <= j < |h| && 0 < h[j].time <= durable.watermark + 1;
    var k :| 0 <= k < fence && h[k].time == durable.watermark;
    assert fence <= j ==> AppearsLater(h[k], h[j]);
    assert Safe(h, stored, durable, i);
  }

  /** Where a complete walk was not lied to, whatever lies below it was stored by earlier ones. */
  lemma {:induction false} HonestEndIsSafe(h: seq<Row>, stored: set<string>, durable: Cursor, fence: nat, read1: bool,
                                           script: seq<Reply>, w: Walk)
    requires Accounted(h, stored, durable, fence)
    requires var seen := if read1 then durable else NO_CURSOR; IsWalk(h, seen.resume, StopOf(seen), script, w)
    requires w.complete && !LiedTo(script, w)
    ensures BelowStored(h, stored, w.low)
  {
    var seen := if read1 then durable else NO_CURSOR;
    HonestEnd(h, seen.resume, StopOf(seen), script, w);
    forall i: nat | i < w.low ensures h[i].id in stored {
      WatermarkStopIsSafe(h, stored, durable, fence, w.low, i);
    }
  }

  // ---------------------------------------------------------------- pages that lie about the end

  /** A cursor that the invariant holds of, for some number of rows seen. */
  ghost predicate Sound(h: seq<Row>, stored: set<string>, c: Cursor) {
    exists fence: nat :: Accounted(h, stored, c, fence)
  }

  lemma {:induction false} IsSound(h: seq<Row>, stored: set<string>, c: Cursor, fence: nat)
    requires Accounted(h, stored, c, fence)
    ensures Sound(h, stored, c)
  {
  }

  lemma {:induction false} FenceOf(h: seq<Row>, stored: set<string>, c: Cursor) returns (fence: nat)
    ensures Sound(h, stored, c) <==> Accounted(h, stored, c, fence)
  {
    if Sound(h, stored, c) {
      fence :| Accounted(h, stored, c, fence);
    } else {
      fence := 0;
    }
  }

  /** No later fresh walk that is not lied to leaves a row unstored behind it. */
  ghost predicate NeverSkips(h: seq<Row>, stored: set<string>, watermark: nat) {
    forall script, w :: IsWalk(h, None, watermark, script, w) && w.complete && !LiedTo(script, w) ==> BelowStored(h, stored, w.low)
  }

  /** An unstored row is skipped exactly when a row above it meets the watermark: the provider decides how much a page holds. */
  lemma {:induction false} WhenFreshWalksSkip(h: seq<Row>, stored: set<string>, watermark: nat)
    ensures NeverSkips(h, stored, watermark) <==>
              watermark == 0 || forall j :: 0 <= j < |h| && 0 < h[j].time <= watermark + 1 ==> BelowStored(h, stored, j)
  {
    hide IsWalk;
    if watermark == 0 || forall j :: 0 <= j < |h| && 0 < h[j].time <= watermark + 1 ==> BelowStored(h, stored, j) {
      forall script, w | IsWalk(h, None, watermark, script, w) && w.complete && !LiedTo(script, w)
        ensures BelowStored(h, stored, w.low)
      {
        HonestEnd(h, None, watermark, script, w);
      }
    } else {
      var j :| 0 <= j < |h| && 0 < h[j].time <= watermark + 1 && !BelowStored(h, stored, j);
      NewestMeeting(h, watermark, j);
      var top: nat :| j <= top < |h| && MeetsFirst(h, watermark, top);
      OneByOneStopsAt(h, watermark, top);
      var w :| IsWalk(h, None, watermark, OneByOne(|h|), w) && w.complete && w.low == top;
      assert !LiedTo(OneByOne(|h|), w);
    }
  }

  /** The newest row that a fresh walk with this watermark stops at. */
  predicate MeetsFirst(h: seq<Row>, watermark: nat, top: nat) {
    top < |h| && 0 < h[top].time <= watermark + 1 && forall i :: top < i < |h| ==> !(0 < h[i].time <= watermark + 1)
  }

  lemma {:induction false} NewestMeeting(h: seq<Row>, watermark: nat, j: nat)
    requires j < |h| && 0 < h[j].time <= watermark + 1
    ensures exists top: nat :: j <= top < |h| && MeetsFirst(h, watermark, top)
    decreases |h| - j
  {
    if i :| j < i < |h| && 0 < h[i].time <= watermark + 1 {
      NewestMeeting(h, watermark, i);
    } else {
      assert MeetsFirst(h, watermark, j);
    }
  }

  /** What the invariant is for: a sound cursor without a place to resume lets no fresh walk skip a row. */
  lemma {:induction false} SoundNeverSkips(h: seq<Row>, stored: set<string>, watermark: nat)
    requires Sound(h, stored, Cursor(watermark, None))
    ensures NeverSkips(h, stored, watermark)
  {
    var c := Cursor(watermark, None);
    var fence: nat :| Accounted(h, stored, c, fence);
    WhenFreshWalksSkip(h, stored, watermark);
    if watermark != 0 {
      var k :| 0 <= k < fence && h[k].time == watermark;
      forall j | 0 <= j < |h| && 0 < h[j].time <= watermark + 1 ensures BelowStored(h, stored, j) {
        assert fence <= j ==> AppearsLater(h[k], h[j]);
        forall i | 0 <= i < j ensures h[i].id in stored {
          assert Safe(h, stored, c, i);
        }
      }
    }
  }

  /** A row dated like the watermark lies at or above the lowest row read. */
  predicate WatermarkWasRead(h: seq<Row>, low: nat, watermark: nat) {
    watermark != 0 && exists k :: low <= k < |h| && h[k].time == watermark
  }

  /**
   * A completed walk, whoever said that the history ends there. Its merged cursor accounts for all that the walk could
   * see exactly when every row below the stop is stored. Once the watermark dates a row that was read, as it does
   * whenever the walk moved it, nothing less makes the cursor sound for any number of rows; a cursor that did not
   * change stays what it was.
   */
  lemma {:induction false} WhenCompletionIsSound(h: seq<Row>, stored: set<string>, durable: Cursor, fence: nat,
                                                 read1: bool, read2: bool, out: Outcome, low: nat)
    requires Accounted(h, stored, durable, fence) && out.complete
    requires WalkStored(h, stored, if read1 then durable.resume else None, out, low)
    ensures var prev := if read2 then durable else NO_CURSOR;
            var next := MergeProvenanceCursor(prev, out);
            && next == Cursor(Max(prev.watermark, out.newest), None)
            && (Accounted(h, stored, next, if read1 && durable.resume.Some? then fence else |h|) <==> BelowStored(h, stored, low))
            && (BelowStored(h, stored, low) ==> Sound(h, stored, next))
            && (next.watermark == 0 || next == prev ==> Sound(h, stored, next))
            && (next.watermark > prev.watermark ==> WatermarkWasRead(h, low, next.watermark))
            && (WatermarkWasRead(h, low, next.watermark) ==>
                  && (Sound(h, stored, next) <==> BelowStored(h, stored, low))
                  && (NeverSkips(h, stored, next.watermark) <==> BelowStored(h, stored, low)))
  {
    var prev := if read2 then durable else NO_CURSOR;
    var next := MergeProvenanceCursor(prev, out);
    var seen := if read1 && durable.resume.Some? then fence else |h|;
    if BelowStored(h, stored, low) {
      MergeKeepsAccounted(h, stored, durable, fence, read1, read2, out, low);
    }
    if Accounted(h, stored, next, seen) {
      forall i | 0 <= i < low ensures h[i].id in stored {
        assert Safe(h, stored, next, i);
      }
    }
    assert next.watermark == 0 ==> Accounted(h, stored, next, 0);
    assert next == prev ==> Accounted(h, stored, next, if read2 then fence else 0);
    hide Accounted;
    if Sound(h, stored, next) {
      SoundNeverSkips(h, stored, next.watermark);
    }
    WhenFreshWalksSkip(h, stored, next.watermark);
    if WatermarkWasRead(h, low, next.watermark) {
      var k :| low <= k < |h| && h[k].time == next.watermark;
      assert BelowStored(h, stored, k) ==> BelowStored(h, stored, low);
    }
  }

  /**
   * It does happen. A new account with two rows gets one page, of the newest row, whose cursor is null: the walk is
   * complete, its merged cursor vouches for both rows, and a later fresh walk stops above the older one.
   */
  lemma {:induction false} EarlyEndLosesRows(w: Walk)
    requires IsWalk([Row("a", 10), Row("b", 20)], None, 0, [Page(0, Advance(0), false, NullCursor)], w)
    ensures w == Walk(0, true, None, 1)
    ensures var h := [Row("a", 10), Row("b", 20)];
            var next := MergeProvenanceCursor(NO_CURSOR, Outcome(w.complete, 20, w.resume));
            !Sound(h, {"b"}, next) && !NeverSkips(h, {"b"}, next.watermark)
  {
    var h, script := [Row("a", 10), Row("b", 20)], [Page(0, Advance(0), false, NullCursor)];
    assert w.at > 0 ==> MovesOn(h, None, 0, script, 0);
    assert LowAt(h, None, script, 1) == 1;
    var out := Outcome(w.complete, 20, w.resume);
    assert WalkStored(h, {"b"}, None, out, w.low) by {
      assert h[1].time == 20;
    }
    assert Accounted(h, {"b"}, NO_CURSOR, 0);
    WhenCompletionIsSound(h, {"b"}, NO_CURSOR, 0, true, true, out, w.low);
    assert h[0].id !in {"b"};
  }

  /** The upstream account, the history tables and the Steam client around them. */
  class SteamImport {
    /** The upstream history, and how much of it each cursor's walk could see. */
    ghost var upstream: seq<Row>
    ghost var durableFence: nat
    ghost var stagedFence: nat
    /** Whether the staged cursor was merged from a cursor that could be read. */
    ghost var stagedFromRead: bool
    var stored: set<string>
    var durable: Cursor
    var staged: Cursor
    var pendingDirty: bool

    ghost predicate Valid()
      reads this
    {
      && Accounted(upstream, stored, durable, durableFence)
      && (pendingDirty ==> Accounted(upstream, stored, staged, stagedFence))
      && (pendingDirty && stagedFromRead ==> durable.watermark <= staged.watermark)
    }

    constructor ()
      ensures Valid() && upstream == [] && stored == {} && durable == NO_CURSOR && !pendingDirty
    {
      upstream, durableFence, stagedFence, stagedFromRead := [], 0, 0, true;
      stored, durable, staged, pendingDirty := {}, NO_CURSOR, NO_CURSOR, false;
    }

    /** The account owner acts: new rows appear on top at any moment between two steps. */
    ghost method Arrive(arrivals: seq<Row>)
      requires Valid()
      requires forall i, k :: 0 <= i < durableFence && 0 <= k < |arrivals| ==> AppearsLater(upstream[i], arrivals[k])
      requires pendingDirty ==>
                 forall i, k :: 0 <= i < stagedFence && 0 <= k < |arrivals| ==> AppearsLater(upstream[i], arrivals[k])
      modifies this`upstream
      ensures Valid() && upstream == old(upstream) + arrivals
    {
      AccountedSurvives(upstream, stored, durable, durableFence, arrivals, stored);
      if pendingDirty {
        AccountedSurvives(upstream, stored, staged, stagedFence, arrivals, stored);
      }
      upstream := upstream + arrivals;
    }

    /** Writes rows one by one; a failure leaves the rows before it. */
    method RecordEvents(events: seq<Row>, failAt: Option<nat>) returns (ok: bool)
      requires Valid()
      modifies this`stored
      ensures Valid() && old(stored) <= stored
      ensures ok <==> failAt.None? || failAt.value > |events|
      ensures ok ==> stored == old(stored) + Ids(events)
      ensures !ok ==> stored == old(stored) + Ids(events[..failAt.value])
    {
      hide Accounted;
      ghost var before := stored;
      ok := true;
      for n := 0 to |events|
        invariant ok && stored == before + Ids(events[..n])
        invariant failAt.Some? ==> n <= failAt.value
      {
        if failAt == Some(n) {
          StoringKeepsValid(before);
          return false;
        }
        assert events[..n + 1] == events[..n] + [events[n]];
        IdsGrow(events[..n], events[n]);
        stored := stored + {events[n].id};
      }
      assert events[..|events|] == events;
      StoringKeepsValid(before);
      if failAt == Some(|events|) { ok := false; }
    }

    lemma {:induction false} StoringKeepsValid(before: set<string>)
      requires before <= stored
      requires Accounted(upstream, before, durable, durableFence)
      requires pendingDirty ==> Accounted(upstream, before, staged, stagedFence)
      requires pendingDirty && stagedFromRead ==> durable.watermark <= staged.watermark
      ensures Valid()
    {
      assert upstream + [] == upstream;
      AccountedSurvives(upstream, before, durable, durableFence, [], stored);
      if pendingDirty {
        AccountedSurvives(upstream, before, staged, stagedFence, [], stored);
      }
    }

    /**
     * One run up to the point where the snapshot goes to the sync engine: read the
     * cursor, walk, write the rows, read the cursor again and stage the merge. `h` is
     * what the provider serves during the walk; `ended` says that a complete walk was
     * merged. The staged cursor can be relied on when the walk did not end on a lie, and
     * otherwise exactly when it vouches for nothing that is missing.
     */
    method Fetch(h: seq<Row>, hasSession: bool, read1: bool, read2: bool, maxPages: nat, script: seq<Reply>,
                 snapshotSaved: bool, failAt: Option<nat>)
      returns (ok: bool, ghost ended: bool, ghost w: Walk)
      requires Valid() && h == upstream && |script| == maxPages
      modifies this
      ensures upstream == old(upstream) && durable == old(durable) && old(stored) <= stored
      ensures ok <==> snapshotSaved
      ensures !ok ==> Valid() && stored == old(stored) && staged == old(staged) && pendingDirty == old(pendingDirty)
      ensures ok ==> pendingDirty && stagedFromRead == read2 && (Valid() <==> Sound(h, stored, staged))
      ensures ok && read2 ==> staged.watermark >= durable.watermark
      ensures var seen := if read1 then durable else NO_CURSOR;
              hasSession ==> IsWalk(h, seen.resume, StopOf(seen), script, w)
      ensures ended ==> ok && hasSession && w.complete && staged.resume.None?
      ensures ok && hasSession && w.complete && failAt.None? ==> ended
      ensures ok && !(ended && LiedTo(script, w)) ==> Valid()
      ensures ended && BelowStored(h, stored, w.low) ==> Valid()
      ensures ended && (staged.watermark == 0 || staged == if read2 then durable else NO_CURSOR) ==> Valid()
      ensures ended && WatermarkWasRead(h, w.low, staged.watermark) ==>
                && (Valid() <==> BelowStored(h, stored, w.low))
                && (NeverSkips(h, stored, staged.watermark) <==> BelowStored(h, stored, w.low))
      ensures ended && staged.watermark > (if read2 then durable.watermark else 0) ==> WatermarkWasRead(h, w.low, staged.watermark)
      ensures ok && hasSession && read1 && failAt.None? && Clean(script) && maxPages > 0 ==>
                staged.resume.None? || staged.resume.value + maxPages <= (if durable.resume.Some? then durable.resume.value else |h|)
    {
      hide Accounted, Covers, ComesFrom, ReachesWatermark, DistinctIds, Ids, Clean, IsWalk;
      hide Sound, NeverSkips, BelowStored, WatermarkWasRead, LiedTo;
      var seen := if read1 then durable else NO_CURSOR;
      var events: seq<Row>, out := [], NO_OUTCOME;
      ended, w := false, Walk(0, false, None, StartOf(h, seen.resume));
      ResumeInRange();
      NothingRead(h, seen.resume, 0, script);
      if hasSession {
        var complete, resume;
        events, complete, resume, w := FetchHistory(h, seen.resume, StopOf(seen), maxPages, script);
        ResumePoint(h, seen.resume, StopOf(seen), script, w);
        var newest := NewestEventTime(events);
        out := Outcome(complete, newest, resume);
      }
      if !snapshotSaved { return false, false, w; }
      ended := PersistProvenance(h, events, out, w.low, read1, read2, failAt);
      if ended && !LiedTo(script, w) {
        HonestEndIsSafe(h, stored, durable, durableFence, read1, script, w);
      }
      ok := true;
    }

    /**
     * Writes the rows of a walk down to `low`, reads the cursor again and stages the merge; rows that could not all be
     * written stage nothing new.
     */
    method PersistProvenance(h: seq<Row>, events: seq<Row>, out: Outcome, ghost low: nat, read1: bool, read2: bool, failAt: Option<nat>)
      returns (ghost ended: bool)
      requires Valid() && h == upstream
      requires var start := if read1 then durable.resume else None;
               && StartOf(h, start) <= |h| && low <= StartOf(h, start)
               && Covers(h, low, StartOf(h, start), events) && ComesFrom(h, low, StartOf(h, start), events)
               && (out.resume.Some? ==> low <= out.resume.value <= StartOf(h, start))
      requires out.newest != 0 ==> exists k :: 0 <= k < |events| && events[k].time == out.newest
      modifies `stored, `staged, `stagedFence, `stagedFromRead, `pendingDirty
      ensures old(stored) <= stored && Accounted(h, stored, durable, durableFence)
      ensures pendingDirty && stagedFromRead == read2 && (Valid() <==> Sound(h, stored, staged))
      ensures ended ==> out.complete
      ensures out.complete && failAt.None? ==> ended
      ensures var prev := if read2 then durable else NO_CURSOR;
              && staged == (if failAt.Some? && failAt.value <= |events| then prev else MergeProvenanceCursor(prev, out))
              && (ended && staged.watermark > prev.watermark ==> WatermarkWasRead(h, low, staged.watermark))
              && (!ended || BelowStored(h, stored, low) || staged.watermark == 0 || staged == prev ==> Valid())
      ensures ended ==> staged.resume.None?
      ensures ended && WatermarkWasRead(h, low, staged.watermark) ==>
                && (Valid() <==> BelowStored(h, stored, low))
                && (NeverSkips(h, stored, staged.watermark) <==> BelowStored(h, stored, low))
    {
      hide Accounted, WalkStored, Covers, ComesFrom, Ids;
      hide Sound, NeverSkips, BelowStored, WatermarkWasRead;
      var start := if read1 then durable.resume else None;
      var written := RecordEvents(events, failAt);
      ghost var bottom := if written then low else StartOf(h, start);
      var effective := if written then out else NO_OUTCOME;
      if written {
        WrittenWalk(h, stored, start, events, out, low);
      } else {
        NoWalk(h, stored, start);
      }
      ended := effective.complete;
      staged := MergeProvenanceCursor(if read2 then durable else NO_CURSOR, effective);
      stagedFromRead, pendingDirty := read2, true;
      if ended {
        WhenCompletionIsSound(h, stored, durable, durableFence, read1, read2, effective, bottom);
      } else {
        MergeKeepsAccounted(h, stored, durable, durableFence, read1, read2, effective, bottom);
        IsSound(h, stored, staged, MergedFence(h, start, effective, durableFence, if read2 then durableFence else 0));
      }
      stagedFence := FenceOf(h, stored, staged);
    }

    lemma {:induction false} ResumeInRange()
      requires Valid()
      ensures durable.resume.Some? ==> durable.resume.value <= |upstream|
    {
    }

    /** Publishes the staged cursor, whether it can be relied on or not; the write is best effort. */
    method SnapshotCommitted(setOk: bool)
      requires Accounted(upstream, stored, durable, durableFence)
      modifies this`durable, this`durableFence, this`pendingDirty
      ensures !pendingDirty && durable == if old(pendingDirty) && setOk then staged else old(durable)
      ensures if old(pendingDirty) && setOk then Valid() <==> Accounted(upstream, stored, staged, stagedFence) else Valid()
      ensures old(Valid()) ==> Valid() && (stagedFromRead ==> durable.watermark >= old(durable).watermark)
    {
      if !pendingDirty { return; }
      pendingDirty := false;
      if setOk {
        durable, durableFence := staged, stagedFence;
      }
    }

    /** At any moment: a row dated at or before the durable watermark is stored or still ahead of the resume cursor. */
    lemma {:induction false} DurableWatermarkIsTrue(i: nat)
      requires Valid() && i < |upstream| && 0 < upstream[i].time <= durable.watermark
      ensures upstream[i].id in stored || (durable.resume.Some? && i < durable.resume.value)
    {
      NothingBelowWatermarkIsLost(upstream, stored, durable, durableFence, i);
    }
  }
}
