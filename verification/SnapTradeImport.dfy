/**
 * The paged SnapTrade activity import of one account. Upstream is a list that only
 * grows at its end; the provider serves the records dated on or after a start date by
 * offset. The sink stores a page and then checkpoints the offset in the account row.
 */
module SnapTradeImport {
  import opened Prelude

  /** An upstream record; an invalid one cannot be mapped and is skipped with a warning. */
  datatype Record = Record(date: int, valid: bool)

  /**
   * One request: the provider's answer and the two writes of the sink. `count` records
   * exist upstream. A page that names the total may be short; one that does not is as
   * long as the limit and the list allow.
   */
  datatype Request = RequestFailed
                   | Served(count: nat, size: nat, hasTotal: bool, upsertOk: bool, checkpointOk: bool, completedAt: int)

  datatype Outcome = Completed | FetchError | NoProgress | SinkError | Interrupted

  /** The positions of the records dated on or after `start`, in upstream order. */
  function Visible(up: seq<Record>, start: int): (list: seq<nat>)
    ensures |list| <= |up| && forall k :: 0 <= k < |list| ==> list[k] < |up| && up[list[k]].date >= start
  {
    if up == [] then []
    else
      var n := |up| - 1;
      var rest := Visible(up[..n], start);
      if up[n].date >= start then rest + [n] else rest
  }

  /** An append-only upstream only appends to what an offset addresses. */
  lemma {:induction false} VisibleGrowsAtTheEnd(up: seq<Record>, count: nat, start: int)
    requires count <= |up|
    ensures Visible(up[..count], start) <= Visible(up, start)
  {
    if count < |up| {
      var n := |up| - 1;
      assert up[..n][..count] == up[..count];
      VisibleGrowsAtTheEnd(up[..n], count, start);
    } else {
      assert up[..count] == up;
    }
  }

  lemma {:induction false} VisibleMisses(up: seq<Record>, start: int, i: nat)
    requires i < |up| && up[i].date >= start
    ensures i in Visible(up, start)
  {
    var n := |up| - 1;
    if i < n {
      assert up[..n][i] == up[i];
      VisibleMisses(up[..n], start, i);
    }
  }

  /** Every valid record among the first `upTo` visible ones was handed to storage. */
  ghost predicate Handed(up: seq<Record>, start: int, upTo: nat, stored: set<nat>) {
    upTo <= |Visible(up, start)| && forall k :: 0 <= k < upTo ==> IsHanded(up, Visible(up, start)[k], stored)
  }

  predicate IsHanded(up: seq<Record>, i: nat, stored: set<nat>)
    requires i < |up|
  {
    up[i].valid ==> i in stored
  }

  /** Everything that the import promises among the first `fence` upstream records. */
  ghost predicate AllHanded(up: seq<Record>, start: int, fence: nat, stored: set<nat>) {
    fence <= |up| && forall i :: 0 <= i < fence && up[i].valid && up[i].date >= start ==> i in stored
  }

  lemma {:induction false} HandedSurvives(up: seq<Record>, world: seq<Record>, start: int, upTo: nat,
                                          stored: set<nat>, stored': set<nat>)
    requires Handed(up, start, upTo, stored) && up <= world && stored <= stored'
    ensures Handed(world, start, upTo, stored')
  {
    assert world[..|up|] == up;
    VisibleGrowsAtTheEnd(world, |up|, start);
    forall k | 0 <= k < upTo ensures IsHanded(world, Visible(world, start)[k], stored') {
      assert Visible(world, start)[k] == Visible(up, start)[k];
      assert IsHanded(up, Visible(up, start)[k], stored);
    }
  }

  /** One stored page moves the boundary by its length: pages tile without a gap. */
  lemma {:induction false} PageExtendsHanded(world: seq<Record>, start: int, count: nat, offset: nat, size: nat,
                                             mapped: set<nat>, stored: set<nat>)
    requires count <= |world| && Handed(world, start, offset, stored)
    requires offset + size <= |Visible(world[..count], start)|
    requires forall k :: offset <= k < offset + size ==> IsHanded(world[..count], Visible(world[..count], start)[k], mapped)
    ensures Handed(world, start, offset + size, stored + mapped)
  {
    var list := Visible(world[..count], start);
    VisibleGrowsAtTheEnd(world, count, start);
    forall k | 0 <= k < offset + size ensures IsHanded(world, Visible(world, start)[k], stored + mapped) {
      assert Visible(world, start)[k] == list[k];
      if k < offset {
        assert IsHanded(world, Visible(world, start)[k], stored);
      } else {
        assert IsHanded(world[..count], list[k], mapped);
      }
    }
  }

  /** The whole list was handed over: nothing visible is left among the first `count` records. */
  lemma {:induction false} EndOfListIsEverything(world: seq<Record>, start: int, count: nat, upTo: nat, stored: set<nat>)
    requires count <= |world| && Handed(world, start, upTo, stored) && upTo >= |Visible(world[..count], start)|
    ensures AllHanded(world, start, count, stored)
  {
    VisibleGrowsAtTheEnd(world, count, start);
    forall i | 0 <= i < count && world[i].valid && world[i].date >= start ensures i in stored {
      assert world[..count][i] == world[i];
      VisibleMisses(world[..count], start, i);
      var k :| 0 <= k < |Visible(world[..count], start)| && Visible(world[..count], start)[k] == i;
      assert Visible(world, start)[k] == i;
      assert IsHanded(world, i, stored);
    }
  }

  /** An incremental pass adds what is new to what was complete before. */
  lemma {:induction false} IncrementalCompletes(world: seq<Record>, historyStart: int, start: int, fence: nat, count: nat, stored: set<nat>)
    requires AllHanded(world, historyStart, fence, stored) && AllHanded(world, start, count, stored)
    requires forall i :: fence <= i < |world| ==> world[i].date >= start
    ensures AllHanded(world, historyStart, count, stored)
  {
  }

  /** The valid records of one page, and the earliest of their dates. */
  method MapPage(up: seq<Record>, list: seq<nat>, from: nat, to: nat) returns (mapped: set<nat>, first: Option<int>)
    requires from <= to <= |list| && forall k :: 0 <= k < |list| ==> list[k] < |up|
    ensures forall i :: i in mapped ==> exists k :: from <= k < to && list[k] == i && up[i].valid
    ensures forall k :: from <= k < to ==> IsHanded(up, list[k], mapped)
    ensures first.None? <==> mapped == {}
    ensures first.Some? ==> forall i :: i in mapped ==> first.value <= up[i].date
    ensures first.Some? ==> exists i :: i in mapped && up[i].date == first.value
  {
    mapped, first := {}, None;
    for k := from to to
      invariant forall i :: i in mapped ==> exists j :: from <= j < k && list[j] == i && up[i].valid
      invariant forall j :: from <= j < k ==> IsHanded(up, list[j], mapped)
      invariant first.None? <==> mapped == {}
      invariant first.Some? ==> forall i :: i in mapped ==> first.value <= up[i].date
      invariant first.Some? ==> exists i :: i in mapped && up[i].date == first.value
    {
      var i := list[k];
      if up[i].valid {
        if first.None? || up[i].date < first.value { first := Some(up[i].date); }
        mapped := mapped + {i};
      }
    }
  }

  lemma {:induction false} AllHandedSurvives(up: seq<Record>, start: int, fence: nat, stored: set<nat>, stored': set<nat>)
    requires AllHanded(up, start, fence, stored) && stored <= stored'
    ensures AllHanded(up, start, fence, stored')
  {
  }

  lemma {:induction false} LaterListIsLonger(world: seq<Record>, count: nat, later: nat, start: int)
    requires count <= later <= |world|
    ensures |Visible(world[..count], start)| <= |Visible(world[..later], start)| <= |Visible(world, start)|
  {
    assert world[..later][..count] == world[..count];
    VisibleGrowsAtTheEnd(world[..later], count, start);
    VisibleGrowsAtTheEnd(world, later, start);
  }

  class AccountImport {
    const historyStart: int
    const overlap: nat
    const pageSize: nat
    var activitySyncOffset: nat
    var initialTxSyncDone: bool
    var lastTxSync: int
    var firstTxDate: Option<int>
    /** Upstream positions whose activities are stored. */
    var stored: set<nat>
    ghost var upstream: seq<Record>
    /** How many records existed at the last request of the last completed pass. */
    ghost var fence: nat

    ghost predicate Valid()
      reads this
    {
      && pageSize >= 1 && fence <= |upstream|
      && (!initialTxSyncDone ==> Handed(upstream, historyStart, activitySyncOffset, stored))
      && (initialTxSyncDone ==> AllHanded(upstream, historyStart, fence, stored))
    }

    constructor (start: int, overlapTime: nat, limit: nat)
      requires limit >= 1
      ensures Valid() && upstream == [] && !initialTxSyncDone && activitySyncOffset == 0
    {
      historyStart, overlap, pageSize := start, overlapTime, limit;
      activitySyncOffset, initialTxSyncDone, lastTxSync, firstTxDate := 0, false, 0, None;
      stored, upstream, fence := {}, [], 0;
    }

    /** Stores a checkpoint, or atomically marks a completed pass. */
    method UpdateActivitySyncProgress(nextOffset: nat, first: Option<int>, completedAt: Option<int>)
      modifies `activitySyncOffset, `firstTxDate, `lastTxSync, `initialTxSyncDone
      ensures activitySyncOffset == if completedAt.Some? then 0 else nextOffset
      ensures initialTxSyncDone == (old(initialTxSyncDone) || completedAt.Some?)
      ensures lastTxSync == if completedAt.Some? then completedAt.value else old(lastTxSync)
      ensures firstTxDate == if first.None? then old(firstTxDate)
                             else if old(firstTxDate).None? then first
                             else Some(Min(old(firstTxDate).value, first.value))
    {
      activitySyncOffset := nextOffset;
      if first.Some? && (firstTxDate.None? || firstTxDate.value > first.value) {
        firstTxDate := first;
      }
      if completedAt.Some? {
        lastTxSync, initialTxSyncDone, activitySyncOffset := completedAt.value, true, 0;
      }
    }

    /** The sink: the batch is stored atomically, and only then the checkpoint moves. */
    method PersistActivityPage(items: set<nat>, first: Option<int>, nextOffset: nat, complete: bool,
                               upsertOk: bool, checkpointOk: bool, completedAt: int) returns (ok: bool)
      modifies `stored, `activitySyncOffset, `firstTxDate, `lastTxSync, `initialTxSyncDone
      ensures ok <==> (items == {} || upsertOk) && checkpointOk
      ensures stored == if items == {} || !upsertOk then old(stored) else old(stored) + items
      ensures !ok ==> unchanged(`activitySyncOffset, `firstTxDate, `lastTxSync, `initialTxSyncDone)
      ensures ok ==> activitySyncOffset == (if complete then 0 else nextOffset)
                     && initialTxSyncDone == (old(initialTxSyncDone) || complete)
                     && lastTxSync == (if complete then completedAt else old(lastTxSync))
    {
      if items != {} {
        if !upsertOk { return false; }
        stored := stored + items;
      }
      if !checkpointOk { return false; }
      UpdateActivitySyncProgress(nextOffset, first, if complete then Some(completedAt) else None);
      ok := true;
    }

    /** At the start of a pass nothing is lost by looking at the grown upstream. */
    lemma {:induction false} PassBegins(world: seq<Record>, startDate: int, offset: nat)
      requires Valid() && upstream <= world
      requires initialTxSyncDone ==> offset == 0
      requires !initialTxSyncDone ==> startDate == historyStart && offset == activitySyncOffset
      ensures Handed(world, startDate, offset, stored)
      ensures initialTxSyncDone ==> AllHanded(world, historyStart, fence, stored)
      ensures offset <= |Visible(world[..|upstream|], startDate)| <= |Visible(world, startDate)|
    {
      LaterListIsLonger(world, |upstream|, |world|, startDate);
      assert world[..|world|] == world && world[..|upstream|] == upstream;
      if !initialTxSyncDone {
        HandedSurvives(upstream, world, historyStart, offset, stored, stored);
      } else {
        forall i | 0 <= i < fence && world[i].valid && world[i].date >= historyStart ensures i in stored {
          assert upstream[i] == world[i];
        }
      }
    }

    /** Why a pass stopped at a request. */
    predicate EndsWith(last: Request, outcome: Outcome) {
      match outcome
      case Completed => last.Served? && last.checkpointOk
      case FetchError => last.RequestFailed?
      case NoProgress => last.Served? && last.hasTotal && last.size == 0
      case SinkError => last.Served? && !(last.upsertOk && last.checkpointOk)
      case Interrupted => true
    }

    /** Counts the requests see only grow, up to what exists when the pass ends. */
    predicate CountsGrow(script: seq<Request>, from: nat, to: nat) {
      && (forall k :: 0 <= k < |script| && script[k].Served? ==> from <= script[k].count <= to)
      && (forall j, k :: 0 <= j < k < |script| && script[j].Served? && script[k].Served? ==> script[j].count <= script[k].count)
    }

    /**
     * One pass over an account. `world` is upstream when the pass ends; a crash is a
     * script that ends early. Whatever happens, the durable offset of an open initial
     * pass stays below what was handed over, and completion means the whole list.
     */
    method StreamActivities(script: seq<Request>, world: seq<Record>) returns (outcome: Outcome, requests: nat)
      requires Valid() && upstream <= world && CountsGrow(script, |upstream|, |world|)
      requires initialTxSyncDone ==> forall i :: fence <= i < |world| ==> world[i].date >= lastTxSync - overlap
      modifies this
      ensures Valid() && upstream == world && old(stored) <= stored
      ensures old(initialTxSyncDone) ==> initialTxSyncDone
      ensures initialTxSyncDone && !old(initialTxSyncDone) <==> !old(initialTxSyncDone) && outcome == Completed
      ensures !initialTxSyncDone ==> activitySyncOffset >= old(activitySyncOffset)
      ensures outcome == Completed ==> 0 < requests <= |script| && script[requests - 1].Served? && fence == script[requests - 1].count
      ensures outcome == Completed ==> AllHanded(world, historyStart, fence, stored)
      ensures outcome != Completed ==> fence == old(fence)
      ensures requests <= |script| && (outcome == Interrupted ==> requests == |script|)
      ensures requests <= |Visible(world, if old(initialTxSyncDone) then old(lastTxSync) - overlap else historyStart)|
                          - (if old(initialTxSyncDone) then 0 else old(activitySyncOffset))
                          + (if outcome == Interrupted then 0 else 1)
      ensures outcome != Interrupted ==> 0 < requests <= |script| && EndsWith(script[requests - 1], outcome)
    {
      hide Handed, AllHanded, Visible, IsHanded;
      var startDate, offset: nat := historyStart, activitySyncOffset;
      if initialTxSyncDone {
        offset, startDate := 0, lastTxSync - overlap;
      }
      ghost var first, wasDone, before := offset, initialTxSyncDone, stored;
      ghost var count: nat := |upstream|;
      PassBegins(world, startDate, offset);
      upstream := world;
      requests := 0;
      while requests < |script|
        invariant Valid() && upstream == world && before <= stored && initialTxSyncDone == wasDone && fence == old(fence)
        invariant Handed(world, startDate, offset, stored)
        invariant wasDone || (activitySyncOffset == offset && startDate == historyStart)
        invariant requests <= offset - first && requests <= |script|
        invariant count <= |world| && offset <= |Visible(world[..count], startDate)| && |Visible(world[..count], startDate)| <= |Visible(world, startDate)|
        invariant forall k :: requests <= k < |script| && script[k].Served? ==> count <= script[k].count <= |world|
      {
        var request := script[requests];
        requests := requests + 1;
        if request.RequestFailed? { return FetchError, requests; }
        LaterListIsLonger(world, count, request.count, startDate);
        count := request.count;
        var list := Visible(world[..request.count], startDate);
        var available := Min(pageSize, |list| - offset);
        var size := if request.hasTotal then Min(request.size, available) else available;
        var mapped, firstDate := MapPage(world[..request.count], list, offset, offset + size);
        var nextOffset := offset + size;
        var complete := if request.hasTotal then nextOffset >= |list| else size == 0 || size < pageSize;
        if nextOffset <= offset && !complete { return NoProgress, requests; }
        PageExtendsHanded(world, startDate, count, offset, size, mapped, stored);
        ghost var stored0 := stored;
        var ok := PersistActivityPage(mapped, firstDate, nextOffset, complete, request.upsertOk, request.checkpointOk, request.completedAt);
        HandedSurvives(world, world, startDate, offset, stored0, stored);
        if wasDone {
          AllHandedSurvives(world, historyStart, fence, stored0, stored);
        }
        if !ok { return SinkError, requests; }
        assert stored == stored0 + mapped;
        if complete {
          EndOfListIsEverything(world, startDate, count, nextOffset, stored);
          if wasDone {
            IncrementalCompletes(world, historyStart, startDate, fence, count, stored);
          }
          fence := count;
          return Completed, requests;
        }
        offset := nextOffset;
      }
      outcome := Interrupted;
    }
  }
}
