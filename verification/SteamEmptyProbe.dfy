/**
 * When a complete but empty Steam inventory may clear the holdings: only when nothing was held,
 * or when it is seen a second time with no complete inventory in between. Times are milliseconds;
 * a probe is stored in whole seconds.
 */
module SteamEmptyProbe {
  import opened Prelude

  datatype Snapshot = Snapshot(takenAt: nat, assets: nat)

  /** What happened so far: complete inventories that were stored, and empty ones that were refused. */
  datatype Entry = Stored(at: nat, assets: nat) | Refused(at: nat)

  /** Committed: the inventory was accepted; Declined: an empty one failed closed; Aborted: a read or write failed. */
  datatype Outcome = Committed | Declined | Aborted

  function WholeSeconds(t: nat): nat {
    t - t % 1000
  }

  predicate Chronological(log: seq<Entry>) {
    forall i, j :: 0 <= i < j < |log| ==> log[i].at < log[j].at
  }

  function LatestStored(log: seq<Entry>): Option<Snapshot> {
    if log == [] then None
    else if log[|log| - 1].Stored? then Some(Snapshot(log[|log| - 1].at, log[|log| - 1].assets))
    else LatestStored(log[..|log| - 1])
  }

  /** An empty inventory was refused, and no complete one has been stored since. */
  ghost predicate RefusedSinceLastStored(log: seq<Entry>) {
    exists k :: 0 <= k < |log| && log[k].Refused? && forall j :: k < j < |log| ==> !log[j].Stored?
  }

  lemma {:induction false} LatestIsLast(log: seq<Entry>, k: nat)
    requires k < |log| && log[k].Stored? && Chronological(log)
    ensures LatestStored(log).Some? && log[k].at <= LatestStored(log).value.takenAt
  {
    if !log[|log| - 1].Stored? {
      LatestIsLast(log[..|log| - 1], k);
    }
  }

  /** A probe that is not older than the latest stored inventory was taken after it. */
  lemma {:induction false} ProbeIsConsecutive(log: seq<Entry>, k: nat)
    requires k < |log| && log[k].Refused? && Chronological(log)
    requires LatestStored(log).Some? && LatestStored(log).value.takenAt <= WholeSeconds(log[k].at)
    ensures RefusedSinceLastStored(log)
  {
  }

  ghost predicate ProbeIsLogged(log: seq<Entry>, probe: Option<nat>) {
    probe.Some? ==> exists k :: 0 <= k < |log| && log[k].Refused? && probe.value == WholeSeconds(log[k].at)
  }

  lemma {:induction false} LogGrows(log: seq<Entry>, e: Entry, probe: Option<nat>)
    requires Chronological(log) && (log == [] || log[|log| - 1].at < e.at) && ProbeIsLogged(log, probe)
    ensures Chronological(log + [e]) && ProbeIsLogged(log + [e], probe)
    ensures LatestStored(log + [e]) == if e.Stored? then Some(Snapshot(e.at, e.assets)) else LatestStored(log)
    ensures e.Refused? ==> ProbeIsLogged(log + [e], Some(WholeSeconds(e.at)))
  {
    var more := log + [e];
    assert more[..|log|] == log && more[|log|] == e;
    assert forall k :: 0 <= k < |log| ==> more[k] == log[k];
  }

  class Inventory {
    var latest: Option<Snapshot>
    var probe: Option<nat>
    ghost var log: seq<Entry>

    ghost predicate Valid()
      reads this
    {
      && Chronological(log) && latest == LatestStored(log)
      && ProbeIsLogged(log, probe)
    }

    constructor ()
      ensures Valid() && log == []
    {
      latest, probe, log := None, None, [];
    }

    /** Whether a complete empty inventory may be accepted; None when the snapshot cannot be read. */
    method ConfirmEmptyInventory(snapshotReadable: bool, probeReadable: bool) returns (confirmed: Option<bool>)
      requires Valid()
      ensures confirmed.None? <==> !snapshotReadable
      ensures confirmed == Some(true) && latest.Some? && latest.value.assets > 0 ==> RefusedSinceLastStored(log)
      ensures snapshotReadable && probeReadable ==>
                (confirmed == Some(true) <==> latest.None? || latest.value.assets == 0 || (probe.Some? && latest.value.takenAt <= probe.value))
    {
      if !snapshotReadable {
        return None;
      }
      if latest.None? || latest.value.assets == 0 {
        return Some(true);
      }
      if probeReadable && probe.Some? && !(latest.value.takenAt > probe.value) {
        ghost var k :| 0 <= k < |log| && log[k].Refused? && probe.value == WholeSeconds(log[k].at);
        ProbeIsConsecutive(log, k);
        return Some(true);
      }
      return Some(false);
    }

    /** One sync's inventory. A stored non-empty inventory is only ever replaced by an empty one that was
        refused before, with nothing complete stored in between. */
    method SyncInventory(assets: nat, complete: bool, now: nat, snapshotReadable: bool, probeReadable: bool, snapshotWrites: bool, probeWrites: bool)
      returns (outcome: Outcome)
      requires Valid() && (log == [] || log[|log| - 1].at < now)
      modifies this
      ensures Valid()
      ensures log == old(log) + (if outcome == Committed && complete then [Stored(now, assets)]
                                 else if outcome == Declined then [Refused(now)] else [])
      ensures outcome == Committed && complete && assets == 0 && old(latest).Some? && old(latest).value.assets > 0 ==>
                RefusedSinceLastStored(old(log))
      ensures outcome == Declined ==> complete && assets == 0 && latest == old(latest)
      ensures outcome == Declined && probeWrites ==> probe == Some(WholeSeconds(now))
    {
      var confirmed := true;
      if assets == 0 && complete {
        var c := ConfirmEmptyInventory(snapshotReadable, probeReadable);
        if c.None? {
          return Aborted;
        }
        confirmed := c.value;
      }
      if !snapshotWrites {
        return Aborted;
      }
      hide Chronological, LatestStored, ProbeIsLogged, RefusedSinceLastStored;
      if !confirmed {
        LogGrows(log, Refused(now), probe);
        log := log + [Refused(now)];
        if probeWrites {
          probe := Some(WholeSeconds(now));
        }
        return Declined;
      }
      if complete {
        LogGrows(log, Stored(now, assets), probe);
        log := log + [Stored(now, assets)];
        latest := Some(Snapshot(now, assets));
      }
      return Committed;
    }
  }
}
