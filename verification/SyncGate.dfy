/**
 * Overlapping runs of the sync service: the gate that keeps two runs of one client apart,
 * and what a full run reports. Every method of the gate runs under its mutex, so any
 * interleaving of workers is some sequence of these calls.
 */
module SyncGate {

  class Gate {
    var running: set<nat>
    // The client that each worker is syncing: what the gate is there to protect.
    ghost var active: map<nat, nat>

    /** No two workers sync one client, and the gate is closed for exactly the clients being synced. */
    ghost predicate Valid()
      reads this
    {
      && (forall v, w :: v in active && w in active && active[v] == active[w] ==> v == w)
      && running == active.Values
    }

    constructor ()
      ensures Valid() && running == {} && active == map[]
    {
      running, active := {}, map[];
    }

    /** Admits the worker unless another one is syncing the client; a refused worker changes nothing. */
    method BeginClient(id: nat, ghost worker: nat) returns (admitted: bool)
      requires Valid() && worker !in active
      modifies this
      ensures Valid()
      ensures admitted <==> forall w :: w in old(active) ==> old(active)[w] != id
      ensures active == if admitted then old(active)[worker := id] else old(active)
    {
      if id in running {
        return false;
      }
      running := running + {id};
      active := active[worker := id];
      assert active.Values == old(active).Values + {id} by {
        assert active[worker] == id;
        assert forall w :: w in old(active) ==> active[w] == old(active)[w];
      }
      return true;
    }

    /** The client is free again, and only it. */
    method EndClient(id: nat, ghost worker: nat)
      requires Valid() && worker in active && active[worker] == id
      modifies this
      ensures Valid()
      ensures active == old(active) - {worker}
      ensures id !in running
    {
      running := running - {id};
      active := active - {worker};
      assert active.Values == old(active).Values - {id} by {
        assert forall w :: w in active ==> active[w] == old(active)[w];
        forall x | x in old(active).Values && x != id ensures x in active.Values {
          var w :| w in old(active) && old(active)[w] == x;
          assert active[w] == x;
        }
      }
    }
  }

  /**
   * What meets one client in a run: whether the gate admits it, whether its sync ends without an error, whether the
   * context is cancelled when the sync has ended, and the clock at that moment.
   */
  datatype Attempt = Attempt(admitted: bool, syncOk: bool, cancelled: bool, at: int)

  /** The client's data was fetched and saved by this attempt. */
  predicate Synced(a: Attempt) {
    a.admitted && a.syncOk
  }

  /** The attempt is counted as an error. */
  predicate Fails(a: Attempt) {
    a.admitted && !a.syncOk && !a.cancelled
  }

  /** What a full run returns: `gateFree` says that no other full run is under way. */
  ghost predicate ReportsSuccess(gateFree: bool, attempts: seq<Attempt>) {
    !gateFree || attempts == [] || exists a :: a in attempts && !Fails(a)
  }

  class Service {
    var lastRun: int

    constructor (t: int)
      ensures lastRun == t
    {
      lastRun := t;
    }

    /** One client: its own run moves `lastRun` only after a sync that nothing cancelled. */
    method RunClient(a: Attempt) returns (failed: bool)
      modifies this
      ensures failed <==> Fails(a)
      ensures lastRun == if Synced(a) && !a.cancelled then a.at else old(lastRun)
    {
      if !a.admitted {
        return false;
      }
      if !a.syncOk && !a.cancelled {
        return true;
      }
      if !a.cancelled {
        lastRun := a.at;
      }
      return false;
    }

    /**
     * A full run of all clients, in the order in which they end. One that meets another full run returns at once,
     * without an error. Otherwise it is an error exactly when there are clients and each of them fails, and only
     * then `lastRun` stays.
     */
    method RunOnce(gateFree: bool, attempts: seq<Attempt>, now: int) returns (ok: bool)
      modifies this
      ensures ok <==> ReportsSuccess(gateFree, attempts)
      ensures lastRun == if gateFree && ok then now else old(lastRun)
    {
      if !gateFree {
        return true;
      }
      var failed := 0;
      var i := 0;
      while i < |attempts|
        invariant 0 <= i <= |attempts| && 0 <= failed <= i
        invariant failed == i <==> forall k :: 0 <= k < i ==> Fails(attempts[k])
        invariant failed == i ==> lastRun == old(lastRun)
      {
        var f := RunClient(attempts[i]);
        if f {
          failed := failed + 1;
        }
        i := i + 1;
      }
      if |attempts| > 0 && failed == |attempts| {
        return false;
      }
      lastRun := now;
      return true;
    }
  }

  /** This run fetched and saved the data of some client. */
  ghost predicate SyncsSomething(gateFree: bool, attempts: seq<Attempt>) {
    gateFree && exists a :: a in attempts && Synced(a)
  }

  /**
   * A run that synced something reports success. One that did not reports it exactly when it met another full run,
   * had no clients, or some client was skipped as already running or cancelled; only in the first of these cases
   * `lastRun` does not move with it.
   */
  lemma {:induction false} WhenSuccessMeansSynced(gateFree: bool, attempts: seq<Attempt>)
    ensures SyncsSomething(gateFree, attempts) ==> ReportsSuccess(gateFree, attempts)
    ensures !SyncsSomething(gateFree, attempts) ==>
              (ReportsSuccess(gateFree, attempts) <==>
               !gateFree || attempts == [] || exists a :: a in attempts && (!a.admitted || a.cancelled))
  {
    if !SyncsSomething(gateFree, attempts) && gateFree {
      forall a | a in attempts ensures Fails(a) <==> a.admitted && !a.cancelled {
        assert !Synced(a);
      }
    }
  }

  /** Each of these happens: a coalesced run, one skipped client, and one client cancelled while it fetched. */
  lemma {:induction false} SuccessWithoutASync(at: int)
    ensures forall attempts :: ReportsSuccess(false, attempts) && !SyncsSomething(false, attempts)
    ensures var skipped := [Attempt(false, false, false, at)]; ReportsSuccess(true, skipped) && !SyncsSomething(true, skipped)
    ensures var cancelled := [Attempt(true, false, true, at)]; ReportsSuccess(true, cancelled) && !SyncsSomething(true, cancelled)
  {
    assert Attempt(false, false, false, at) in [Attempt(false, false, false, at)];
    assert Attempt(true, false, true, at) in [Attempt(true, false, true, at)];
  }
}
