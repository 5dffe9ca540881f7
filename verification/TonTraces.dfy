/**
 * The walk down a TON message tree, and the vault detection that rests on it.
 * Hashes and accounts are numbered in the order of their strings; 0 is the empty string.
 */
module TonTraces {
  import opened Prelude

  datatype Msg = Msg(hash: nat, destination: nat)

  datatype Tx = Tx(account: nat, inHash: nat, outs: seq<Msg>)

  datatype Tree = Tree(order: seq<nat>, txs: map<nat, Tx>)

  /** Position in the indexer's order: the last one listed, and 0 for a transaction that is not listed. */
  function Rank(order: seq<nat>, h: nat): nat {
    if order == [] then 0
    else if order[|order| - 1] == h then |order| - 1
    else Rank(order[..|order| - 1], h)
  }

  // ---------------------------------------------------------------- causal edges

  ghost predicate Delivers(tree: Tree, m: Msg, b: nat) {
    m.hash != 0 && b in tree.txs && tree.txs[b].inHash == m.hash
  }

  ghost predicate Matched(tree: Tree, m: Msg) {
    exists b :: Delivers(tree, m, b)
  }

  /** Where an unmatched message may be taken to arrive: a later transaction of its destination. */
  ghost predicate FallsTo(tree: Tree, a: nat, m: Msg, b: nat) {
    && !Matched(tree, m) && m.destination != 0
    && b != a && b in tree.txs && tree.txs[b].account == m.destination
    && Rank(tree.order, a) <= Rank(tree.order, b)
  }

  ghost predicate Edge(tree: Tree, a: nat, b: nat) {
    a in tree.txs && exists m :: m in tree.txs[a].outs && (Delivers(tree, m, b) || FallsTo(tree, a, m, b))
  }

  ghost predicate Least(tree: Tree, a: nat, m: Msg, b: nat) {
    FallsTo(tree, a, m, b) && forall c :: FallsTo(tree, a, m, c) ==> Rank(tree.order, b) <= Rank(tree.order, c)
  }

  /** The message leads into s: to a consumer, or to the earliest place it can fall to, if there is any. */
  ghost predicate Answered(tree: Tree, a: nat, m: Msg, s: set<nat>) {
    && (Matched(tree, m) ==> exists b :: b in s && Delivers(tree, m, b))
    && (0 !in tree.txs && (exists c :: FallsTo(tree, a, m, c)) ==> exists b :: b in s && Least(tree, a, m, b))
  }

  ghost predicate Closed(tree: Tree, reached: seq<nat>, s: set<nat>) {
    forall a, m :: a in reached && a in tree.txs && m in tree.txs[a].outs ==> Answered(tree, a, m, s)
  }

  ghost predicate Caused(tree: Tree, reached: seq<nat>, h: nat) {
    exists a :: a in reached && Edge(tree, a, h)
  }

  ghost predicate CausedAt(tree: Tree, reached: seq<nat>, k: nat)
    requires k < |reached|
  {
    Caused(tree, reached[..k], reached[k])
  }

  /** What the walk returns: each transaction once, the start first, each other one caused by an earlier one,
      and no message of a reached transaction left unfollowed. */
  ghost predicate IsWalk(tree: Tree, start: nat, reached: seq<nat>) {
    && (forall i, j :: 0 <= i < j < |reached| ==> reached[i] != reached[j])
    && (forall h :: h in reached ==> h in tree.txs)
    && (start in tree.txs <==> reached != []) && (reached != [] ==> reached[0] == start)
    && (forall k: nat :: 0 < k < |reached| ==> CausedAt(tree, reached, k))
    && Closed(tree, reached, Elements(reached))
  }

  // ---------------------------------------------------------------- the two indexes

  ghost predicate IsInHashIndex(byInHash: map<nat, nat>, tree: Tree) {
    && (forall k :: k in byInHash ==> k != 0 && byInHash[k] in tree.txs && tree.txs[byInHash[k]].inHash == k)
    && (forall h :: h in tree.txs && tree.txs[h].inHash != 0 ==> tree.txs[h].inHash in byInHash)
  }

  method IndexByInHash(tree: Tree) returns (byInHash: map<nat, nat>)
    ensures IsInHashIndex(byInHash, tree)
  {
    byInHash := map[];
    var keys := tree.txs.Keys;
    while keys != {}
      invariant keys <= tree.txs.Keys
      invariant forall k :: k in byInHash ==> k != 0 && byInHash[k] in tree.txs && tree.txs[byInHash[k]].inHash == k
      invariant forall h :: h in tree.txs && h !in keys && tree.txs[h].inHash != 0 ==> tree.txs[h].inHash in byInHash
      decreases |keys|
    {
      var h :| h in keys;
      keys := keys - {h};
      if tree.txs[h].inHash != 0 {
        byInHash := byInHash[tree.txs[h].inHash := h];
      }
    }
  }

  function Position(positions: map<nat, nat>, h: nat): nat {
    if h in positions then positions[h] else 0
  }

  method IndexByOrder(order: seq<nat>) returns (positions: map<nat, nat>)
    ensures forall h: nat :: Position(positions, h) == Rank(order, h)
  {
    positions := map[];
    var i := 0;
    while i < |order|
      invariant 0 <= i <= |order|
      invariant forall h: nat :: Position(positions, h) == Rank(order[..i], h)
    {
      assert order[..i + 1][..i] == order[..i];
      positions := positions[order[i] := i];
      i := i + 1;
    }
    assert order[..i] == order;
  }

  // ---------------------------------------------------------------- one message

  /** The unvisited transaction of least rank at or after h on the destination, in any order of the map. */
  method Fallback(tree: Tree, positions: map<nat, nat>, h: nat, m: Msg, visited: set<nat>) returns (best: nat)
    requires forall x: nat :: Position(positions, x) == Rank(tree.order, x)
    requires h in visited && !Matched(tree, m) && m.destination != 0
    ensures best != 0 ==> FallsTo(tree, h, m, best) && best !in visited
    ensures 0 !in tree.txs ==> forall c :: FallsTo(tree, h, m, c) && c !in visited ==>
                                 best != 0 && Rank(tree.order, best) <= Rank(tree.order, c)
  {
    best := 0;
    var keys := tree.txs.Keys;
    while keys != {}
      invariant keys <= tree.txs.Keys
      invariant best != 0 ==> FallsTo(tree, h, m, best) && best !in visited
      invariant 0 !in tree.txs ==> forall c :: c !in keys && FallsTo(tree, h, m, c) && c !in visited ==>
                                     best != 0 && Rank(tree.order, best) <= Rank(tree.order, c)
      decreases |keys|
    {
      var c :| c in keys;
      keys := keys - {c};
      if tree.txs[c].account == m.destination && c !in visited {
        if Position(positions, c) >= Position(positions, h) && (best == 0 || Position(positions, c) < Position(positions, best)) {
          best := c;
        }
      }
    }
  }

  lemma {:induction false} LeastExists(tree: Tree, a: nat, m: Msg, c: nat)
    requires FallsTo(tree, a, m, c)
    ensures exists b :: Least(tree, a, m, b)
    decreases Rank(tree.order, c)
  {
    if d :| FallsTo(tree, a, m, d) && Rank(tree.order, d) < Rank(tree.order, c) {
      LeastExists(tree, a, m, d);
    } else {
      assert Least(tree, a, m, c);
    }
  }

  /** Where one message leads; following it answers it. */
  method Next(tree: Tree, byInHash: map<nat, nat>, positions: map<nat, nat>, h: nat, m: Msg, visited: set<nat>) returns (next: Option<nat>)
    requires IsInHashIndex(byInHash, tree)
    requires forall x: nat :: Position(positions, x) == Rank(tree.order, x)
    requires h in visited && h in tree.txs && m in tree.txs[h].outs
    ensures next.Some? ==> next.value in tree.txs && Edge(tree, h, next.value)
    ensures Answered(tree, h, m, (visited * tree.txs.Keys) + if next.Some? then {next.value} else {})
  {
    if m.hash in byInHash {
      assert Delivers(tree, m, byInHash[m.hash]);
      return Some(byInHash[m.hash]);
    }
    assert !Matched(tree, m);
    if m.destination == 0 {
      return None;
    }
    var best := Fallback(tree, positions, h, m, visited);
    next := if best != 0 then Some(best) else None;
    ghost var s := (visited * tree.txs.Keys) + if next.Some? then {next.value} else {};
    if 0 !in tree.txs && exists c :: FallsTo(tree, h, m, c) {
      ghost var c :| FallsTo(tree, h, m, c);
      LeastExists(tree, h, m, c);
      ghost var b :| Least(tree, h, m, b);
      if b !in visited {
        assert Least(tree, h, m, best);
      }
    }
  }

  // ---------------------------------------------------------------- the walk

  function Sent(tree: Tree, h: nat): seq<Msg> {
    if h in tree.txs then tree.txs[h].outs else []
  }

  lemma {:induction false} AnsweredGrows(tree: Tree, a: nat, m: Msg, s: set<nat>, t: set<nat>)
    requires Answered(tree, a, m, s) && forall x :: x in s && x in tree.txs ==> x in t
    ensures Answered(tree, a, m, t)
  {
  }

  lemma {:induction false} ClosedGrows(tree: Tree, reached: seq<nat>, s: set<nat>, t: set<nat>)
    requires Closed(tree, reached, s) && forall x :: x in s && x in tree.txs ==> x in t
    ensures Closed(tree, reached, t)
  {
  }

  /** Follows every message of one transaction. */
  method Enqueue(tree: Tree, byInHash: map<nat, nat>, positions: map<nat, nat>, h: nat, visited: set<nat>, queue: seq<nat>)
    returns (longer: seq<nat>)
    requires IsInHashIndex(byInHash, tree)
    requires forall x: nat :: Position(positions, x) == Rank(tree.order, x)
    requires h in visited && h in tree.txs
    ensures queue <= longer
    ensures forall k :: |queue| <= k < |longer| ==> longer[k] in tree.txs && Edge(tree, h, longer[k])
    ensures forall m :: m in tree.txs[h].outs ==> Answered(tree, h, m, (visited * tree.txs.Keys) + Elements(longer))
  {
    hide Answered, IsInHashIndex, Edge;
    longer := queue;
    var outs := tree.txs[h].outs;
    var i := 0;
    while i < |outs|
      invariant 0 <= i <= |outs|
      invariant queue <= longer
      invariant forall k :: |queue| <= k < |longer| ==> longer[k] in tree.txs && Edge(tree, h, longer[k])
      invariant forall k :: 0 <= k < i ==> Answered(tree, h, outs[k], (visited * tree.txs.Keys) + Elements(longer))
    {
      var next := Next(tree, byInHash, positions, h, outs[i], visited);
      ghost var before := (visited * tree.txs.Keys) + Elements(longer);
      ghost var direct := (visited * tree.txs.Keys) + if next.Some? then {next.value} else {};
      if next.Some? && next.value !in visited {
        longer := longer + [next.value];
      }
      ghost var after := (visited * tree.txs.Keys) + Elements(longer);
      AnsweredGrows(tree, h, outs[i], direct, after);
      forall k | 0 <= k < i ensures Answered(tree, h, outs[k], after) {
        AnsweredGrows(tree, h, outs[k], before, after);
      }
      i := i + 1;
    }
  }

  function AccountsOf(tree: Tree, reached: seq<nat>): set<nat> {
    set h | h in reached && h in tree.txs && tree.txs[h].account != 0 :: tree.txs[h].account
  }

  /** Each transaction once, the start first, each other one caused by an earlier one. */
  ghost predicate Chain(tree: Tree, start: nat, reached: seq<nat>) {
    && (forall i, j :: 0 <= i < j < |reached| ==> reached[i] != reached[j])
    && (reached != [] ==> reached[0] == start)
    && (forall k: nat :: 0 < k < |reached| ==> CausedAt(tree, reached, k))
  }

  ghost predicate Book(tree: Tree, start: nat, reached: seq<nat>, visited: set<nat>, queue: seq<nat>) {
    && (forall h :: h in reached <==> h in visited && h in tree.txs)
    && (if visited == {} then queue == [start] else start in visited)
  }

  ghost predicate Pending(tree: Tree, reached: seq<nat>, queue: seq<nat>) {
    forall h :: h in queue ==> h in tree.txs && Caused(tree, reached, h)
  }

  ghost predicate WalkSoFar(tree: Tree, start: nat, reached: seq<nat>, visited: set<nat>, queue: seq<nat>) {
    && Chain(tree, start, reached)
    && Book(tree, start, reached, visited, queue)
    && (visited != {} ==> Pending(tree, reached, queue))
    && Closed(tree, reached, Elements(reached) + Elements(queue))
  }

  lemma {:induction false} Pop(tree: Tree, start: nat, reached: seq<nat>, visited: set<nat>, queue: seq<nat>)
    requires WalkSoFar(tree, start, reached, visited, queue) && queue != [] && queue[0] in visited
    ensures WalkSoFar(tree, start, reached, visited, queue[1..])
  {
    hide Answered, Chain, Caused;
    ClosedGrows(tree, reached, Elements(reached) + Elements(queue), Elements(reached) + Elements(queue[1..]));
  }

  /** A transaction outside the tree can only be the start, and then the walk is over. */
  lemma {:induction false} Miss(tree: Tree, start: nat, reached: seq<nat>, visited: set<nat>, queue: seq<nat>)
    requires WalkSoFar(tree, start, reached, visited, queue) && queue != [] && queue[0] !in visited && queue[0] !in tree.txs
    ensures WalkSoFar(tree, start, reached, visited + {queue[0]}, queue[1..])
  {
  }

  lemma {:induction false} FirstIsElement(s: seq<nat>)
    ensures s == [] || s[0] in s
  {
  }

  lemma {:induction false} VisitChain(tree: Tree, start: nat, reached: seq<nat>, visited: set<nat>, queue: seq<nat>)
    requires WalkSoFar(tree, start, reached, visited, queue) && queue != []
    requires queue[0] !in visited && queue[0] in tree.txs
    ensures Chain(tree, start, reached + [queue[0]])
  {
    hide Edge, Closed, Caused;
    var h, next := queue[0], reached + [queue[0]];
    FirstIsElement(reached);
    assert next[0] == start by {
      if reached == [] {
        if visited != {} {
          assert Caused(tree, [], h);
          NothingCauses(tree, h);
        }
      }
    }
    forall k: nat | 0 < k < |next| ensures CausedAt(tree, next, k) {
      assert next[..k] == reached[..k];
      assert k < |reached| ==> CausedAt(tree, reached, k);
      if k == |reached| {
        assert reached[..k] == reached;
      }
    }
  }

  lemma {:induction false} NothingCauses(tree: Tree, h: nat)
    ensures !Caused(tree, [], h)
  {
  }

  lemma {:induction false} VisitClosed(tree: Tree, reached: seq<nat>, visited: set<nat>, queue: seq<nat>, longer: seq<nat>)
    requires queue != [] && queue[1..] <= longer
    requires forall x :: x in reached <==> x in visited && x in tree.txs
    requires Closed(tree, reached, Elements(reached) + Elements(queue))
    requires forall m :: m in Sent(tree, queue[0]) ==>
               Answered(tree, queue[0], m, ((visited + {queue[0]}) * tree.txs.Keys) + Elements(longer))
    ensures Closed(tree, reached + [queue[0]], Elements(reached + [queue[0]]) + Elements(longer))
  {
    hide Answered;
    var h, next := queue[0], reached + [queue[0]];
    var s, t := Elements(reached) + Elements(queue), Elements(next) + Elements(longer);
    assert forall x :: x in queue ==> x == h || x in queue[1..];
    assert forall x :: x in queue[1..] ==> x in longer by {
      assert longer[..|queue| - 1] == queue[1..];
    }
    ClosedGrows(tree, reached, s, t);
    forall m | m in Sent(tree, h) ensures Answered(tree, h, m, t) {
      AnsweredGrows(tree, h, m, ((visited + {h}) * tree.txs.Keys) + Elements(longer), t);
    }
  }

  lemma {:induction false} Visit(tree: Tree, start: nat, reached: seq<nat>, visited: set<nat>, queue: seq<nat>, longer: seq<nat>)
    requires WalkSoFar(tree, start, reached, visited, queue) && queue != []
    requires queue[0] !in visited && queue[0] in tree.txs
    requires queue[1..] <= longer
    requires forall k :: |queue| - 1 <= k < |longer| ==> longer[k] in tree.txs && Edge(tree, queue[0], longer[k])
    requires forall m :: m in tree.txs[queue[0]].outs ==>
               Answered(tree, queue[0], m, ((visited + {queue[0]}) * tree.txs.Keys) + Elements(longer))
    ensures WalkSoFar(tree, start, reached + [queue[0]], visited + {queue[0]}, longer)
  {
    VisitChain(tree, start, reached, visited, queue);
    VisitClosed(tree, reached, visited, queue, longer);
    hide Chain, Pending, Closed, Answered, Edge;
  }

  lemma {:induction false} Finished(tree: Tree, start: nat, reached: seq<nat>, visited: set<nat>)
    requires WalkSoFar(tree, start, reached, visited, [])
    ensures IsWalk(tree, start, reached)
  {
  }

  lemma {:induction false} NothingVisited(tree: Tree, start: nat)
    ensures WalkSoFar(tree, start, [], {}, [start]) && AccountsOf(tree, []) == {}
  {
  }

  lemma {:induction false} AccountsGrow(tree: Tree, reached: seq<nat>, h: nat)
    requires h in tree.txs
    ensures AccountsOf(tree, reached + [h]) == AccountsOf(tree, reached) + if tree.txs[h].account != 0 then {tree.txs[h].account} else {}
  {
    assert forall x :: x in reached + [h] <==> x in reached || x == h;
  }

  /** The transactions that the start's messages lead to, in visit order, and the accounts they run on. */
  method Downstream(tree: Tree, start: nat) returns (reached: seq<nat>, accounts: set<nat>)
    ensures IsWalk(tree, start, reached)
    ensures accounts == AccountsOf(tree, reached)
  {
    hide *;
    var byInHash := IndexByInHash(tree);
    var positions := IndexByOrder(tree.order);
    reached, accounts := [], {};
    var visited: set<nat> := {};
    var queue := [start];
    NothingVisited(tree, start);
    while queue != []
      invariant WalkSoFar(tree, start, reached, visited, queue)
      invariant accounts == AccountsOf(tree, reached)
      decreases (tree.txs.Keys + {start}) - visited, |queue|
    {
      var h := queue[0];
      if h in visited {
        Pop(tree, start, reached, visited, queue);
        queue := queue[1..];
      } else if h !in tree.txs {
        Miss(tree, start, reached, visited, queue);
        visited, queue := visited + {h}, queue[1..];
      } else {
        var longer := Enqueue(tree, byInHash, positions, h, visited + {h}, queue[1..]);
        Visit(tree, start, reached, visited, queue, longer);
        AccountsGrow(tree, reached, h);
        visited, queue := visited + {h}, longer;
        reached := reached + [h];
        if tree.txs[h].account != 0 {
          accounts := accounts + {tree.txs[h].account};
        }
      }
    }
    Finished(tree, start, reached, visited);
  }

  // ---------------------------------------------------------------- reachability

  ghost predicate IsPath(tree: Tree, p: seq<nat>) {
    p != [] && p[0] in tree.txs && forall i :: 0 <= i < |p| - 1 ==> Edge(tree, p[i], p[i + 1])
  }

  /** A message chain, with or without fallbacks, leads from a to b. */
  ghost predicate Leads(tree: Tree, a: nat, b: nat) {
    exists p :: IsPath(tree, p) && p[0] == a && p[|p| - 1] == b
  }

  lemma {:induction false} LeadsOn(tree: Tree, a: nat, b: nat, c: nat)
    requires Leads(tree, a, b) && Edge(tree, b, c)
    ensures Leads(tree, a, c)
  {
    hide Edge;
    var p :| IsPath(tree, p) && p[0] == a && p[|p| - 1] == b;
    var q := p + [c];
    assert forall i :: 0 <= i < |q| - 1 ==> Edge(tree, q[i], q[i + 1]);
    assert IsPath(tree, q);
  }

  lemma {:induction false} LeadsThrough(tree: Tree, a: nat, b: nat, c: nat)
    requires Leads(tree, a, b) && Leads(tree, b, c)
    ensures Leads(tree, a, c)
  {
    hide Edge;
    var p :| IsPath(tree, p) && p[0] == b && p[|p| - 1] == c;
    var i := 0;
    while i < |p| - 1
      invariant 0 <= i < |p|
      invariant Leads(tree, a, p[i])
    {
      LeadsOn(tree, a, p[i], p[i + 1]);
      i := i + 1;
    }
  }

  /** Nothing is invented: whatever the walk lists, some message chain leads to it from the start. */
  lemma {:induction false} EverythingListedIsCaused(tree: Tree, start: nat, reached: seq<nat>, k: nat)
    requires IsWalk(tree, start, reached) && k < |reached|
    ensures Leads(tree, start, reached[k])
  {
    hide Edge, Closed;
    if k == 0 {
      assert IsPath(tree, [start]);
    } else {
      assert CausedAt(tree, reached, k);
      var a :| a in reached[..k] && Edge(tree, a, reached[k]);
      var i :| 0 <= i < k && reached[..k][i] == a;
      EverythingListedIsCaused(tree, start, reached, i);
      LeadsOn(tree, start, a, reached[k]);
    }
  }

  predicate UniqueInHashes(tree: Tree) {
    forall a, b :: a in tree.txs && b in tree.txs && tree.txs[a].inHash == tree.txs[b].inHash != 0 ==> a == b
  }

  ghost predicate HashEdge(tree: Tree, a: nat, b: nat) {
    exists m :: m in Sent(tree, a) && Delivers(tree, m, b)
  }

  /** Nothing is missed: with unique in-hashes the walk follows every hash edge. */
  lemma {:induction false} HashEdgesAreFollowed(tree: Tree, start: nat, reached: seq<nat>, a: nat, b: nat)
    requires IsWalk(tree, start, reached) && UniqueInHashes(tree)
    requires a in reached && HashEdge(tree, a, b)
    ensures b in reached
  {
  }

  /** No message of the tree needs the destination fallback. */
  ghost predicate NoFallback(tree: Tree) {
    forall a, m :: a in tree.txs && m in tree.txs[a].outs ==> Matched(tree, m) || m.destination == 0
  }

  /** With unique in-hashes and no fallback the walk is exactly reachability. */
  lemma {:induction false} WalkIsReachability(tree: Tree, start: nat, reached: seq<nat>, h: nat)
    requires IsWalk(tree, start, reached) && UniqueInHashes(tree) && NoFallback(tree)
    ensures h in reached <==> Leads(tree, start, h)
  {
    if h in reached {
      var k :| 0 <= k < |reached| && reached[k] == h;
      EverythingListedIsCaused(tree, start, reached, k);
    }
    if Leads(tree, start, h) {
      var p :| IsPath(tree, p) && p[0] == start && p[|p| - 1] == h;
      FirstIsElement(reached);
      PathStaysInside(tree, start, reached, p);
    }
  }

  lemma {:induction false} PathStaysInside(tree: Tree, start: nat, reached: seq<nat>, p: seq<nat>)
    requires IsWalk(tree, start, reached) && UniqueInHashes(tree) && NoFallback(tree)
    requires IsPath(tree, p) && p[0] in reached
    ensures p[|p| - 1] in reached
  {
    hide IsWalk, UniqueInHashes;
    var i := 0;
    while i < |p| - 1
      invariant 0 <= i < |p|
      invariant p[i] in reached
    {
      assert Edge(tree, p[i], p[i + 1]);
      assert HashEdge(tree, p[i], p[i + 1]);
      HashEdgesAreFollowed(tree, start, reached, p[i], p[i + 1]);
      i := i + 1;
    }
  }

  // ---------------------------------------------------------------- the wallet's transaction

  predicate Owned(tree: Tree, forms: set<nat>, h: nat) {
    h in tree.txs && tree.txs[h].account in forms
  }

  /** The first of the wallet's transactions in the indexer's order, or the one of least hash without an order. */
  ghost predicate IsOutflow(tree: Tree, forms: set<nat>, h: nat) {
    && Owned(tree, forms, h)
    && if tree.order == [] then forall x :: Owned(tree, forms, x) ==> h <= x
       else exists k :: 0 <= k < |tree.order| && tree.order[k] == h && forall j :: 0 <= j < k ==> !Owned(tree, forms, tree.order[j])
  }

  method WalletOutflowTx(tree: Tree, forms: set<nat>) returns (h: nat)
    ensures IsOutflow(tree, forms, h)
            || (h == 0 && forall x :: (tree.order == [] || x in tree.order) ==> !Owned(tree, forms, x))
  {
    var ordered := tree.order;
    if ordered == [] {
      ordered := SortedSet(tree.txs.Keys);
    }
    var i := 0;
    while i < |ordered|
      invariant 0 <= i <= |ordered|
      invariant forall j :: 0 <= j < i ==> !Owned(tree, forms, ordered[j])
    {
      if Owned(tree, forms, ordered[i]) {
        return ordered[i];
      }
      i := i + 1;
    }
    return 0;
  }

  // ---------------------------------------------------------------- vault detection

  predicate IsIntake(tree: Tree, forms: set<nat>, skip: set<nat>, h: nat) {
    h in tree.txs && tree.txs[h].account != 0 && tree.txs[h].account !in forms && tree.txs[h].account !in skip
  }

  /** The account of the first protocol intake after the start; None stands for the run-time panic of
      slicing an empty list. */
  method DetectVaultPattern(tree: Tree, start: nat, forms: set<nat>, skip: set<nat>) returns (vault: Option<nat>, ghost reached: seq<nat>)
    ensures IsWalk(tree, start, reached)
    ensures vault.None? <==> start !in tree.txs
    ensures vault == Some(0) <==> start in tree.txs && forall k :: 0 < k < |reached| ==> !IsIntake(tree, forms, skip, reached[k])
    ensures vault.Some? && vault.value != 0 ==>
              exists k :: 0 < k < |reached| && IsIntake(tree, forms, skip, reached[k]) && tree.txs[reached[k]].account == vault.value
                          && forall j :: 0 < j < k ==> !IsIntake(tree, forms, skip, reached[j])
  {
    var hashes, accounts := Downstream(tree, start);
    reached := hashes;
    hide Closed, Caused, Edge;
    if |hashes| < 1 {
      return None, reached;
    }
    var i := 1;
    while i < |hashes|
      invariant 1 <= i <= |hashes|
      invariant forall k :: 0 < k < i ==> !IsIntake(tree, forms, skip, hashes[k])
    {
      if IsIntake(tree, forms, skip, hashes[i]) {
        vault := Some(tree.txs[hashes[i]].account);
        assert IsIntake(tree, forms, skip, reached[i]) && tree.txs[reached[i]].account == vault.value;
        return;
      }
      i := i + 1;
    }
    return Some(0), reached;
  }

  /** The senders run at or below a protocol intake that the wallet's own transaction caused, and include it. */
  ghost predicate AreBelowIntake(tree: Tree, forms: set<nat>, skip: set<nat>, senders: set<nat>, root: nat, intake: nat) {
    && IsOutflow(tree, forms, root) && IsIntake(tree, forms, skip, intake) && Leads(tree, root, intake)
    && tree.txs[intake].account in senders
    && forall a :: a in senders ==> exists h :: h in tree.txs && tree.txs[h].account == a && Leads(tree, intake, h) && Leads(tree, root, h)
  }

  /** Every walk of the tree reaches the same transactions, whatever order its map is visited in. */
  ghost predicate Determined(tree: Tree) {
    0 !in tree.txs && UniqueInHashes(tree) && NoFallback(tree)
  }

  /** The wallet's transaction causes protocol intake. */
  ghost predicate Deposits(tree: Tree, forms: set<nat>, skip: set<nat>) {
    exists root, intake :: IsOutflow(tree, forms, root) && Leads(tree, root, intake) && IsIntake(tree, forms, skip, intake)
  }

  /** The accounts whose payouts may count as the receipt of a deposit; there are some for every deposit of a tree
      that needs no fallback. */
  method AllowedSenders(tree: Tree, forms: set<nat>, skip: set<nat>) returns (senders: Option<set<nat>>)
    ensures senders.Some? ==> exists root, intake :: AreBelowIntake(tree, forms, skip, senders.value, root, intake)
    ensures Determined(tree) && Deposits(tree, forms, skip) ==> senders.Some?
  {
    hide Determined, Deposits, IsWalk, Leads;
    var outflow := WalletOutflowTx(tree, forms);
    if outflow == 0 {
      NoOutflow(tree, forms, skip);
      return None;
    }
    OutflowIsInTree(tree, forms, outflow);
    ghost var walk;
    var vault;
    vault, walk := DetectVaultPattern(tree, outflow, forms, skip);
    if vault.value == 0 {
      NoIntake(tree, forms, skip, outflow, walk);
      return None;
    }
    var reached, _ := Downstream(tree, outflow);
    SecondWalkFindsIt(tree, outflow, walk, reached, vault.value);
    var vaultTx := 0;
    var i := 0;
    while i < |reached|
      invariant 0 <= i <= |reached|
      invariant vaultTx == 0
      invariant forall j :: 0 <= j < i ==> !(reached[j] in tree.txs && tree.txs[reached[j]].account == vault.value)
    {
      if reached[i] in tree.txs && tree.txs[reached[i]].account == vault.value {
        vaultTx := reached[i];
        break;
      }
      i := i + 1;
    }
    if vaultTx == 0 {
      return None;
    }
    var below, accounts := Downstream(tree, vaultTx);
    SendersAreCaused(tree, outflow, vaultTx, reached, below);
    assert AreBelowIntake(tree, forms, skip, accounts, outflow, vaultTx);
    return Some(accounts);
  }

  lemma {:induction false} OutflowIsInTree(tree: Tree, forms: set<nat>, root: nat)
    requires IsOutflow(tree, forms, root)
    ensures root in tree.txs && tree.txs[root].account in forms
  {
  }

  lemma {:induction false} NoOutflow(tree: Tree, forms: set<nat>, skip: set<nat>)
    requires IsOutflow(tree, forms, 0) || forall x :: (tree.order == [] || x in tree.order) ==> !Owned(tree, forms, x)
    ensures !(Determined(tree) && Deposits(tree, forms, skip))
  {
    hide UniqueInHashes, NoFallback, Leads;
  }

  lemma {:induction false} NoIntake(tree: Tree, forms: set<nat>, skip: set<nat>, outflow: nat, walk: seq<nat>)
    requires IsOutflow(tree, forms, outflow) && IsWalk(tree, outflow, walk)
    requires forall k :: 0 < k < |walk| ==> !IsIntake(tree, forms, skip, walk[k])
    ensures !(Determined(tree) && Deposits(tree, forms, skip))
  {
    OutflowIsInTree(tree, forms, outflow);
    hide Leads, UniqueInHashes, NoFallback, IsOutflow, Closed, Caused;
    if Determined(tree) && Deposits(tree, forms, skip) {
      var root, intake :| IsOutflow(tree, forms, root) && Leads(tree, root, intake) && IsIntake(tree, forms, skip, intake);
      WalkIsReachability(tree, outflow, walk, intake);
    }
  }

  /** A vault that one walk found is found again by another. */
  lemma {:induction false} SecondWalkFindsIt(tree: Tree, start: nat, walk: seq<nat>, again: seq<nat>, vault: nat)
    requires IsWalk(tree, start, walk) && IsWalk(tree, start, again)
    requires exists k :: 0 <= k < |walk| && walk[k] in tree.txs && tree.txs[walk[k]].account == vault
    ensures Determined(tree) ==> 0 !in tree.txs && exists i :: 0 <= i < |again| && again[i] in tree.txs && tree.txs[again[i]].account == vault
  {
    hide IsWalk, UniqueInHashes, NoFallback, Leads;
    var k :| 0 <= k < |walk| && walk[k] in tree.txs && tree.txs[walk[k]].account == vault;
    if Determined(tree) {
      WalkIsReachability(tree, start, walk, walk[k]);
      WalkIsReachability(tree, start, again, walk[k]);
      assert walk[k] in again;
    }
  }

  lemma {:induction false} SendersAreCaused(tree: Tree, root: nat, intake: nat, reached: seq<nat>, below: seq<nat>)
    requires IsWalk(tree, root, reached) && intake in reached && IsWalk(tree, intake, below)
    ensures Leads(tree, root, intake)
    ensures tree.txs[intake].account != 0 ==> tree.txs[intake].account in AccountsOf(tree, below)
    ensures forall a :: a in AccountsOf(tree, below) ==>
              exists h :: h in tree.txs && tree.txs[h].account == a && Leads(tree, intake, h) && Leads(tree, root, h)
  {
    hide Closed, Caused, Leads;
    var k :| 0 <= k < |reached| && reached[k] == intake;
    EverythingListedIsCaused(tree, root, reached, k);
    FirstIsElement(below);
    forall h | h in below ensures Leads(tree, intake, h) && Leads(tree, root, h) {
      var i :| 0 <= i < |below| && below[i] == h;
      EverythingListedIsCaused(tree, intake, below, i);
      LeadsThrough(tree, root, intake, h);
    }
  }
}
