/**
 * TON actions clustered by trace, and the oldest cluster dropped while a window is truncated.
 * Trace 0 is the empty one: such an action is always a cluster of its own.
 */
module TonGroups {

  datatype Action = Action(id: nat, trace: nat, success: bool)

  datatype Group = Group(trace: nat, members: seq<Action>)

  predicate DistinctIds(actions: seq<Action>) {
    forall i, j :: 0 <= i < j < |actions| ==> actions[i].id != actions[j].id
  }

  function IdsOf(actions: seq<Action>): (r: set<nat>)
    ensures forall a :: a in actions ==> a.id in r
    ensures forall x :: x in r ==> exists a :: a in actions && a.id == x
  {
    set a | a in actions :: a.id
  }

  // ---------------------------------------------------------------- what grouping means

  function Add(gs: seq<Group>, a: Action): seq<Group> {
    if gs == [] then [Group(a.trace, [a])]
    else if a.trace != 0 && gs[0].trace == a.trace then [Group(a.trace, gs[0].members + [a])] + gs[1..]
    else [gs[0]] + Add(gs[1..], a)
  }

  /** The clusters in the order in which they are first seen. */
  function Grouped(actions: seq<Action>): seq<Group> {
    if actions == [] then []
    else
      var before, last := Grouped(actions[..|actions| - 1]), actions[|actions| - 1];
      if last.success then Add(before, last) else before
  }

  /** The successful actions of one trace, in order. */
  function OfTrace(actions: seq<Action>, t: nat): (r: seq<Action>)
    ensures forall a :: a in r <==> a in actions && a.success && a.trace == t
  {
    if actions == [] then []
    else
      assert actions == actions[..|actions| - 1] + [actions[|actions| - 1]];
      var last := actions[|actions| - 1];
      OfTrace(actions[..|actions| - 1], t) + if last.success && last.trace == t then [last] else []
  }

  /** The successful actions without a trace, each by itself. */
  function Traceless(actions: seq<Action>): seq<seq<Action>> {
    if actions == [] then []
    else
      var last := actions[|actions| - 1];
      Traceless(actions[..|actions| - 1]) + if last.success && last.trace == 0 then [[last]] else []
  }

  function MembersOf(gs: seq<Group>, t: nat): seq<Action> {
    if gs == [] then [] else if gs[0].trace == t then gs[0].members else MembersOf(gs[1..], t)
  }

  function Alone(gs: seq<Group>): seq<seq<Action>> {
    if gs == [] then [] else (if gs[0].trace == 0 then [gs[0].members] else []) + Alone(gs[1..])
  }

  lemma {:induction false} AddMembers(gs: seq<Group>, a: Action, t: nat)
    requires t != 0
    ensures MembersOf(Add(gs, a), t) == MembersOf(gs, t) + if t == a.trace then [a] else []
  {
    if gs != [] && !(a.trace != 0 && gs[0].trace == a.trace) {
      AddMembers(gs[1..], a, t);
    }
  }

  lemma {:induction false} AddAlone(gs: seq<Group>, a: Action)
    ensures Alone(Add(gs, a)) == Alone(gs) + if a.trace == 0 then [[a]] else []
  {
    if gs == [] {
      assert Add(gs, a)[1..] == [];
    } else if a.trace != 0 && gs[0].trace == a.trace {
      assert Add(gs, a)[1..] == gs[1..];
    } else {
      AddAlone(gs[1..], a);
      assert Add(gs, a)[1..] == Add(gs[1..], a);
    }
  }

  /** A trace's cluster holds exactly its successful actions, in order. */
  lemma {:induction false} GroupHoldsItsTrace(actions: seq<Action>, t: nat)
    requires t != 0
    ensures MembersOf(Grouped(actions), t) == OfTrace(actions, t)
  {
    if actions != [] {
      var front, last := actions[..|actions| - 1], actions[|actions| - 1];
      GroupHoldsItsTrace(front, t);
      AddMembers(Grouped(front), last, t);
    }
  }

  /** Actions without a trace never share a cluster, whatever their identifiers. */
  lemma {:induction false} TracelessStayAlone(actions: seq<Action>)
    ensures Alone(Grouped(actions)) == Traceless(actions)
  {
    if actions != [] {
      var front, last := actions[..|actions| - 1], actions[|actions| - 1];
      TracelessStayAlone(front);
      AddAlone(Grouped(front), last);
    }
  }

  function Traces(gs: seq<Group>): (r: set<nat>)
    ensures forall g :: g in gs ==> g.trace in r
  {
    if gs == [] then {} else
      assert gs == [gs[0]] + gs[1..];
      {gs[0].trace} + Traces(gs[1..])
  }

  /** No trace has two clusters. */
  predicate OnePerTrace(gs: seq<Group>) {
    gs == [] || ((gs[0].trace == 0 || gs[0].trace !in Traces(gs[1..])) && OnePerTrace(gs[1..]))
  }

  lemma {:induction false} AddTrace(gs: seq<Group>, a: Action)
    ensures Traces(Add(gs, a)) == Traces(gs) + {a.trace}
    ensures OnePerTrace(gs) ==> OnePerTrace(Add(gs, a))
  {
    if gs == [] {
      assert Add(gs, a)[1..] == [];
    } else if a.trace != 0 && gs[0].trace == a.trace {
      assert Add(gs, a)[1..] == gs[1..];
    } else {
      AddTrace(gs[1..], a);
      assert Add(gs, a)[1..] == Add(gs[1..], a);
    }
  }

  /** There is one cluster for each trace that a successful action has, and no other. */
  lemma {:induction false} OneGroupPerTrace(actions: seq<Action>)
    ensures OnePerTrace(Grouped(actions))
    ensures forall t :: t in Traces(Grouped(actions)) <==> OfTrace(actions, t) != []
  {
    if actions != [] {
      var front, last := actions[..|actions| - 1], actions[|actions| - 1];
      OneGroupPerTrace(front);
      AddTrace(Grouped(front), last);
    }
  }

  // ---------------------------------------------------------------- dropping the boundary

  /** The clusters hold actions of their trace, and no identifier is in two of them. */
  function AllIds(gs: seq<Group>): set<nat> {
    if gs == [] then {} else IdsOf(gs[0].members) + AllIds(gs[1..])
  }

  predicate Disjoint(gs: seq<Group>) {
    gs == [] || (gs[0].members != [] && IdsOf(gs[0].members) !! AllIds(gs[1..]) && Disjoint(gs[1..]))
  }

  lemma {:induction false} AddIds(gs: seq<Group>, a: Action)
    ensures AllIds(Add(gs, a)) == AllIds(gs) + {a.id}
    ensures Disjoint(gs) && a.id !in AllIds(gs) ==> Disjoint(Add(gs, a))
  {
    if gs == [] {
      assert Add(gs, a)[1..] == [];
    } else if a.trace != 0 && gs[0].trace == a.trace {
      assert Add(gs, a)[1..] == gs[1..];
      assert IdsOf(gs[0].members + [a]) == IdsOf(gs[0].members) + {a.id};
    } else {
      AddIds(gs[1..], a);
      assert Add(gs, a)[1..] == Add(gs[1..], a);
    }
  }

  lemma {:induction false} GroupedIds(actions: seq<Action>)
    ensures AllIds(Grouped(actions)) <= IdsOf(actions)
    ensures DistinctIds(actions) ==> Disjoint(Grouped(actions))
  {
    if actions != [] {
      var front, last := actions[..|actions| - 1], actions[|actions| - 1];
      GroupedIds(front);
      AddIds(Grouped(front), last);
      IdsMore(front, last);
      assert actions == front + [last];
      hide Disjoint, AllIds, IdsOf, Add;
    }
  }

  lemma {:induction false} IdsMore(s: seq<Action>, a: Action)
    ensures IdsOf(s + [a]) == IdsOf(s) + {a.id}
    ensures DistinctIds(s + [a]) ==> DistinctIds(s) && a.id !in IdsOf(s)
  {
    var all := s + [a];
    assert forall i :: 0 <= i < |s| ==> all[i] == s[i];
    assert all[|s|] == a;
  }

  function Outside(gs: seq<Group>, drop: set<nat>): seq<Group> {
    if gs == [] then []
    else (if gs[0].members != [] && gs[0].members[0].id in drop then [] else [gs[0]]) + Outside(gs[1..], drop)
  }

  function Kept(actions: seq<Action>, drop: set<nat>): (r: seq<Action>)
    ensures forall a :: a in r <==> a in actions && a.id !in drop
  {
    if actions == [] then []
    else
      assert actions == actions[..|actions| - 1] + [actions[|actions| - 1]];
      var last := actions[|actions| - 1];
      Kept(actions[..|actions| - 1], drop) + if last.id in drop then [] else [last]
  }

  /** The cluster of the action's trace is dropped exactly when the action is. */
  predicate Agrees(gs: seq<Group>, a: Action, drop: set<nat>) {
    forall g :: g in gs ==> g.members != [] && (a.trace != 0 && g.trace == a.trace ==> (g.members[0].id in drop <==> a.id in drop))
  }

  lemma {:induction false} AddOutside(gs: seq<Group>, a: Action, drop: set<nat>)
    requires Agrees(gs, a, drop)
    ensures Outside(Add(gs, a), drop) == if a.id in drop then Outside(gs, drop) else Add(Outside(gs, drop), a)
  {
    if gs == [] {
      assert Add(gs, a)[1..] == [];
    } else {
      assert gs == [gs[0]] + gs[1..];
      var rest := Outside(gs[1..], drop);
      if a.trace != 0 && gs[0].trace == a.trace {
        assert gs[0] in gs;
        assert Add(gs, a)[1..] == gs[1..];
        assert ([gs[0]] + rest)[1..] == rest;
      } else {
        AddOutside(gs[1..], a, drop);
        assert Add(gs, a)[1..] == Add(gs[1..], a);
        assert ([gs[0]] + rest)[1..] == rest;
        assert [] + rest == rest && [] + Outside(Add(gs[1..], a), drop) == Outside(Add(gs[1..], a), drop);
      }
    }
  }

  /** Every trace is dropped whole or not at all. */
  predicate Whole(actions: seq<Action>, drop: set<nat>) {
    forall a, b :: a in actions && b in actions && a.success && b.success && a.trace == b.trace != 0 ==> (a.id in drop <==> b.id in drop)
  }

  predicate MembersCome(gs: seq<Group>, actions: seq<Action>) {
    forall g :: g in gs ==> g.members != [] && forall m :: m in g.members ==> m in actions && m.success && m.trace == g.trace
  }

  lemma {:induction false} AddComes(gs: seq<Group>, actions: seq<Action>, a: Action)
    requires MembersCome(gs, actions) && a in actions && a.success
    ensures MembersCome(Add(gs, a), actions)
  {
    if gs != [] {
      assert gs == [gs[0]] + gs[1..];
      assert gs[0] in gs;
      if !(a.trace != 0 && gs[0].trace == a.trace) {
        AddComes(gs[1..], actions, a);
      }
    }
  }

  lemma {:induction false} GroupedMembers(actions: seq<Action>)
    ensures MembersCome(Grouped(actions), actions)
  {
    if actions != [] {
      var front, last := actions[..|actions| - 1], actions[|actions| - 1];
      assert actions == front + [last];
      GroupedMembers(front);
      assert MembersCome(Grouped(front), actions);
      if last.success {
        AddComes(Grouped(front), actions, last);
      }
    }
  }

  /** Taking whole clusters out of the list leaves every other cluster as it was. */
  lemma {:induction false} RemovingWholeClusters(actions: seq<Action>, drop: set<nat>)
    requires Whole(actions, drop)
    ensures Grouped(Kept(actions, drop)) == Outside(Grouped(actions), drop)
  {
    if actions != [] {
      var front, last := actions[..|actions| - 1], actions[|actions| - 1];
      assert actions == front + [last];
      RemovingWholeClusters(front, drop);
      if last.success {
        GroupedMembers(front);
        assert Agrees(Grouped(front), last, drop) by {
          forall g | g in Grouped(front) && last.trace != 0 && g.trace == last.trace
            ensures g.members[0].id in drop <==> last.id in drop
          {
            assert g.members[0] in g.members;
          }
        }
        AddOutside(Grouped(front), last, drop);
      }
      if last.id !in drop {
        assert Kept(actions, drop)[..|Kept(front, drop)|] == Kept(front, drop);
      } else {
        assert Kept(actions, drop) == Kept(front, drop);
      }
    }
  }

  lemma {:induction false} OutsideLast(gs: seq<Group>)
    requires Disjoint(gs) && gs != []
    ensures Outside(gs, IdsOf(gs[|gs| - 1].members)) == gs[..|gs| - 1]
    ensures IdsOf(gs[|gs| - 1].members) <= AllIds(gs)
  {
    if |gs| == 1 {
      assert gs[1..] == [];
      assert gs[0].members[0] in gs[0].members;
    } else {
      OutsideLast(gs[1..]);
      assert gs[0].members[0].id in IdsOf(gs[0].members) by {
        assert gs[0].members[0] in gs[0].members;
      }
      assert gs[..|gs| - 1] == [gs[0]] + gs[1..][..|gs| - 2];
    }
  }

  /** The oldest cluster: the last one to be first seen. */
  function Boundary(actions: seq<Action>): (b: seq<Action>) {
    var gs := Grouped(actions);
    if gs == [] then [] else gs[|gs| - 1].members
  }

  lemma {:induction false} MembersAt(gs: seq<Group>, i: nat)
    requires OnePerTrace(gs) && i < |gs| && gs[i].trace != 0
    ensures MembersOf(gs, gs[i].trace) == gs[i].members
  {
    if i > 0 {
      assert gs[1..][i - 1] in gs[1..];
      MembersAt(gs[1..], i - 1);
    }
  }

  lemma {:induction false} SameIdSameAction(actions: seq<Action>, a: Action, b: Action)
    requires DistinctIds(actions) && a in actions && b in actions && a.id == b.id
    ensures a == b
  {
  }

  /** With distinct identifiers the boundary's identifiers pick out the boundary, which is a whole cluster. */
  lemma {:induction false} BoundaryIsWhole(actions: seq<Action>)
    requires DistinctIds(actions)
    ensures forall a :: a in actions ==> (a.id in IdsOf(Boundary(actions)) <==> a in Boundary(actions))
    ensures Whole(actions, IdsOf(Boundary(actions)))
  {
    var gs, drop := Grouped(actions), IdsOf(Boundary(actions));
    GroupedMembers(actions);
    forall a | a in actions ensures a.id in drop <==> a in Boundary(actions) {
      if a.id in drop {
        var m :| m in Boundary(actions) && m.id == a.id;
        assert gs[|gs| - 1] in gs;
        SameIdSameAction(actions, a, m);
      }
    }
    if gs != [] && gs[|gs| - 1].trace != 0 {
      OneGroupPerTrace(actions);
      MembersAt(gs, |gs| - 1);
      GroupHoldsItsTrace(actions, gs[|gs| - 1].trace);
    }
    assert gs != [] ==> gs[|gs| - 1] in gs;
  }

  lemma {:induction false} AddAt(gs: seq<Group>, a: Action, at: nat)
    requires OnePerTrace(gs) && at < |gs| && gs[at].trace == a.trace != 0
    ensures Add(gs, a) == gs[at := Group(a.trace, gs[at].members + [a])]
  {
    if at > 0 {
      assert gs[1..][at - 1] in gs[1..];
      AddAt(gs[1..], a, at - 1);
    }
  }

  lemma {:induction false} AddNew(gs: seq<Group>, a: Action)
    requires a.trace == 0 || forall i :: 0 <= i < |gs| ==> gs[i].trace != a.trace
    ensures Add(gs, a) == gs + [Group(a.trace, [a])]
  {
    if gs != [] {
      AddNew(gs[1..], a);
    }
  }

  lemma {:induction false} GroupedMore(s: seq<Action>, a: Action)
    ensures Grouped(s + [a]) == if a.success then Add(Grouped(s), a) else Grouped(s)
  {
    assert (s + [a])[..|s|] == s;
  }

  lemma {:induction false} UnseenTrace(s: seq<Action>, t: nat)
    requires OfTrace(s, t) == []
    ensures forall i :: 0 <= i < |Grouped(s)| ==> Grouped(s)[i].trace != t
  {
    OneGroupPerTrace(s);
    hide OfTrace, Grouped;
    forall i | 0 <= i < |Grouped(s)| ensures Grouped(s)[i].trace != t {
      assert Grouped(s)[i] in Grouped(s);
    }
  }

  /** The boundary has no bounded size: a trace that fills the end of the list is the boundary, however long. */
  lemma {:induction false} TrailingTraceIsTheBoundary(before: seq<Action>, block: seq<Action>, t: nat)
    requires t != 0 && block != [] && OfTrace(before, t) == []
    requires forall a :: a in block ==> a.success && a.trace == t
    ensures Grouped(before + block) == Grouped(before) + [Group(t, block)] && Boundary(before + block) == block
  {
    hide OfTrace, Grouped, Add, OnePerTrace;
    var front, last := block[..|block| - 1], block[|block| - 1];
    assert before + block == (before + front) + [last] && block == front + [last];
    GroupedMore(before + front, last);
    if front == [] {
      assert before + front == before;
      UnseenTrace(before, t);
      AddNew(Grouped(before), last);
    } else {
      TrailingTraceIsTheBoundary(before, front, t);
      OneGroupPerTrace(before + front);
      AddAt(Grouped(before + front), last, |Grouped(before)|);
    }
  }

  /** Where all successful actions are of one trace, that trace is the boundary, in whatever order they come. */
  lemma {:induction false} OnlyTraceIsTheBoundary(actions: seq<Action>, t: nat)
    requires t != 0 && forall a :: a in actions && a.success ==> a.trace == t
    ensures Grouped(actions) == if OfTrace(actions, t) == [] then [] else [Group(t, OfTrace(actions, t))]
    ensures Boundary(actions) == OfTrace(actions, t)
  {
    if actions != [] {
      var before, last := actions[..|actions| - 1], actions[|actions| - 1];
      assert last in actions && forall a :: a in before ==> a in actions;
      OnlyTraceIsTheBoundary(before, t);
      var members := OfTrace(before, t);
      if !last.success {
        assert OfTrace(actions, t) == members;
      } else if members == [] {
        assert OfTrace(actions, t) == [last] && Add([], last) == [Group(t, [last])];
      } else {
        assert Add([Group(t, members)], last) == [Group(t, members + [last])];
      }
    }
  }

  // ---------------------------------------------------------------- the methods

  function Members(gs: seq<Group>): (r: seq<seq<Action>>)
    ensures |r| == |gs| && forall i :: 0 <= i < |r| ==> r[i] == gs[i].members
  {
    seq(|gs|, i requires 0 <= i < |gs| => gs[i].members)
  }

  /** The keys of the source's index: a trace, or for an action without one its identifier and position. */
  datatype Key = ByTrace(trace: nat) | ByPosition(id: nat, position: nat)

  ghost predicate IsIndex(index: map<Key, nat>, gs: seq<Group>, seen: nat) {
    && (forall k :: k in index ==> index[k] < |gs|)
    && (forall t: nat :: ByTrace(t) in index ==> t != 0 && gs[index[ByTrace(t)]].trace == t)
    && (forall id: nat, p: nat :: ByPosition(id, p) in index ==> p < seen)
    && (forall i :: 0 <= i < |gs| && gs[i].trace != 0 ==> ByTrace(gs[i].trace) in index)
    && OnePerTrace(gs)
  }

  lemma {:induction false} JoinsItsTrace(index: map<Key, nat>, gs: seq<Group>, a: Action, i: nat)
    requires IsIndex(index, gs, i) && a.trace != 0 && ByTrace(a.trace) in index
    ensures Add(gs, a) == gs[index[ByTrace(a.trace)] := Group(a.trace, gs[index[ByTrace(a.trace)]].members + [a])]
    ensures IsIndex(index, Add(gs, a), i + 1)
  {
    AddAt(gs, a, index[ByTrace(a.trace)]);
    AddTrace(gs, a);
  }

  lemma {:induction false} OpensAGroup(index: map<Key, nat>, gs: seq<Group>, a: Action, i: nat)
    requires IsIndex(index, gs, i)
    requires a.trace != 0 ==> ByTrace(a.trace) !in index
    ensures Add(gs, a) == gs + [Group(a.trace, [a])]
    ensures IsIndex(index[(if a.trace != 0 then ByTrace(a.trace) else ByPosition(a.id, i)) := |gs|], Add(gs, a), i + 1)
  {
    AddNew(gs, a);
    AddTrace(gs, a);
  }

  method GroupActionsByTrace(actions: seq<Action>) returns (groups: seq<seq<Action>>)
    ensures groups == Members(Grouped(actions))
  {
    hide IsIndex, Add;
    groups := [];
    var index: map<Key, nat> := map[];
    var i := 0;
    EmptyIndex();
    while i < |actions|
      invariant 0 <= i <= |actions|
      invariant groups == Members(Grouped(actions[..i])) && IsIndex(index, Grouped(actions[..i]), i)
    {
      assert actions[..i + 1][..i] == actions[..i];
      ghost var gs := Grouped(actions[..i]);
      var a := actions[i];
      IndexBounds(index, gs, i);
      if a.success {
        var key := if a.trace != 0 then ByTrace(a.trace) else ByPosition(a.id, i);
        if key in index {
          JoinsItsTrace(index, gs, a, i);
          var at := index[key];
          groups := groups[at := groups[at] + [a]];
        } else {
          OpensAGroup(index, gs, a, i);
          index := index[key := |groups|];
          groups := groups + [[a]];
        }
      }
      i := i + 1;
    }
    assert actions[..i] == actions;
  }

  lemma {:induction false} EmptyIndex()
    ensures IsIndex(map[], [], 0)
  {
  }

  lemma {:induction false} IndexBounds(index: map<Key, nat>, gs: seq<Group>, i: nat)
    requires IsIndex(index, gs, i)
    ensures forall k :: k in index ==> index[k] < |gs| && (k.ByPosition? ==> k.position < i)
    ensures IsIndex(index, gs, i + 1)
  {
  }

  /** Drops the oldest cluster of a truncated window: the others are exactly what they were. */
  method DropBoundary(actions: seq<Action>) returns (kept: seq<Action>)
    requires DistinctIds(actions)
    ensures var gs := Grouped(actions); Grouped(kept) == if gs == [] then [] else gs[..|gs| - 1]
    ensures forall a :: a in kept <==> a in actions && a !in Boundary(actions)
  {
    hide Grouped, Outside, Kept, Whole, Disjoint, DistinctIds;
    var groups := GroupActionsByTrace(actions);
    if groups == [] {
      return actions;
    }
    BoundaryIsWhole(actions);
    GroupedIds(actions);
    OutsideLast(Grouped(actions));
    var boundary := IdsOf(groups[|groups| - 1]);
    RemovingWholeClusters(actions, boundary);
    kept := RemoveAll(actions, boundary);
  }

  method RemoveAll(actions: seq<Action>, boundary: set<nat>) returns (kept: seq<Action>)
    ensures kept == Kept(actions, boundary)
  {
    kept := [];
    var i := 0;
    while i < |actions|
      invariant 0 <= i <= |actions|
      invariant kept == Kept(actions[..i], boundary)
    {
      assert actions[..i + 1][..i] == actions[..i];
      if actions[i].id !in boundary {
        kept := kept + [actions[i]];
      }
      i := i + 1;
    }
    assert actions[..i] == actions;
  }
}
