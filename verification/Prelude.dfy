/** Small vocabulary shared by every component model. */
module Prelude {

  /** A value that may be absent. */
  datatype Option<+T> = None | Some(value: T)

  function Max(a: int, b: int): int {
    if b > a then b else a
  }

  function Min(a: int, b: int): int {
    if b < a then b else a
  }

  function Elements(s: seq<nat>): (r: set<nat>)
    ensures forall x :: x in r <==> x in s
  {
    set x | x in s
  }

  predicate Increasing(s: seq<nat>) {
    forall i, j :: 0 <= i < j < |s| ==> s[i] < s[j]
  }

  method InsertIncreasing(s: seq<nat>, x: nat) returns (r: seq<nat>)
    requires Increasing(s) && x !in s
    ensures Increasing(r) && forall y :: y in r <==> y == x || y in s
  {
    var i := 0;
    while i < |s| && s[i] < x
      invariant 0 <= i <= |s|
      invariant forall k :: 0 <= k < i ==> s[k] < x
    {
      i := i + 1;
    }
    assert s == s[..i] + s[i..];
    r := s[..i] + [x] + s[i..];
  }

  /** The elements of a set in ascending order. */
  method SortedSet(elements: set<nat>) returns (r: seq<nat>)
    ensures Increasing(r) && forall y :: y in r <==> y in elements
  {
    r := [];
    var left := elements;
    while left != {}
      invariant left <= elements
      invariant Increasing(r) && forall y :: y in r <==> y in elements - left
      decreases |left|
    {
      var x :| x in left;
      left := left - {x};
      r := InsertIncreasing(r, x);
    }
  }
}
