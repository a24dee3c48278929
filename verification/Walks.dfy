/** Walks in a directed graph given by its step relation: the reference meaning of
    reachability for every graph algorithm here. */
module Walks {

  ghost predicate IsWalk<T(!new)>(next: (T, T) -> bool, p: seq<T>) {
    p != [] && forall i :: 0 <= i < |p| - 1 ==> next(p[i], p[i+1])
  }

  ghost predicate WalkTo<T(!new)>(next: (T, T) -> bool, p: seq<T>, x: T, y: T) {
    IsWalk(next, p) && p[0] == x && p[|p|-1] == y
  }

  /** `y` is reached from `x` in zero or more steps. */
  ghost predicate Reaches<T(!new)>(next: (T, T) -> bool, x: T, y: T) {
    exists p :: WalkTo(next, p, x, y)
  }

  /** `y` is reached from `x` in exactly `n` steps. */
  ghost predicate ReachesIn<T(!new)>(next: (T, T) -> bool, x: T, y: T, n: nat) {
    exists p :: WalkTo(next, p, x, y) && |p| == n + 1
  }

  lemma Stay<T(!new)>(next: (T, T) -> bool, x: T)
    ensures Reaches(next, x, x) && ReachesIn(next, x, x, 0)
  {
    assert WalkTo(next, [x], x, x);
  }

  lemma WalkStep<T(!new)>(next: (T, T) -> bool, p: seq<T>, x: T, y: T, z: T)
    requires WalkTo(next, p, x, y) && next(y, z)
    ensures WalkTo(next, p + [z], x, z)
  {
  }

  lemma ReachesStep<T(!new)>(next: (T, T) -> bool, x: T, y: T, z: T)
    requires Reaches(next, x, y) && next(y, z)
    ensures Reaches(next, x, z)
  {
    var p :| WalkTo(next, p, x, y);
    WalkStep(next, p, x, y, z);
  }

  lemma ReachesInStep<T(!new)>(next: (T, T) -> bool, x: T, y: T, z: T, n: nat)
    requires ReachesIn(next, x, y, n) && next(y, z)
    ensures ReachesIn(next, x, z, n + 1)
  {
    var p :| WalkTo(next, p, x, y) && |p| == n + 1;
    WalkStep(next, p, x, y, z);
  }

  lemma ReachesInReaches<T(!new)>(next: (T, T) -> bool, x: T, y: T)
    ensures Reaches(next, x, y) <==> exists n: nat :: ReachesIn(next, x, y, n)
  {
    if Reaches(next, x, y) {
      var p :| WalkTo(next, p, x, y);
      assert |p| == (|p| - 1) + 1;
      assert ReachesIn(next, x, y, |p| - 1);
    }
  }

  /** A walk of positive length ends with a step from its second-to-last node. */
  lemma LastStep<T(!new)>(next: (T, T) -> bool, x: T, z: T, n: nat) returns (y: T)
    requires ReachesIn(next, x, z, n + 1)
    ensures ReachesIn(next, x, y, n) && next(y, z)
  {
    var p :| WalkTo(next, p, x, z) && |p| == n + 2;
    y := p[n];
    assert WalkTo(next, p[..n+1], x, y);
  }

  ghost predicate Closed<T(!new)>(next: (T, T) -> bool, s: set<T>) {
    forall x, y :: x in s && next(x, y) ==> y in s
  }

  /** A set closed under steps holds everything reached from its members. */
  lemma ClosedHolds<T(!new)>(next: (T, T) -> bool, s: set<T>, p: seq<T>, x: T, y: T)
    requires Closed(next, s) && x in s && WalkTo(next, p, x, y)
    ensures y in s
    decreases |p|
  {
    if |p| > 1 {
      assert WalkTo(next, p[1..], p[1], y);
      ClosedHolds(next, s, p[1..], p[1], y);
    }
  }

  lemma ClosedReaches<T(!new)>(next: (T, T) -> bool, s: set<T>, x: T, y: T)
    requires Closed(next, s) && x in s && Reaches(next, x, y)
    ensures y in s
  {
    var p :| WalkTo(next, p, x, y);
    ClosedHolds(next, s, p, x, y);
  }

  /** More steps only reach more. */
  lemma ReachesMonotone<T(!new)>(next: (T, T) -> bool, wider: (T, T) -> bool, x: T, y: T)
    requires Reaches(next, x, y)
    requires forall a, b :: next(a, b) ==> wider(a, b)
    ensures Reaches(wider, x, y)
  {
    var p :| WalkTo(next, p, x, y);
    assert WalkTo(wider, p, x, y);
  }
}
