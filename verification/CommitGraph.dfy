/** Commit graphs, reachability along parent edges, and the layered search both ancestor queries use. */
module CommitGraph {
  import opened Prelude
  import opened Walks

  type Commit = nat
  type Graph = map<Commit, seq<Commit>>

  function ParentsOf(g: Graph, c: Commit): seq<Commit> {
    if c in g then g[c] else []
  }

  function Parent(g: Graph): (Commit, Commit) -> bool {
    (c: Commit, p: Commit) => p in ParentsOf(g, c)
  }

  // ---------------------------------------------------------------- reachable

  ghost predicate Visited(g: Graph, from: Commit, frontier: seq<Commit>, seen: seq<Commit>) {
    && (from in seen || from in frontier)
    && (forall c :: c in seen || c in frontier ==> Reaches(Parent(g), from, c))
    && (forall c, p :: c in seen && p in ParentsOf(g, c) ==> p in seen || p in frontier)
  }

  lemma VisitExpands(g: Graph, from: Commit, frontier: seq<Commit>, seen: seq<Commit>)
    requires Visited(g, from, frontier, seen) && frontier != []
    ensures var c := frontier[|frontier|-1];
      Visited(g, from, frontier[..|frontier|-1] + ParentsOf(g, c), seen + [c])
  {
    var c := frontier[|frontier|-1];
    var rest := frontier[..|frontier|-1];
    assert frontier == rest + [c];
    forall p | p in ParentsOf(g, c) ensures Reaches(Parent(g), from, p) {
      ReachesStep(Parent(g), from, c, p);
    }
  }

  lemma VisitedAll(g: Graph, from: Commit, seen: seq<Commit>, c: Commit)
    requires Visited(g, from, [], seen) && Reaches(Parent(g), from, c)
    ensures c in seen
  {
    ClosedReaches(Parent(g), Elements(seen), from, c);
  }

  lemma VisitSkips(g: Graph, from: Commit, frontier: seq<Commit>, seen: seq<Commit>)
    requires Visited(g, from, frontier, seen) && frontier != [] && frontier[|frontier|-1] in seen
    ensures Visited(g, from, frontier[..|frontier|-1], seen)
  {
    assert frontier == frontier[..|frontier|-1] + [frontier[|frontier|-1]];
  }

  /** Commits with parents that are still to be expanded. */
  ghost function Unseen(g: Graph, seen: seq<Commit>): nat {
    |g.Keys - Elements(seen)|
  }

  lemma UnseenDrops(g: Graph, seen: seq<Commit>, c: Commit)
    requires c !in seen
    ensures || Unseen(g, seen + [c]) < Unseen(g, seen)
            || (Unseen(g, seen + [c]) == Unseen(g, seen) && ParentsOf(g, c) == [])
  {
    if c in g { UnseenShrinks(g, seen, c); } else { UnseenSame(g, seen, c); }
  }

  lemma UnseenShrinks(g: Graph, seen: seq<Commit>, c: Commit)
    requires c in g && c !in seen
    ensures |g.Keys - Elements(seen + [c])| < |g.Keys - Elements(seen)|
  {
    assert g.Keys - Elements(seen + [c]) == (g.Keys - Elements(seen)) - {c};
  }

  lemma UnseenSame(g: Graph, seen: seq<Commit>, c: Commit)
    requires c !in g
    ensures g.Keys - Elements(seen + [c]) == g.Keys - Elements(seen)
  {
  }

  /** `CommitGraph::reachable`: terminates on cycles, and answers exactly whether a walk of parent
      edges leads to the ancestor. */
  method Reachable(g: Graph, from: Commit, ancestor: Commit) returns (r: bool)
    ensures r <==> Reaches(Parent(g), from, ancestor)
  {
    var frontier, seen: seq<Commit> := [from], [];
    Stay(Parent(g), from);
    while frontier != []
      invariant Visited(g, from, frontier, seen) && ancestor !in seen
      decreases Unseen(g, seen), |frontier|
    {
      var c := frontier[|frontier|-1];
      var rest := frontier[..|frontier|-1];
      if c == ancestor {
        assert c in frontier;
        return true;
      }
      if c in seen {
        VisitSkips(g, from, frontier, seen);
        frontier := rest;
      } else {
        VisitExpands(g, from, frontier, seen);
        UnseenDrops(g, seen, c);
        seen, frontier := seen + [c], rest + ParentsOf(g, c);
      }
    }
    if Reaches(Parent(g), from, ancestor) { VisitedAll(g, from, seen, ancestor); }
    return false;
  }

  // ---------------------------------------------------------------- the layered search

  type Finder<!R> = (Commit, nat) -> Option<R>

  /** The first commit of a layer with a find. */
  function FirstFind<R>(find: Finder<R>, layer: seq<Commit>, d: nat): (r: Option<R>)
    ensures r.None? ==> forall c :: c in layer ==> find(c, d).None?
    ensures r.Some? ==> exists c :: c in layer && find(c, d) == r
  {
    if layer == [] then None
    else if find(layer[0], d).Some? then find(layer[0], d)
    else
      assert layer == [layer[0]] + layer[1..];
      FirstFind(find, layer[1..], d)
  }

  /** And it is the first in the order of the layer. */
  lemma {:induction false} FindIsFirst<R>(find: Finder<R>, layer: seq<Commit>, d: nat) returns (i: nat)
    requires FirstFind(find, layer, d).Some?
    ensures i < |layer| && find(layer[i], d) == FirstFind(find, layer, d)
    ensures forall j :: 0 <= j < i ==> find(layer[j], d).None?
  {
    if find(layer[0], d).Some? {
      i := 0;
    } else {
      var k := FindIsFirst(find, layer[1..], d);
      i := k + 1;
      assert forall j :: 0 < j < i ==> layer[j] == layer[1..][j-1];
    }
  }

  /** Parents of the layer's commits not seen before, each expanded once. */
  function NextLayer(g: Graph, layer: seq<Commit>, seen: seq<Commit>): seq<Commit> {
    if layer == [] then []
    else if layer[0] in seen then NextLayer(g, layer[1..], seen)
    else ParentsOf(g, layer[0]) + NextLayer(g, layer[1..], seen + [layer[0]])
  }

  function NextSeen(layer: seq<Commit>, seen: seq<Commit>): seq<Commit> {
    if layer == [] then seen
    else if layer[0] in seen then NextSeen(layer[1..], seen)
    else NextSeen(layer[1..], seen + [layer[0]])
  }

  lemma {:induction false} NextSeenElements(layer: seq<Commit>, seen: seq<Commit>)
    ensures Elements(NextSeen(layer, seen)) == Elements(seen) + Elements(layer)
    decreases layer
  {
    if layer != [] {
      assert layer == [layer[0]] + layer[1..];
      if layer[0] in seen {
        NextSeenElements(layer[1..], seen);
      } else {
        NextSeenElements(layer[1..], seen + [layer[0]]);
        ElementsConcat(seen, [layer[0]]);
      }
    }
  }

  /** The next layer is exactly the parents of newly seen commits. */
  lemma {:induction false} NextLayerExact(g: Graph, layer: seq<Commit>, seen: seq<Commit>, p: Commit)
    ensures p in NextLayer(g, layer, seen) <==> exists c :: c in layer && c !in seen && p in ParentsOf(g, c)
    decreases layer
  {
    if layer != [] {
      assert layer == [layer[0]] + layer[1..];
      if layer[0] in seen {
        NextLayerExact(g, layer[1..], seen, p);
      } else {
        NextLayerExact(g, layer[1..], seen + [layer[0]], p);
        if exists c :: c in layer && c !in seen && p in ParentsOf(g, c) {
          var c :| c in layer && c !in seen && p in ParentsOf(g, c);
          assert c == layer[0] || (c in layer[1..] && c !in seen + [layer[0]]);
        }
      }
    }
  }

  /** A layer with something left to expand shrinks the unseen part; otherwise no layer follows. */
  lemma LayerProgress(g: Graph, layer: seq<Commit>, seen: seq<Commit>)
    ensures NextLayer(g, layer, seen) == [] ||
      |g.Keys - Elements(NextSeen(layer, seen))| < |g.Keys - Elements(seen)|
    ensures |g.Keys - Elements(NextSeen(layer, seen))| <= |g.Keys - Elements(seen)|
  {
    NextSeenElements(layer, seen);
    var before, after := g.Keys - Elements(seen), g.Keys - Elements(NextSeen(layer, seen));
    assert after <= before;
    SubsetSize(after, before);
    if NextLayer(g, layer, seen) != [] {
      var p := NextLayer(g, layer, seen)[0];
      NextLayerExact(g, layer, seen, p);
      var c :| c in layer && c !in seen && p in ParentsOf(g, c);
      assert c in before && c !in after;
      SubsetSize(after, before - {c});
    }
  }

  lemma SubsetSize(a: set<Commit>, b: set<Commit>)
    requires a <= b
    ensures |a| <= |b|
  {
    assert b == a + (b - a);
  }

  /** Layer by layer up the parent edges, stopping at the first find. */
  function Search<R>(find: Finder<R>, g: Graph, layer: seq<Commit>, seen: seq<Commit>, d: nat): Option<(R, nat)>
    decreases |g.Keys - Elements(seen)|, |layer|
  {
    if layer == [] then None
    else
      match FirstFind(find, layer, d)
      case Some(r) => Some((r, d))
      case None =>
        LayerProgress(g, layer, seen);
        Search(find, g, NextLayer(g, layer, seen), NextSeen(layer, seen), d + 1)
  }

  /** A commit without a find keeps having none farther away. */
  ghost predicate Fading<R(!new)>(find: Finder<R>) {
    forall c, d: nat, n: nat :: d <= n && find(c, d).None? ==> find(c, n).None?
  }

  /** Where the search stands: the layer holds commits at distance `d`, what was seen is closed
      up to the layer, and nothing nearer was found. */
  ghost predicate Standing<R(!new)>(find: Finder<R>, g: Graph, root: Commit, layer: seq<Commit>,
                                    seen: seq<Commit>, d: nat) {
    && (forall c :: c in layer ==> ReachesIn(Parent(g), root, c, d))
    && (forall c :: c in seen ==> find(c, d).None?)
    && (forall c, p :: c in seen && p in ParentsOf(g, c) ==> p in seen || p in layer)
    && (forall c :: ReachesIn(Parent(g), root, c, d) ==> c in seen || c in layer)
    && (forall c, n: nat :: n < d && ReachesIn(Parent(g), root, c, n) ==> find(c, n).None?)
  }

  lemma NextReached<R(!new)>(find: Finder<R>, g: Graph, root: Commit, layer: seq<Commit>, seen: seq<Commit>,
                             d: nat, c: Commit)
    requires Standing(find, g, root, layer, seen, d)
    requires c in NextLayer(g, layer, seen)
    ensures ReachesIn(Parent(g), root, c, d + 1)
  {
    NextLayerExact(g, layer, seen, c);
    var y :| y in layer && y !in seen && c in ParentsOf(g, y);
    ReachesInStep(Parent(g), root, y, c, d);
  }

  lemma NextCovers<R(!new)>(find: Finder<R>, g: Graph, root: Commit, layer: seq<Commit>, seen: seq<Commit>,
                            d: nat, c: Commit)
    requires Standing(find, g, root, layer, seen, d)
    requires ReachesIn(Parent(g), root, c, d + 1)
    ensures c in NextSeen(layer, seen) || c in NextLayer(g, layer, seen)
  {
    var y := LastStep(Parent(g), root, c, d);
    NextParents(find, g, root, layer, seen, d, y, c);
  }

  lemma NextParents<R(!new)>(find: Finder<R>, g: Graph, root: Commit, layer: seq<Commit>, seen: seq<Commit>,
                             d: nat, y: Commit, c: Commit)
    requires Standing(find, g, root, layer, seen, d)
    requires (y in seen || y in layer) && c in ParentsOf(g, y)
    ensures c in NextSeen(layer, seen) || c in NextLayer(g, layer, seen)
  {
    NextSeenElements(layer, seen);
    NextLayerExact(g, layer, seen, c);
    assert c in NextSeen(layer, seen) <==> c in Elements(NextSeen(layer, seen));
  }

  lemma NextStanding<R(!new)>(find: Finder<R>, g: Graph, root: Commit, layer: seq<Commit>, seen: seq<Commit>, d: nat)
    requires Fading(find) && Standing(find, g, root, layer, seen, d) && FirstFind(find, layer, d).None?
    ensures Standing(find, g, root, NextLayer(g, layer, seen), NextSeen(layer, seen), d + 1)
  {
    var next, seen' := NextLayer(g, layer, seen), NextSeen(layer, seen);
    forall c | c in next ensures ReachesIn(Parent(g), root, c, d + 1) {
      NextReached(find, g, root, layer, seen, d, c);
    }
    forall c | ReachesIn(Parent(g), root, c, d + 1) ensures c in seen' || c in next {
      NextCovers(find, g, root, layer, seen, d, c);
    }
    NextSeenElements(layer, seen);
    assert forall c :: c in seen' <==> c in Elements(seen) + Elements(layer);
    forall c, p | c in seen' && p in ParentsOf(g, c) ensures p in seen' || p in next {
      NextParents(find, g, root, layer, seen, d, c, p);
    }
    forall c | c in seen' ensures find(c, d + 1).None? {
      assert find(c, d).None?;
    }
  }

  lemma {:induction false} NothingLeft<R(!new)>(find: Finder<R>, g: Graph, root: Commit, seen: seq<Commit>,
                                                d: nat, c: Commit, n: nat)
    requires Standing(find, g, root, [], seen, d) && Fading(find)
    requires ReachesIn(Parent(g), root, c, n)
    ensures n >= d ==> c in seen
    ensures find(c, n).None?
    decreases n
  {
    if n > d {
      var y := LastStep(Parent(g), root, c, n - 1);
      NothingLeft(find, g, root, seen, d, y, n - 1);
    }
  }

  /** A find at distance `d`, and none nearer. */
  ghost predicate NearestFind<R(!new)>(find: Finder<R>, g: Graph, root: Commit, r: R, d: nat) {
    && (exists c :: ReachesIn(Parent(g), root, c, d) && find(c, d) == Some(r))
    && (forall c, n: nat :: n < d && ReachesIn(Parent(g), root, c, n) ==> find(c, n).None?)
  }

  ghost predicate NoFind<R(!new)>(find: Finder<R>, g: Graph, root: Commit) {
    forall c, n: nat :: ReachesIn(Parent(g), root, c, n) ==> find(c, n).None?
  }

  ghost predicate Answers<R(!new)>(find: Finder<R>, g: Graph, root: Commit, r: Option<(R, nat)>) {
    match r
    case None => NoFind(find, g, root)
    case Some(hit) => NearestFind(find, g, root, hit.0, hit.1)
  }

  lemma NothingFound<R(!new)>(find: Finder<R>, g: Graph, root: Commit, seen: seq<Commit>, d: nat)
    requires Fading(find) && Standing(find, g, root, [], seen, d)
    ensures NoFind(find, g, root)
  {
    forall c, n: nat | ReachesIn(Parent(g), root, c, n) ensures find(c, n).None? {
      NothingLeft(find, g, root, seen, d, c, n);
    }
  }

  lemma FoundHere<R(!new)>(find: Finder<R>, g: Graph, root: Commit, layer: seq<Commit>, seen: seq<Commit>, d: nat)
    requires Standing(find, g, root, layer, seen, d) && FirstFind(find, layer, d).Some?
    ensures NearestFind(find, g, root, FirstFind(find, layer, d).value, d)
  {
  }

  /** The search returns a find at the least distance, or nothing exactly when there is none. */
  lemma {:induction false} SearchFrom<R(!new)>(find: Finder<R>, g: Graph, root: Commit, layer: seq<Commit>,
                                               seen: seq<Commit>, d: nat)
    requires Fading(find) && Standing(find, g, root, layer, seen, d)
    ensures Answers(find, g, root, Search(find, g, layer, seen, d))
    decreases |g.Keys - Elements(seen)|, |layer|
  {
    if layer == [] {
      NothingFound(find, g, root, seen, d);
    } else if FirstFind(find, layer, d).Some? {
      FoundHere(find, g, root, layer, seen, d);
    } else {
      NextStanding(find, g, root, layer, seen, d);
      LayerProgress(g, layer, seen);
      SearchFrom(find, g, root, NextLayer(g, layer, seen), NextSeen(layer, seen), d + 1);
    }
  }

  lemma StandingStart<R(!new)>(find: Finder<R>, g: Graph, root: Commit)
    ensures Standing(find, g, root, [root], [], 0)
  {
    Stay(Parent(g), root);
  }

  lemma SearchNearest<R(!new)>(find: Finder<R>, g: Graph, root: Commit)
    requires Fading(find)
    ensures Answers(find, g, root, Search(find, g, [root], [], 0))
  {
    StandingStart(find, g, root);
    SearchFrom(find, g, root, [root], [], 0);
  }

  // ---------------------------------------------------------------- the loops

  method FindInLayer<R>(find: Finder<R>, layer: seq<Commit>, d: nat) returns (r: Option<R>)
    ensures r == FirstFind(find, layer, d)
  {
    assert layer == layer[0..];
    for i := 0 to |layer|
      invariant FirstFind(find, layer, d) == FirstFind(find, layer[i..], d)
    {
      var hit := find(layer[i], d);
      if hit.Some? { return hit; }
      assert layer[i..][1..] == layer[i+1..];
    }
    return None;
  }

  method ExpandLayer(g: Graph, layer: seq<Commit>, seen: seq<Commit>) returns (next: seq<Commit>, seen': seq<Commit>)
    ensures next == NextLayer(g, layer, seen) && seen' == NextSeen(layer, seen)
  {
    next, seen' := [], seen;
    assert layer == layer[0..];
    for i := 0 to |layer|
      invariant NextLayer(g, layer, seen) == next + NextLayer(g, layer[i..], seen')
      invariant NextSeen(layer, seen) == NextSeen(layer[i..], seen')
    {
      assert layer[i..][1..] == layer[i+1..];
      if layer[i] !in seen' {
        next, seen' := next + ParentsOf(g, layer[i]), seen' + [layer[i]];
      }
    }
  }

  /** The breadth-first walk up the parent edges. */
  method WalkLayers<R>(find: Finder<R>, g: Graph, root: Commit) returns (r: Option<(R, nat)>)
    ensures r == Search(find, g, [root], [], 0)
  {
    var layer, seen: seq<Commit>, d: nat := [root], [], 0;
    while layer != []
      invariant Search(find, g, [root], [], 0) == Search(find, g, layer, seen, d)
      decreases |g.Keys - Elements(seen)|, |layer|
    {
      var hit := FindInLayer(find, layer, d);
      if hit.Some? { return Some((hit.value, d)); }
      LayerProgress(g, layer, seen);
      layer, seen := ExpandLayer(g, layer, seen);
      d := d + 1;
    }
    return None;
  }
}
