/** Bounded validation of a manifest graph by one depth-first traversal. */
module ClosureValidation {
  import opened Prelude
  import opened Walks

  type Id = Bytes

  datatype Bounds = Bounds(maxDepth: nat, maxFanout: nat, maxNodes: nat)
  datatype Node = Node(id: Id, references: seq<Id>)
  datatype ClosureError =
    | Cycle(id: Id)
    | DepthExceeded
    | FanoutExceeded(id: Id)
    | NodeCountExceeded
    | DanglingReference(id: Id)

  /** The first node claimed under an identity. */
  function Lookup(nodes: seq<Node>, id: Id): (r: Option<Node>)
    ensures r.None? ==> forall i :: 0 <= i < |nodes| ==> nodes[i].id != id
    ensures r.Some? ==> r.value.id == id
    ensures r.Some? ==>
      exists i :: 0 <= i < |nodes| && nodes[i] == r.value && forall j :: 0 <= j < i ==> nodes[j].id != id
  {
    if nodes == [] then None
    else if nodes[0].id == id then Some(nodes[0])
    else Lookup(nodes[1..], id)
  }

  ghost predicate Refers(nodes: seq<Node>, a: Id, b: Id) {
    Lookup(nodes, a).Some? && b in Lookup(nodes, a).value.references
  }

  ghost function Graph(nodes: seq<Node>): (Id, Id) -> bool {
    (a, b) => Refers(nodes, a, b)
  }

  ghost predicate Cyclic(nodes: seq<Node>, x: Id) {
    exists n: nat :: n > 0 && ReachesIn(Graph(nodes), x, x, n)
  }

  /** A list of different identities, all reached from the root. */
  ghost predicate ReachedList(nodes: seq<Node>, root: Id, ids: seq<Id>) {
    Distinct(ids) && forall x :: x in ids ==> Reaches(Graph(nodes), root, x)
  }

  // ---------------------------------------------------------------- meaning of the answers

  /** What an acceptance promises of the subgraph reached from the root. */
  ghost predicate Accepted(nodes: seq<Node>, root: Id, bounds: Bounds) {
    && (forall x :: Reaches(Graph(nodes), root, x) ==>
          && Lookup(nodes, x).Some?
          && |Lookup(nodes, x).value.references| <= bounds.maxFanout
          && !Cyclic(nodes, x)
          && exists n: nat :: n <= bounds.maxDepth && ReachesIn(Graph(nodes), root, x, n))
    && (forall ids :: ReachedList(nodes, root, ids) ==> |ids| <= bounds.maxNodes)
  }

  /** Every path, not just the one first taken, is within the bounds. */
  ghost predicate WithinBounds(nodes: seq<Node>, root: Id, bounds: Bounds) {
    && (forall x :: Reaches(Graph(nodes), root, x) ==>
          && Lookup(nodes, x).Some?
          && |Lookup(nodes, x).value.references| <= bounds.maxFanout
          && !Cyclic(nodes, x))
    && (forall x, n: nat :: ReachesIn(Graph(nodes), root, x, n) ==> n <= bounds.maxDepth)
    && (forall ids :: ReachedList(nodes, root, ids) ==> |ids| <= bounds.maxNodes)
  }

  /** What a refusal proves. */
  ghost predicate Justified(nodes: seq<Node>, root: Id, bounds: Bounds, e: ClosureError) {
    match e
    case Cycle(x) => Reaches(Graph(nodes), root, x) && Cyclic(nodes, x)
    case DepthExceeded => exists x, n: nat :: n > bounds.maxDepth && ReachesIn(Graph(nodes), root, x, n)
    case FanoutExceeded(x) =>
      && Reaches(Graph(nodes), root, x) && Lookup(nodes, x).Some?
      && |Lookup(nodes, x).value.references| > bounds.maxFanout
    case NodeCountExceeded => exists ids :: ReachedList(nodes, root, ids) && |ids| > bounds.maxNodes
    case DanglingReference(x) => Reaches(Graph(nodes), root, x) && Lookup(nodes, x).None?
  }

  lemma JustifiedIsOutside(nodes: seq<Node>, root: Id, bounds: Bounds, e: ClosureError)
    requires Justified(nodes, root, bounds, e)
    ensures !WithinBounds(nodes, root, bounds)
  {
  }

  // ---------------------------------------------------------------- traversal state

  /** The path being explored is a walk from the root. */
  ghost predicate PathSound(nodes: seq<Node>, root: Id, path: seq<Id>) {
    path != [] ==> WalkTo(Graph(nodes), path, root, path[|path|-1])
  }

  /** The next identity continues the path, or is the root of an empty one. */
  ghost predicate Continues(nodes: seq<Node>, root: Id, path: seq<Id>, id: Id) {
    if path == [] then id == root else Refers(nodes, path[|path|-1], id)
  }

  /** Every finished node's references were finished before it. */
  ghost predicate Topological(nodes: seq<Node>, finished: seq<Id>) {
    forall i, y :: 0 <= i < |finished| && Refers(nodes, finished[i], y) ==> y in finished[..i]
  }

  /** A visited node exists, is narrow enough, and was reached in at most the allowed steps. */
  ghost predicate NodeSound(nodes: seq<Node>, root: Id, bounds: Bounds, x: Id) {
    && Lookup(nodes, x).Some?
    && |Lookup(nodes, x).value.references| <= bounds.maxFanout
    && exists n: nat :: n <= bounds.maxDepth && ReachesIn(Graph(nodes), root, x, n)
  }

  ghost predicate Sound(
      nodes: seq<Node>, root: Id, bounds: Bounds, path: seq<Id>, visited: seq<Id>, finished: seq<Id>) {
    && PathSound(nodes, root, path)
    && Distinct(visited) && Distinct(finished) && |visited| <= bounds.maxNodes
    && Elements(visited) == Elements(path) + Elements(finished) && Elements(path) !! Elements(finished)
    && (forall x :: x in visited ==> NodeSound(nodes, root, bounds, x))
    && Topological(nodes, finished)
  }

  lemma ReachedBy(nodes: seq<Node>, root: Id, path: seq<Id>, id: Id)
    requires PathSound(nodes, root, path) && Continues(nodes, root, path, id)
    ensures ReachesIn(Graph(nodes), root, id, |path|) && Reaches(Graph(nodes), root, id)
    ensures PathSound(nodes, root, path + [id])
  {
    if path == [] {
      Stay(Graph(nodes), root);
      assert WalkTo(Graph(nodes), path + [id], root, id);
    } else {
      WalkStep(Graph(nodes), path, root, path[|path|-1], id);
    }
  }

  lemma BackEdge(nodes: seq<Node>, root: Id, path: seq<Id>, id: Id)
    requires PathSound(nodes, root, path) && Continues(nodes, root, path, id) && id in path
    ensures Cyclic(nodes, id)
  {
    var k :| 0 <= k < |path| && path[k] == id;
    ReachedBy(nodes, root, path, id);
    var loop := (path + [id])[k..];
    assert WalkTo(Graph(nodes), loop, id, id);
    assert ReachesIn(Graph(nodes), id, id, |path| - k);
  }

  lemma TooMany(nodes: seq<Node>, root: Id, bounds: Bounds, path: seq<Id>, visited: seq<Id>, finished: seq<Id>, id: Id)
    requires Sound(nodes, root, bounds, path, visited, finished) && Continues(nodes, root, path, id)
    requires id !in visited && |visited| >= bounds.maxNodes
    ensures Justified(nodes, root, bounds, NodeCountExceeded)
  {
    ReachedBy(nodes, root, path, id);
    var ids := visited + [id];
    forall x | x in ids ensures Reaches(Graph(nodes), root, x) {
      if x in visited {
        assert NodeSound(nodes, root, bounds, x);
        ReachesInReaches(Graph(nodes), root, x);
      }
    }
    assert ReachedList(nodes, root, ids);
  }

  /** Entering a node. */
  lemma EnterSound(
      nodes: seq<Node>, root: Id, bounds: Bounds, path: seq<Id>, visited: seq<Id>, finished: seq<Id>, id: Id)
    requires Sound(nodes, root, bounds, path, visited, finished) && Continues(nodes, root, path, id)
    requires id !in visited && |visited| < bounds.maxNodes && |path| <= bounds.maxDepth
    requires Lookup(nodes, id).Some? && |Lookup(nodes, id).value.references| <= bounds.maxFanout
    ensures Sound(nodes, root, bounds, path + [id], visited + [id], finished)
  {
    ReachedBy(nodes, root, path, id);
    assert NodeSound(nodes, root, bounds, id);
    ElementsConcat(visited, [id]);
    ElementsConcat(path, [id]);
  }

  /** Leaving a node whose references are all finished. */
  lemma LeaveSound(
      nodes: seq<Node>, root: Id, bounds: Bounds, path: seq<Id>, visited: seq<Id>, finished: seq<Id>, id: Id)
    requires Sound(nodes, root, bounds, path + [id], visited, finished)
    requires PathSound(nodes, root, path) && id !in finished && id !in path
    requires Lookup(nodes, id).Some? && forall y :: y in Lookup(nodes, id).value.references ==> y in finished
    ensures Sound(nodes, root, bounds, path, visited, finished + [id])
  {
    ElementsConcat(path, [id]);
    ElementsConcat(finished, [id]);
    var f := finished + [id];
    forall i, y | 0 <= i < |f| && Refers(nodes, f[i], y) ensures y in f[..i] {
      if i < |finished| {
        assert f[..i] == finished[..i];
      } else {
        assert f[..i] == finished;
      }
    }
  }

  // ---------------------------------------------------------------- the traversal

  /** `visit`. `path` is the stack; `finished` lists completed nodes for the proof only. */
  method Visit(root: Id, id: Id, nodes: seq<Node>, bounds: Bounds, depth: nat,
               path: seq<Id>, visited: seq<Id>, ghost finished: seq<Id>)
    returns (r: Result<(), ClosureError>, visited': seq<Id>, ghost finished': seq<Id>)
    requires Sound(nodes, root, bounds, path, visited, finished)
    requires Continues(nodes, root, path, id) && depth == |path| && depth <= bounds.maxDepth + 1
    ensures r.Err? ==> Justified(nodes, root, bounds, r.error)
    ensures r.Ok? ==>
      && Sound(nodes, root, bounds, path, visited', finished')
      && finished <= finished' && id in finished'
    decreases bounds.maxDepth + 1 - depth
  {
    visited', finished' := visited, finished;
    ReachedBy(nodes, root, path, id);
    if depth > bounds.maxDepth {
      return Err(DepthExceeded), visited', finished';
    }
    if id in path {
      BackEdge(nodes, root, path, id);
      return Err(Cycle(id)), visited', finished';
    }
    if id in visited {
      assert id in Elements(visited);
      return Ok(()), visited', finished';
    }
    if |visited| >= bounds.maxNodes {
      TooMany(nodes, root, bounds, path, visited, finished, id);
      return Err(NodeCountExceeded), visited', finished';
    }
    var node := Lookup(nodes, id);
    if node.None? {
      return Err(DanglingReference(id)), visited', finished';
    }
    if |node.value.references| > bounds.maxFanout {
      return Err(FanoutExceeded(id)), visited', finished';
    }
    EnterSound(nodes, root, bounds, path, visited, finished, id);
    assert id !in Elements(visited);
    visited' := visited + [id];
    r, visited', finished' :=
      VisitAll(root, id, nodes, bounds, depth, path + [id], visited', finished, node.value.references);
    if r.Ok? {
      LeaveSound(nodes, root, bounds, path, visited', finished', id);
      finished' := finished' + [id];
    }
  }

  /** The loop over a node's references. */
  method VisitAll(root: Id, id: Id, nodes: seq<Node>, bounds: Bounds, depth: nat,
                  path: seq<Id>, visited: seq<Id>, ghost finished: seq<Id>, references: seq<Id>)
    returns (r: Result<(), ClosureError>, visited': seq<Id>, ghost finished': seq<Id>)
    requires Sound(nodes, root, bounds, path, visited, finished)
    requires path != [] && path[|path|-1] == id && depth + 1 == |path| && depth <= bounds.maxDepth
    requires Lookup(nodes, id).Some? && Lookup(nodes, id).value.references == references
    ensures r.Err? ==> Justified(nodes, root, bounds, r.error)
    ensures r.Ok? ==>
      && Sound(nodes, root, bounds, path, visited', finished')
      && finished <= finished' && id !in finished'
      && forall y :: y in references ==> y in finished'
    decreases bounds.maxDepth + 1 - depth, 0
  {
    visited', finished' := visited, finished;
    r := Ok(());
    for i := 0 to |references|
      invariant Sound(nodes, root, bounds, path, visited', finished')
      invariant finished <= finished' && r.Ok?
      invariant forall y :: y in references[..i] ==> y in finished'
    {
      ghost var before := finished';
      assert references[..i+1] == references[..i] + [references[i]];
      r, visited', finished' := Visit(root, references[i], nodes, bounds, depth + 1, path, visited', finished');
      if r.Err? {
        return;
      }
      forall y | y in before ensures y in finished' {
        var k :| 0 <= k < |before| && before[k] == y;
        assert finished'[k] == y;
      }
    }
    assert references[..|references|] == references;
    assert id in Elements(path);
  }

  // ---------------------------------------------------------------- acceptance

  lemma {:induction false} WalkDescends(nodes: seq<Node>, finished: seq<Id>, i: nat, y: Id, n: nat) returns (j: nat)
    requires Topological(nodes, finished) && i < |finished| && ReachesIn(Graph(nodes), finished[i], y, n)
    ensures j < |finished| && finished[j] == y && j <= i && (n > 0 ==> j < i)
    decreases n
  {
    if n == 0 {
      j := i;
    } else {
      var x := LastStep(Graph(nodes), finished[i], y, n - 1);
      var k := WalkDescends(nodes, finished, i, x, n - 1);
      assert y in finished[..k];
      j :| 0 <= j < k && finished[j] == y;
    }
  }

  lemma FinishedHoldsReached(nodes: seq<Node>, root: Id, finished: seq<Id>, x: Id) returns (j: nat)
    requires Topological(nodes, finished) && root in finished && Reaches(Graph(nodes), root, x)
    ensures j < |finished| && finished[j] == x
  {
    ReachesInReaches(Graph(nodes), root, x);
    var n: nat :| ReachesIn(Graph(nodes), root, x, n);
    var i :| 0 <= i < |finished| && finished[i] == root;
    j := WalkDescends(nodes, finished, i, x, n);
  }

  lemma FinishedAcyclic(nodes: seq<Node>, finished: seq<Id>, i: nat)
    requires Topological(nodes, finished) && Distinct(finished) && i < |finished|
    ensures !Cyclic(nodes, finished[i])
  {
    if Cyclic(nodes, finished[i]) {
      var n: nat :| n > 0 && ReachesIn(Graph(nodes), finished[i], finished[i], n);
      var j := WalkDescends(nodes, finished, i, finished[i], n);
      assert false;
    }
  }

  lemma DistinctSubset<T>(a: seq<T>, b: seq<T>)
    requires Distinct(a) && forall x :: x in a ==> x in b
    ensures |a| <= |b|
  {
    if a != [] {
      assert a[0] in a;
      var j :| 0 <= j < |b| && b[j] == a[0];
      var rest := b[..j] + b[j+1..];
      forall x | x in a[1..] ensures x in rest {
        assert x in a;
        var k :| 0 <= k < |b| && b[k] == x;
        if k < j { assert rest[k] == x; } else { assert rest[k-1] == x; }
      }
      DistinctSubset(a[1..], rest);
    }
  }

  lemma FinishedAccepted(nodes: seq<Node>, root: Id, bounds: Bounds, visited: seq<Id>, finished: seq<Id>)
    requires Sound(nodes, root, bounds, [], visited, finished) && root in finished
    ensures Accepted(nodes, root, bounds)
  {
    assert Elements(visited) == Elements(finished);
    forall x | Reaches(Graph(nodes), root, x)
      ensures NodeSound(nodes, root, bounds, x) && !Cyclic(nodes, x) && x in visited
    {
      var j := FinishedHoldsReached(nodes, root, finished, x);
      FinishedAcyclic(nodes, finished, j);
      assert x in Elements(finished);
    }
    forall ids | ReachedList(nodes, root, ids) ensures |ids| <= bounds.maxNodes {
      DistinctSubset(ids, visited);
    }
  }

  /** `validate_closure`. An acceptance means the subgraph reached from the root is closed,
      acyclic, within the fan-out and node bounds, and has every node on some path of at most
      `maxDepth` references; every refusal names a real violation; and a graph all of whose paths
      are within the bounds is accepted. */
  method ValidateClosure(root: Id, nodes: seq<Node>, bounds: Bounds) returns (r: Result<(), ClosureError>)
    ensures r.Ok? ==> Accepted(nodes, root, bounds)
    ensures r.Err? ==> Justified(nodes, root, bounds, r.error)
    ensures WithinBounds(nodes, root, bounds) ==> r.Ok?
  {
    var visited: seq<Id>;
    ghost var finished: seq<Id>;
    r, visited, finished := Visit(root, root, nodes, bounds, 0, [], [], []);
    if r.Ok? {
      FinishedAccepted(nodes, root, bounds, visited, finished);
    } else {
      JustifiedIsOutside(nodes, root, bounds, r.error);
    }
  }
}
