/** The consistent snapshot garbage collection works from: unreleased pin roots and their
    closure over object edges. */
module GcSnapshot {
  import opened Prelude
  import opened Sorting
  import Lexicographic
  import opened MetadataTables
  import opened MetadataStore
  import opened Walks

  // ---------------------------------------------------------------- meaning

  ghost predicate HasEdge(edges: set<Edge>, a: Key, b: Key) {
    exists e :: e in edges && e.parent == a && e.child == b
  }

  ghost function Linked(edges: set<Edge>): (Key, Key) -> bool {
    (a, b) => HasEdge(edges, a, b)
  }

  /** Reached from the root of some unreleased pin. */
  ghost predicate Pinned(t: Tables, x: Key) {
    exists p :: p in t.pins && !t.pins[p].released && Reaches(Linked(t.storage.edges), t.pins[p].root, x)
  }

  ghost function Roots(pins: map<nat, Pin>): set<Key> {
    set p | p in pins && !pins[p].released :: pins[p].root
  }

  ghost predicate ReachedFrom(edges: set<Edge>, roots: set<Key>, x: Key) {
    exists r :: r in roots && Reaches(Linked(edges), r, x)
  }

  ghost function Candidates(edges: set<Edge>, roots: set<Key>): set<Key> {
    roots + (set e | e in edges :: e.child)
  }

  /** The closure of a finite set of roots, as a finite set. */
  ghost function Closure(edges: set<Edge>, roots: set<Key>): set<Key> {
    set x | x in Candidates(edges, roots) && ReachedFrom(edges, roots, x)
  }

  lemma ClosureExact(edges: set<Edge>, roots: set<Key>, x: Key)
    ensures x in Closure(edges, roots) <==> ReachedFrom(edges, roots, x)
  {
    if ReachedFrom(edges, roots, x) {
      var r :| r in roots && Reaches(Linked(edges), r, x);
      ClosedReaches(Linked(edges), Candidates(edges, roots), r, x);
    }
  }

  /** What garbage collection must preserve. */
  ghost function Preserved(t: Tables): set<Key> {
    Closure(t.storage.edges, Roots(t.pins))
  }

  lemma PreservedExact(t: Tables, x: Key)
    ensures x in Preserved(t) <==> Pinned(t, x)
  {
    ClosureExact(t.storage.edges, Roots(t.pins), x);
    if Pinned(t, x) {
      var p :| p in t.pins && !t.pins[p].released && Reaches(Linked(t.storage.edges), t.pins[p].root, x);
      assert t.pins[p].root in Roots(t.pins);
    }
  }

  /** Protection starts at the roots of unreleased pins and runs from parents to children. */
  lemma RootIsPinned(t: Tables, p: nat)
    requires p in t.pins && !t.pins[p].released
    ensures Pinned(t, t.pins[p].root)
  {
    Stay(Linked(t.storage.edges), t.pins[p].root);
  }

  lemma ChildIsPinned(t: Tables, e: Edge)
    requires e in t.storage.edges && Pinned(t, e.parent)
    ensures Pinned(t, e.child)
  {
    var p :| p in t.pins && !t.pins[p].released && Reaches(Linked(t.storage.edges), t.pins[p].root, e.parent);
    assert HasEdge(t.storage.edges, e.parent, e.child);
    ReachesStep(Linked(t.storage.edges), t.pins[p].root, e.parent, e.child);
  }

  /** And nothing else is protected: any set that holds the roots of unreleased pins and, with a
      parent, its children, holds every pinned object. */
  lemma PinnedIsLeast(t: Tables, s: set<Key>, x: Key)
    requires forall p :: p in t.pins && !t.pins[p].released ==> t.pins[p].root in s
    requires forall e :: e in t.storage.edges && e.parent in s ==> e.child in s
    requires Pinned(t, x)
    ensures x in s
  {
    var p :| p in t.pins && !t.pins[p].released && Reaches(Linked(t.storage.edges), t.pins[p].root, x);
    ClosedReaches(Linked(t.storage.edges), s, t.pins[p].root, x);
  }

  // ---------------------------------------------------------------- the worklist

  /** Query rows of a table, in some order. */
  method Rows<T>(s: set<T>) returns (rows: seq<T>)
    ensures Elements(rows) == s && Distinct(rows)
    ensures |rows| == |s|
  {
    rows := [];
    var left := s;
    while left != {}
      invariant left <= s && Elements(rows) == s - left && Distinct(rows)
      invariant |rows| + |left| == |s|
      decreases left
    {
      var x :| x in left;
      assert x !in Elements(rows);
      assert Elements(rows + [x]) == Elements(rows) + {x};
      rows, left := rows + [x], left - {x};
    }
  }

  ghost predicate ChildrenListed(children: map<Key, seq<Key>>, edges: set<Edge>) {
    forall a, b :: HasEdge(edges, a, b) <==> a in children && b in children[a]
  }

  method IndexChildren(rows: seq<Edge>) returns (children: map<Key, seq<Key>>)
    ensures ChildrenListed(children, Elements(rows))
  {
    children := map[];
    for i := 0 to |rows|
      invariant ChildrenListed(children, Elements(rows[..i]))
    {
      var e := rows[i];
      ghost var before, was := children, Elements(rows[..i]);
      children := children[e.parent := (if e.parent in children then children[e.parent] else []) + [e.child]];
      assert Elements(rows[..i+1]) == was + {e};
      forall a, b ensures HasEdge(was + {e}, a, b) <==> a in children && b in children[a] {
        assert HasEdge(was, a, b) <==> a in before && b in before[a];
        assert HasEdge(was + {e}, a, b) <==> HasEdge(was, a, b) || (e.parent == a && e.child == b);
      }
    }
    assert rows[..|rows|] == rows;
  }

  /** Everything seen is reached, no root is forgotten, and steps out of visited nodes are
      visited or waiting. */
  ghost predicate Progress(edges: set<Edge>, roots: set<Key>, visited: set<Key>, waiting: set<Key>) {
    && visited + waiting <= Closure(edges, roots)
    && roots <= visited + waiting
    && forall x, y :: x in visited && HasEdge(edges, x, y) ==> y in visited + waiting
  }

  lemma ClosureStep(edges: set<Edge>, roots: set<Key>, x: Key, y: Key)
    requires x in Closure(edges, roots) && HasEdge(edges, x, y)
    ensures y in Closure(edges, roots)
  {
    var r :| r in roots && Reaches(Linked(edges), r, x);
    ReachesStep(Linked(edges), r, x, y);
    ClosureExact(edges, roots, y);
  }

  lemma StartProgress(edges: set<Edge>, roots: set<Key>)
    ensures Progress(edges, roots, {}, roots)
  {
    forall x | x in roots ensures x in Closure(edges, roots) {
      Stay(Linked(edges), x);
      ClosureExact(edges, roots, x);
    }
  }

  lemma VisitProgress(edges: set<Edge>, roots: set<Key>, visited: set<Key>, waiting: set<Key>,
                      key: Key, children: set<Key>)
    requires Progress(edges, roots, visited, waiting + {key})
    requires forall y :: y in children <==> HasEdge(edges, key, y)
    ensures Progress(edges, roots, visited + {key}, waiting + children)
  {
    forall y | y in children ensures y in Closure(edges, roots) {
      ClosureStep(edges, roots, key, y);
    }
  }

  lemma DoneProgress(edges: set<Edge>, roots: set<Key>, visited: set<Key>)
    requires Progress(edges, roots, visited, {})
    ensures visited == Closure(edges, roots)
  {
    forall x | x in visited ensures ReachedFrom(edges, roots, x) {
      ClosureExact(edges, roots, x);
    }
    ClosedIsClosure(edges, roots, visited);
  }

  /** The worklist of `gc_snapshot`: it stops on every edge set, cycles included, with exactly
      the closure of the roots. */
  method ReachableFrom(roots: seq<Key>, rows: seq<Edge>) returns (reachable: set<Key>)
    ensures reachable == Closure(Elements(rows), Elements(roots))
  {
    ghost var edges, start := Elements(rows), Elements(roots);
    var children := IndexChildren(rows);
    var frontier := roots;
    reachable := {};
    StartProgress(edges, start);
    while frontier != []
      invariant Progress(edges, start, reachable, Elements(frontier))
      decreases Closure(edges, start) - reachable, |frontier|
    {
      ElementsSplitLast(frontier);
      var key := frontier[|frontier|-1];
      frontier := frontier[..|frontier|-1];
      if key !in reachable {
        var next := if key in children then children[key] else [];
        VisitProgress(edges, start, reachable, Elements(frontier), key, Elements(next));
        ElementsConcat(frontier, next);
        reachable, frontier := reachable + {key}, frontier + next;
      }
    }
    DoneProgress(edges, start, reachable);
  }

  /** A set that holds the roots, only reached nodes, and every step out of itself. */
  lemma ClosedIsClosure(edges: set<Edge>, roots: set<Key>, s: set<Key>)
    requires roots <= s
    requires forall x :: x in s ==> ReachedFrom(edges, roots, x)
    requires forall x, y :: x in s && HasEdge(edges, x, y) ==> y in s
    ensures s == Closure(edges, roots)
  {
    forall x ensures x in s <==> x in Closure(edges, roots) {
      ClosureExact(edges, roots, x);
      if ReachedFrom(edges, roots, x) {
        var r :| r in roots && Reaches(Linked(edges), r, x);
        ClosedReaches(Linked(edges), s, r, x);
      }
    }
  }

  // ---------------------------------------------------------------- the snapshot call

  datatype Snapshot = Snapshot(pinnedRoots: seq<Key>, located: seq<Key>, reachable: seq<Key>)

  predicate KeyAtMost(a: Key, b: Key) { Lexicographic.AtMost(a, b) }

  lemma KeyOrder()
    ensures Preorder(KeyAtMost)
  {
    Lexicographic.AtMostOrder();
  }

  /** DISTINCT and ORDER BY: each key once, ascending. */
  ghost predicate IsListing(rows: seq<Key>, keys: set<Key>) {
    Elements(rows) == keys && Distinct(rows) && SortedBy(rows, KeyAtMost)
  }

  method Listing(keys: set<Key>) returns (rows: seq<Key>)
    ensures IsListing(rows, keys) && |rows| == |keys|
  {
    var some := Rows(keys);
    rows := Sort(some, KeyAtMost);
    KeyOrder();
    SortSorted(some, KeyAtMost);
    SameElements(some, rows);
    assert Elements(rows) == Elements(some);
    assert |multiset(rows)| == |multiset(some)|;
  }

  /** `preserved_set`. */
  function PreservedSet(s: Snapshot): set<Key> {
    (set x | x in s.pinnedRoots) + (set x | x in s.reachable)
  }

  lemma PreservedSetExact(s: Snapshot, t: Tables)
    requires Elements(s.pinnedRoots) == Roots(t.pins) && Elements(s.reachable) == Preserved(t)
    ensures PreservedSet(s) == Preserved(t)
  {
    forall x | x in s.pinnedRoots ensures x in Preserved(t) {
      assert x in Elements(s.pinnedRoots);
      Stay(Linked(t.storage.edges), x);
      ClosureExact(t.storage.edges, Roots(t.pins), x);
    }
    forall x ensures x in s.reachable <==> x in Preserved(t) {
      assert x in s.reachable <==> x in Elements(s.reachable);
    }
  }

  function Located(t: Tables): set<Key> {
    set at | at in t.storage.locations :: at.objectKey
  }

  function WithRun(t: Tables, run: GcRun): Tables {
    t.(log := t.log.(runs := t.log.runs + [run]))
  }

  /** How many unreleased pins there are. */
  function UnreleasedPins(t: Tables): set<nat> {
    set p | p in t.pins && !t.pins[p].released
  }

  ghost function SnapshotRun(t: Tables, seqNo: nat): GcRun {
    GcRun(seqNo, |UnreleasedPins(t)|, |Located(t)|, |Preserved(t)|)
  }

  /** The roots of unreleased pins, one row per pin. */
  method RootRows(t: Tables) returns (roots: seq<Key>)
    ensures Elements(roots) == Roots(t.pins)
    ensures |roots| == |UnreleasedPins(t)|
  {
    var ids := Rows(UnreleasedPins(t));
    roots := [];
    for i := 0 to |ids|
      invariant |roots| == i
      invariant forall j :: 0 <= j < i ==> ids[j] in t.pins && roots[j] == t.pins[ids[j]].root
    {
      assert ids[i] in Elements(ids);
      roots := roots + [t.pins[ids[i]].root];
    }
    forall x ensures x in Elements(roots) <==> x in Roots(t.pins) {
      if x in roots {
        var j :| 0 <= j < |roots| && roots[j] == x;
        assert ids[j] in Elements(ids);
      }
      if x in Roots(t.pins) {
        var p :| p in t.pins && !t.pins[p].released && t.pins[p].root == x;
        assert p in Elements(ids);
        var j :| 0 <= j < |ids| && ids[j] == p;
        assert roots[j] == x;
      }
    }
  }

  /** The same rows ORDER BY root. */
  method PinnedRoots(t: Tables) returns (roots: seq<Key>)
    ensures Elements(roots) == Roots(t.pins) && SortedBy(roots, KeyAtMost)
    ensures |roots| == |UnreleasedPins(t)|
  {
    var rows := RootRows(t);
    roots := Sort(rows, KeyAtMost);
    KeyOrder();
    SortSorted(rows, KeyAtMost);
    SameElements(rows, roots);
    assert Elements(roots) == Elements(rows);
    assert |multiset(rows)| == |multiset(roots)|;
  }

  /** `gc_snapshot`: pin roots, located objects and the closure read inside one transaction,
      which also records the run. */
  method TakeSnapshot(store: SqlMetadataStore, seqNo: u64) returns (r: Result<Snapshot, Error>)
    requires store.Valid()
    modifies store
    ensures store.Valid()
    ensures r.Ok? ==>
      && Elements(r.value.pinnedRoots) == Roots(old(store.durable).pins) && SortedBy(r.value.pinnedRoots, KeyAtMost)
      && IsListing(r.value.located, Located(old(store.durable)))
      && IsListing(r.value.reachable, Preserved(old(store.durable)))
      && store.durable == WithRun(old(store.durable), SnapshotRun(old(store.durable), seqNo))
      && store.durable.log.runs == old(store.durable).log.runs + [
           GcRun(seqNo, |r.value.pinnedRoots|, |r.value.located|, |r.value.reachable|)]
    ensures r.Err? ==> store.durable == old(store.durable)
    ensures old(store.budget) == None ==> store.budget == None && (r.Ok? <==> seqNo < I64_LIMIT)
  {
    if seqNo >= I64_LIMIT {
      return Err(Corruption);
    }
    var begun := store.Begin();
    if begun.Err? {
      return Err(begun.error);
    }
    var t := store.working;
    var pinned := PinnedRoots(t);
    var edges := Rows(t.storage.edges);
    var reached := ReachableFrom(pinned, edges);
    var reachable := Listing(reached);
    var located := Listing(Located(t));
    var run := GcRun(seqNo, |pinned|, |located|, |reachable|);
    var stmts := [OnLog(AppendGcRun(run))];
    assert stmts[1..] == [];
    assert ApplyAll(stmts, t) == Ok(WithRun(t, run));
    r := store.Conclude(Plan(true, stmts, Ok(Snapshot(pinned, located, reachable))));
  }
}
