/** The bounded index of retained snapshots by source state, and the nearest-ancestor query. */
module AncestryIndex {
  import opened Prelude
  import opened Walks
  import opened CommitGraph

  datatype SourceState = SourceState(commit: Commit, dirty: Option<nat>)

  datatype Entry = Entry(state: SourceState, snapshot: nat)

  // ---------------------------------------------------------------- recording

  function Dropping(es: seq<Entry>, s: SourceState): (r: seq<Entry>)
    ensures |r| <= |es|
    ensures forall e :: e in r <==> e in es && e.state != s
  {
    if es == [] then []
    else (if es[0].state == s then [] else [es[0]]) + Dropping(es[1..], s)
  }

  /** A re-recorded state moves to the end; at capacity the oldest entry makes room. */
  function Recorded(es: seq<Entry>, capacity: nat, e: Entry): seq<Entry>
    requires capacity > 0
  {
    var kept := Dropping(es, e.state);
    (if |kept| >= capacity then kept[1..] else kept) + [e]
  }

  function Entries(history: seq<Entry>, capacity: nat): seq<Entry>
    requires capacity > 0
  {
    if history == [] then []
    else Recorded(Entries(history[..|history|-1], capacity), capacity, history[|history|-1])
  }

  /** The latest record of each state, oldest first. */
  function Latest(history: seq<Entry>): seq<Entry> {
    if history == [] then []
    else Dropping(Latest(history[..|history|-1]), history[|history|-1].state) + [history[|history|-1]]
  }

  function Last(es: seq<Entry>, n: nat): seq<Entry> {
    if |es| <= n then es else es[|es|-n..]
  }

  ghost predicate StatesDistinct(es: seq<Entry>) {
    forall i, j :: 0 <= i < j < |es| ==> es[i].state != es[j].state
  }

  lemma {:induction false} DroppingConcat(a: seq<Entry>, b: seq<Entry>, s: SourceState)
    ensures Dropping(a + b, s) == Dropping(a, s) + Dropping(b, s)
  {
    if a == [] {
      assert a + b == b;
    } else {
      assert (a + b)[1..] == a[1..] + b;
      DroppingConcat(a[1..], b, s);
    }
  }

  lemma DroppingOne(e: Entry, s: SourceState)
    ensures Dropping([e], s) == if e.state == s then [] else [e]
  {
    assert [e][1..] == [];
  }

  lemma {:induction false} DroppingAbsent(es: seq<Entry>, s: SourceState)
    requires forall e :: e in es ==> e.state != s
    ensures Dropping(es, s) == es
  {
    if es != [] { DroppingAbsent(es[1..], s); }
  }

  lemma {:induction false} DroppingDistinct(es: seq<Entry>, s: SourceState)
    requires StatesDistinct(es)
    ensures StatesDistinct(Dropping(es, s)) && |Dropping(es, s)| >= |es| - 1
  {
    if es != [] {
      DroppingDistinct(es[1..], s);
      if es[0].state == s { DroppingAbsent(es[1..], s); }
    }
  }

  lemma {:induction false} LatestDistinct(history: seq<Entry>)
    ensures StatesDistinct(Latest(history))
  {
    if history != [] {
      LatestDistinct(history[..|history|-1]);
      DroppingDistinct(Latest(history[..|history|-1]), history[|history|-1].state);
    }
  }

  lemma LastConcat(front: seq<Entry>, back: seq<Entry>, e: Entry, n: nat)
    requires n > 0 && (front == [] || |back| >= n - 1) && |back| <= n
    ensures Last(front + back + [e], n) == (if |back| >= n then back[1..] else back) + [e]
  {
  }

  /** Recording on the last entries of a list gives the last entries of the updated list. */
  lemma RecordedLast(es: seq<Entry>, capacity: nat, e: Entry)
    requires capacity > 0 && StatesDistinct(es)
    ensures Recorded(Last(es, capacity), capacity, e) == Last(Dropping(es, e.state) + [e], capacity)
  {
    var last := Last(es, capacity);
    var front := es[..|es|-|last|];
    assert es == front + last;
    DroppingConcat(front, last, e.state);
    DroppingDistinct(last, e.state);
    LastConcat(Dropping(front, e.state), Dropping(last, e.state), e, capacity);
  }

  /** After any history of records the index holds exactly the latest record of each of the most
      recently recorded states, up to its capacity. */
  lemma {:induction false} EntriesExact(history: seq<Entry>, capacity: nat)
    requires capacity > 0
    ensures Entries(history, capacity) == Last(Latest(history), capacity)
    ensures |Entries(history, capacity)| <= capacity && StatesDistinct(Entries(history, capacity))
  {
    if history != [] {
      var before := history[..|history|-1];
      EntriesExact(before, capacity);
      LatestDistinct(before);
      LatestDistinct(history);
      RecordedLast(Latest(before), capacity, history[|history|-1]);
    }
  }

  // ---------------------------------------------------------------- lookup

  /** The most recent entry at a state. */
  function LastAt(es: seq<Entry>, s: SourceState): (r: Option<Entry>)
    ensures r.Some? ==> r.value in es && r.value.state == s
    ensures r.None? ==> forall e :: e in es ==> e.state != s
  {
    if es == [] then None
    else if es[|es|-1].state == s then Some(es[|es|-1])
    else
      assert es == es[..|es|-1] + [es[|es|-1]];
      LastAt(es[..|es|-1], s)
  }

  /** Exact state first, then the clean tree at the same commit. */
  function AtCommit(es: seq<Entry>, c: Commit, dirty: Option<nat>): (r: Option<Entry>)
    ensures r.Some? ==> r.value in es && r.value.state.commit == c && r.value.state.dirty in {dirty, None}
    ensures r.None? ==> forall e :: e in es ==> e.state != SourceState(c, dirty) && e.state != SourceState(c, None)
    ensures forall e :: e in es && e.state == SourceState(c, dirty) ==> r.Some? && r.value.state == e.state
  {
    match LastAt(es, SourceState(c, dirty))
    case Some(e) => Some(e)
    case None => LastAt(es, SourceState(c, None))
  }

  /** Dirty digests count only at the target's own commit. */
  function Finding(es: seq<Entry>, target: SourceState): Finder<Entry> {
    (c: Commit, d: nat) => AtCommit(es, c, if d == 0 then target.dirty else None)
  }

  /** A snapshot at `s` can serve `target` from `n` parent edges away. */
  ghost predicate Usable(g: Graph, target: SourceState, s: SourceState, n: nat) {
    ReachesIn(Parent(g), target.commit, s.commit, n) && (s.dirty.None? || (n == 0 && s.dirty == target.dirty))
  }

  lemma FindingFades(es: seq<Entry>, target: SourceState)
    ensures Fading(Finding(es, target))
  {
    var find := Finding(es, target);
    forall c, d: nat, n: nat | d <= n && find(c, d).None? ensures find(c, n).None? {
      assert find(c, d) == AtCommit(es, c, if d == 0 then target.dirty else None);
      assert find(c, n) == AtCommit(es, c, if n == 0 then target.dirty else None);
    }
  }

  /** A commit has a find at a distance exactly when it holds a usable snapshot. */
  lemma FindingUsable(es: seq<Entry>, g: Graph, target: SourceState, c: Commit, n: nat)
    requires ReachesIn(Parent(g), target.commit, c, n)
    ensures Finding(es, target)(c, n).Some? <==>
      exists e :: e in es && e.state.commit == c && Usable(g, target, e.state, n)
    ensures forall e :: Finding(es, target)(c, n) == Some(e) ==>
      e in es && e.state.commit == c && Usable(g, target, e.state, n)
  {
    var dirty := if n == 0 then target.dirty else None;
    assert Finding(es, target)(c, n) == AtCommit(es, c, dirty);
    forall e | e in es && e.state.commit == c && Usable(g, target, e.state, n) ensures AtCommit(es, c, dirty).Some? {
      assert e.state == SourceState(c, dirty) || e.state == SourceState(c, None);
    }
  }

  /** `nearest` as a function of the index and the graph. */
  function NearestSpec(es: seq<Entry>, target: SourceState, g: Graph): Option<(Entry, nat)> {
    Search(Finding(es, target), g, [target.commit], [], 0)
  }

  /** `nearest` answers with a usable snapshot at the least number of parent edges, or nothing
      exactly when no usable snapshot is reachable; cyclic graphs included. */
  lemma NearestExact(es: seq<Entry>, target: SourceState, g: Graph)
    ensures match NearestSpec(es, target, g)
      case None => forall e, n: nat :: e in es ==> !Usable(g, target, e.state, n)
      case Some(hit) =>
        && hit.0 in es && Usable(g, target, hit.0.state, hit.1)
        && (forall e, n: nat :: e in es && n < hit.1 ==> !Usable(g, target, e.state, n))
  {
    var find := Finding(es, target);
    FindingFades(es, target);
    SearchNearest(find, g, target.commit);
    forall e, n: nat | e in es && Usable(g, target, e.state, n) ensures find(e.state.commit, n).Some? {
      FindingUsable(es, g, target, e.state.commit, n);
    }
    match NearestSpec(es, target, g) {
      case None =>
      case Some(hit) =>
        var c :| ReachesIn(Parent(g), target.commit, c, hit.1) && find(c, hit.1) == Some(hit.0);
        FindingUsable(es, g, target, c, hit.1);
    }
  }

  /** The exact state wins at distance zero. */
  lemma ExactStateWins(es: seq<Entry>, target: SourceState, g: Graph, e: Entry)
    requires e in es && e.state == target
    ensures NearestSpec(es, target, g).Some?
    ensures NearestSpec(es, target, g).value.0.state == target && NearestSpec(es, target, g).value.1 == 0
  {
    var find := Finding(es, target);
    assert find(target.commit, 0) == AtCommit(es, target.commit, target.dirty);
    assert target == SourceState(target.commit, target.dirty);
  }

  /** Unreachable from every live tip. */
  ghost predicate Orphaned(g: Graph, tips: seq<Commit>, c: Commit) {
    forall tip :: tip in tips ==> !Reaches(Parent(g), tip, c)
  }

  ghost function OrphanStates(es: seq<Entry>, g: Graph, tips: seq<Commit>): seq<SourceState> {
    if es == [] then []
    else
      var kept := OrphanStates(es[..|es|-1], g, tips);
      if Orphaned(g, tips, es[|es|-1].state.commit) then kept + [es[|es|-1].state] else kept
  }

  lemma {:induction false} OrphansExact(es: seq<Entry>, g: Graph, tips: seq<Commit>, s: SourceState)
    ensures s in OrphanStates(es, g, tips) <==>
      Orphaned(g, tips, s.commit) && exists e :: e in es && e.state == s
  {
    if es != [] {
      var last := es[|es|-1];
      assert es == es[..|es|-1] + [last];
      OrphansExact(es[..|es|-1], g, tips, s);
    }
  }

  /** An orphan of the target's own commit is never served to it. */
  lemma OrphansNeverServed(es: seq<Entry>, target: SourceState, g: Graph, tips: seq<Commit>)
    requires target.commit in tips && NearestSpec(es, target, g).Some?
    ensures NearestSpec(es, target, g).value.0.state !in OrphanStates(es, g, tips)
  {
    NearestExact(es, target, g);
    var (e, n) := NearestSpec(es, target, g).value;
    ReachesInReaches(Parent(g), target.commit, e.state.commit);
    OrphansExact(es, g, tips, e.state);
  }

  // ---------------------------------------------------------------- the object

  class Index {
    var entries: seq<Entry>
    const capacity: nat
    ghost var history: seq<Entry>

    ghost predicate Valid()
      reads this
    {
      capacity > 0 && entries == Entries(history, capacity)
    }

    constructor (capacity: nat)
      requires capacity > 0
      ensures Valid() && history == [] && this.capacity == capacity
    {
      this.capacity := capacity;
      entries := [];
      history := [];
    }

    method Record(state: SourceState, snapshot: nat)
      requires Valid()
      modifies this
      ensures Valid() && history == old(history) + [Entry(state, snapshot)]
      ensures entries == Last(Latest(history), capacity)
    {
      var kept := Retain(entries, state);
      if |kept| >= capacity { kept := kept[1..]; }
      entries := kept + [Entry(state, snapshot)];
      history := history + [Entry(state, snapshot)];
      assert history[..|history|-1] == old(history);
      EntriesExact(history, capacity);
    }

    method Nearest(target: SourceState, g: Graph) returns (r: Option<(Entry, nat)>)
      ensures r == NearestSpec(entries, target, g)
    {
      r := WalkLayers(Finding(entries, target), g, target.commit);
    }

    method Orphans(g: Graph, tips: seq<Commit>) returns (r: seq<SourceState>)
      ensures r == OrphanStates(entries, g, tips)
    {
      r := [];
      for i := 0 to |entries|
        invariant r == OrphanStates(entries[..i], g, tips)
      {
        assert entries[..i+1][..i] == entries[..i];
        var live := AnyReaches(g, tips, entries[i].state.commit);
        if !live { r := r + [entries[i].state]; }
      }
      assert entries[..|entries|] == entries;
    }
  }

  /** `retain`: everything but the entries at a state, in order. */
  method Retain(es: seq<Entry>, state: SourceState) returns (kept: seq<Entry>)
    ensures kept == Dropping(es, state)
  {
    kept := [];
    for i := 0 to |es|
      invariant kept == Dropping(es[..i], state)
    {
      assert es[..i+1] == es[..i] + [es[i]];
      DroppingOne(es[i], state);
      DroppingConcat(es[..i], [es[i]], state);
      if es[i].state != state { kept := kept + [es[i]]; }
    }
    assert es[..|es|] == es;
  }

  method AnyReaches(g: Graph, tips: seq<Commit>, c: Commit) returns (live: bool)
    ensures live <==> !Orphaned(g, tips, c)
  {
    for i := 0 to |tips|
      invariant Orphaned(g, tips[..i], c)
    {
      var r := Reachable(g, tips[i], c);
      if r { return true; }
      assert tips[..i+1] == tips[..i] + [tips[i]];
    }
    assert tips[..|tips|] == tips;
    return false;
  }
}
