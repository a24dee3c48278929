/** Hierarchical tree manifests and the receiver's missing-chunk diff. */
module TreeManifest {
  import opened Prelude
  import opened Digests

  type Chunk = TypedDigest

  datatype TreeNode =
    | File(name: string, chunks: seq<Chunk>)
    | Directory(name: string, digest: TypedDigest, children: seq<TreeNode>)

  function FindChild(children: seq<TreeNode>, name: string): (r: Option<TreeNode>)
    ensures r.Some? ==> r.value in children && r.value.name == name
    ensures r.None? ==> forall c :: c in children ==> c.name != name
  {
    if children == [] then None
    else if children[0].name == name then Some(children[0])
    else
      assert children == [children[0]] + children[1..];
      FindChild(children[1..], name)
  }

  function ChildOf(have: Option<TreeNode>, name: string): Option<TreeNode> {
    if have.Some? && have.value.Directory? then FindChild(have.value.children, name) else None
  }

  function ChunksOf(have: Option<TreeNode>): seq<Chunk> {
    if have.Some? && have.value.File? then have.value.chunks else []
  }

  function Lacking(chunks: seq<Chunk>, held: seq<Chunk>): (r: seq<Chunk>)
    ensures forall c :: c in r <==> c in chunks && c !in held
  {
    if chunks == [] then []
    else (if chunks[0] in held then [] else [chunks[0]]) + Lacking(chunks[1..], held)
  }

  // ---------------------------------------------------------------- the full walk

  /** What a walk of the whole tree finds lacking, in walk order. */
  function Need(want: TreeNode, have: Option<TreeNode>): seq<Chunk>
    decreases want
  {
    match want
    case File(_, chunks) => Lacking(chunks, ChunksOf(have))
    case Directory(_, _, children) => NeedAll(children, have)
  }

  function NeedAll(children: seq<TreeNode>, have: Option<TreeNode>): seq<Chunk>
    decreases children
  {
    if children == [] then []
    else Need(children[0], ChildOf(have, children[0].name)) + NeedAll(children[1..], have)
  }

  // ---------------------------------------------------------------- the short-circuiting walk

  predicate Skips(want: TreeNode, have: Option<TreeNode>) {
    want.Directory? && have.Some? && have.value.Directory? && have.value.digest == want.digest
  }

  function Diff(want: TreeNode, have: Option<TreeNode>): seq<Chunk>
    decreases want
  {
    match want
    case File(_, chunks) => Lacking(chunks, ChunksOf(have))
    case Directory(_, _, children) => if Skips(want, have) then [] else DiffAll(children, have)
  }

  function DiffAll(children: seq<TreeNode>, have: Option<TreeNode>): seq<Chunk>
    decreases children
  {
    if children == [] then []
    else Diff(children[0], ChildOf(have, children[0].name)) + DiffAll(children[1..], have)
  }

  /** Appends what is not there yet. */
  function Add(missing: seq<Chunk>, more: seq<Chunk>): seq<Chunk>
    decreases more
  {
    if more == [] then missing
    else Add(if more[0] in missing then missing else missing + [more[0]], more[1..])
  }

  // ---------------------------------------------------------------- what trees promise

  ghost predicate NamesDistinct(children: seq<TreeNode>) {
    forall i, j :: 0 <= i < j < |children| ==> children[i].name != children[j].name
  }

  /** No directory below lists a name twice. */
  ghost predicate WellNamed(t: TreeNode)
    decreases t
  {
    t.Directory? ==> NamesDistinct(t.children) && forall i :: 0 <= i < |t.children| ==> WellNamed(t.children[i])
  }

  ghost predicate Within(x: TreeNode, t: TreeNode)
    decreases t
  {
    x == t || (t.Directory? && exists i :: 0 <= i < |t.children| && Within(x, t.children[i]))
  }

  ghost predicate WithinOpt(x: TreeNode, t: Option<TreeNode>) {
    t.Some? && Within(x, t.value)
  }

  /** Equal subtree digests in the two trees mean equal subtrees. */
  ghost predicate Summarized(want: TreeNode, have: Option<TreeNode>) {
    forall x, y :: Within(x, want) && WithinOpt(y, have) && Skips(x, Some(y)) ==> x.children == y.children
  }

  lemma {:induction false} WithinTransitive(x: TreeNode, y: TreeNode, t: TreeNode)
    requires Within(x, y) && Within(y, t)
    ensures Within(x, t)
    decreases t
  {
    if y != t {
      var i :| 0 <= i < |t.children| && Within(y, t.children[i]);
      WithinTransitive(x, y, t.children[i]);
    }
  }

  lemma ChildWithin(c: TreeNode, t: TreeNode)
    requires t.Directory? && c in t.children
    ensures Within(c, t)
  {
    var i :| 0 <= i < |t.children| && t.children[i] == c;
    assert Within(c, t.children[i]);
  }

  lemma SummarizedChild(want: TreeNode, have: Option<TreeNode>, c: TreeNode)
    requires Summarized(want, have) && want.Directory? && c in want.children
    ensures Summarized(c, ChildOf(have, c.name))
  {
    var h := ChildOf(have, c.name);
    forall x, y | Within(x, c) && WithinOpt(y, h) && Skips(x, Some(y)) ensures x.children == y.children {
      ChildWithin(c, want);
      WithinTransitive(x, c, want);
      ChildWithin(h.value, have.value);
      WithinTransitive(y, h.value, have.value);
    }
  }

  // ---------------------------------------------------------------- skipping loses nothing

  lemma {:induction false} FindsOwn(children: seq<TreeNode>, i: nat)
    requires NamesDistinct(children) && i < |children|
    ensures FindChild(children, children[i].name) == Some(children[i])
  {
    if i > 0 { FindsOwn(children[1..], i - 1); }
  }

  /** A tree lacks nothing of itself. */
  lemma {:induction false} SelfNeedsNothing(t: TreeNode)
    requires WellNamed(t)
    ensures Need(t, Some(t)) == []
    decreases t
  {
    match t
    case File(_, chunks) => LackingHeld(chunks, chunks);
    case Directory(_, _, children) =>
      assert children == children[0..];
      ChildrenNeedNothing(t, t, 0);
  }

  lemma {:induction false} LackingHeld(chunks: seq<Chunk>, held: seq<Chunk>)
    requires forall c :: c in chunks ==> c in held
    ensures Lacking(chunks, held) == []
  {
    if chunks != [] { LackingHeld(chunks[1..], held); }
  }

  /** Directories with the same children lack nothing of each other, whatever their own names. */
  lemma {:induction false} ChildrenNeedNothing(t: TreeNode, h: TreeNode, i: nat)
    requires WellNamed(t) && t.Directory? && h.Directory? && t.children == h.children && i <= |t.children|
    ensures NeedAll(t.children[i..], Some(h)) == []
    decreases t, 0, |t.children| - i
  {
    if i < |t.children| {
      FindsOwn(t.children, i);
      SelfNeedsNothing(t.children[i]);
      ChildrenNeedNothing(t, h, i + 1);
      assert t.children[i..][1..] == t.children[i+1..];
    }
  }

  /** The short-circuiting diff finds exactly what the full walk finds, in the same order. */
  lemma {:induction false} DiffIsNeed(want: TreeNode, have: Option<TreeNode>)
    requires WellNamed(want) && Summarized(want, have)
    ensures Diff(want, have) == Need(want, have)
    decreases want
  {
    match want
    case File(_, _) =>
    case Directory(_, _, children) =>
      assert children == children[0..];
      if Skips(want, have) {
        assert Within(want, want) && WithinOpt(have.value, have);
        ChildrenNeedNothing(want, have.value, 0);
      } else {
        DiffAllIsNeedAll(want, have, 0);
      }
  }

  lemma {:induction false} DiffAllIsNeedAll(want: TreeNode, have: Option<TreeNode>, i: nat)
    requires WellNamed(want) && Summarized(want, have) && want.Directory? && i <= |want.children|
    ensures DiffAll(want.children[i..], have) == NeedAll(want.children[i..], have)
    decreases want, 0, |want.children| - i
  {
    if i < |want.children| {
      var c := want.children[i];
      SummarizedChild(want, have, c);
      DiffIsNeed(c, ChildOf(have, c.name));
      DiffAllIsNeedAll(want, have, i + 1);
      assert want.children[i..][1..] == want.children[i+1..];
    }
  }

  /** Directories with one digest are not walked, whatever is below them: nothing is asked for, even
      where the children differ. */
  lemma EqualDigestsAskNothing(want: TreeNode, name: string, children: seq<TreeNode>)
    requires want.Directory?
    ensures Diff(want, Some(Directory(name, want.digest, children))) == []
  {
  }

  // ---------------------------------------------------------------- what the full walk finds

  type Path = seq<string>

  /** The node at a path below a root. */
  function NodeAt(t: Option<TreeNode>, path: Path): Option<TreeNode>
    decreases |path|
  {
    if path == [] then t else NodeAt(ChildOf(t, path[0]), path[1..])
  }

  /** The wanted tree has a file at the path with this chunk, and the receiver's file there lacks it. */
  predicate LacksAt(want: TreeNode, have: Option<TreeNode>, path: Path, c: Chunk) {
    c in ChunksOf(NodeAt(Some(want), path)) && c !in ChunksOf(NodeAt(have, path))
  }

  lemma {:induction false} NeedHasPath(want: TreeNode, have: Option<TreeNode>, c: Chunk) returns (path: Path)
    requires WellNamed(want) && c in Need(want, have)
    ensures LacksAt(want, have, path, c)
    decreases want
  {
    path := [];
    if want.Directory? {
      var i := NeedAllHasChild(want.children, have, c);
      var child := want.children[i];
      FindsOwn(want.children, i);
      var below := NeedHasPath(child, ChildOf(have, child.name), c);
      path := [child.name] + below;
      assert path[1..] == below;
    }
  }

  lemma {:induction false} NeedAllHasChild(children: seq<TreeNode>, have: Option<TreeNode>, c: Chunk) returns (i: nat)
    requires c in NeedAll(children, have)
    ensures i < |children| && c in Need(children[i], ChildOf(have, children[i].name))
  {
    if c in Need(children[0], ChildOf(have, children[0].name)) {
      i := 0;
    } else {
      i := NeedAllHasChild(children[1..], have, c);
      i := i + 1;
    }
  }

  lemma {:induction false} NeedAllHolds(children: seq<TreeNode>, have: Option<TreeNode>, i: nat, c: Chunk)
    requires i < |children| && c in Need(children[i], ChildOf(have, children[i].name))
    ensures c in NeedAll(children, have)
  {
    if i > 0 { NeedAllHolds(children[1..], have, i - 1, c); }
  }

  lemma {:induction false} PathIsNeeded(want: TreeNode, have: Option<TreeNode>, path: Path, c: Chunk)
    requires LacksAt(want, have, path, c)
    ensures c in Need(want, have)
    decreases |path|
  {
    if path != [] {
      var child := ChildOf(Some(want), path[0]);
      NothingBelow(child, path[1..], c);
      var i :| 0 <= i < |want.children| && want.children[i] == child.value;
      PathIsNeeded(child.value, ChildOf(have, path[0]), path[1..], c);
      NeedAllHolds(want.children, have, i, c);
    }
  }

  lemma {:induction false} NothingBelow(t: Option<TreeNode>, path: Path, c: Chunk)
    ensures c in ChunksOf(NodeAt(t, path)) ==> t.Some?
    decreases |path|
  {
    if path != [] { NothingBelow(ChildOf(t, path[0]), path[1..], c); }
  }

  /** The full walk finds exactly the chunks some wanted file has and the receiver's file at the
      same path lacks. */
  lemma NeedExact(want: TreeNode, have: Option<TreeNode>, c: Chunk)
    requires WellNamed(want)
    ensures c in Need(want, have) <==> exists path :: LacksAt(want, have, path, c)
  {
    if c in Need(want, have) {
      var path := NeedHasPath(want, have, c);
    }
    if exists path :: LacksAt(want, have, path, c) {
      var path :| LacksAt(want, have, path, c);
      PathIsNeeded(want, have, path, c);
    }
  }

  // ---------------------------------------------------------------- collecting without repeats

  lemma {:induction false} AddExact(missing: seq<Chunk>, more: seq<Chunk>)
    ensures Elements(Add(missing, more)) == Elements(missing) + Elements(more)
    ensures Distinct(missing) ==> Distinct(Add(missing, more))
    decreases more
  {
    if more != [] {
      var m := if more[0] in missing then missing else missing + [more[0]];
      AddExact(m, more[1..]);
      assert more == [more[0]] + more[1..];
      assert Elements(m) == Elements(missing) + {more[0]};
    }
  }

  lemma AddDistinct(more: seq<Chunk>)
    ensures Distinct(Add([], more))
  {
    AddExact([], more);
  }

  lemma {:induction false} AddConcat(missing: seq<Chunk>, a: seq<Chunk>, b: seq<Chunk>)
    ensures Add(missing, a + b) == Add(Add(missing, a), b)
    decreases a
  {
    if a == [] {
      assert a + b == b;
    } else {
      assert (a + b)[1..] == a[1..] + b;
      AddConcat(if a[0] in missing then missing else missing + [a[0]], a[1..], b);
    }
  }

  /** The diff of two trees: no chunk twice, the same list as a full walk collects, and exactly the
      chunks some wanted file has and the receiver's file at the same path lacks. */
  lemma DiffExact(want: TreeNode, have: Option<TreeNode>)
    requires WellNamed(want) && Summarized(want, have)
    ensures var missing := Add([], Diff(want, have));
      && Distinct(missing) && missing == Add([], Need(want, have))
      && forall c :: c in missing <==> exists path :: LacksAt(want, have, path, c)
  {
    DiffIsNeed(want, have);
    AddExact([], Need(want, have));
    var missing := Add([], Diff(want, have));
    forall c ensures c in missing <==> exists path :: LacksAt(want, have, path, c) {
      NeedExact(want, have, c);
      assert c in missing <==> c in Elements(missing);
      assert c in Need(want, have) <==> c in Elements(Need(want, have));
    }
  }

  // ---------------------------------------------------------------- statistics

  datatype DiffStats = DiffStats(skipped: nat, visited: nat)

  function Sum(a: DiffStats, b: DiffStats): DiffStats {
    DiffStats(a.skipped + b.skipped, a.visited + b.visited)
  }

  function Stats(want: TreeNode, have: Option<TreeNode>): DiffStats
    decreases want
  {
    if want.File? then DiffStats(0, 1)
    else if Skips(want, have) then DiffStats(1, 1)
    else Sum(DiffStats(0, 1), StatsAll(want.children, have))
  }

  function StatsAll(children: seq<TreeNode>, have: Option<TreeNode>): DiffStats
    decreases children
  {
    if children == [] then DiffStats(0, 0)
    else Sum(Stats(children[0], ChildOf(have, children[0].name)), StatsAll(children[1..], have))
  }

  /** Nodes of a tree. */
  function Size(t: TreeNode): nat
    decreases t
  {
    if t.File? then 1 else 1 + SizeAll(t.children)
  }

  function SizeAll(ts: seq<TreeNode>): nat
    decreases ts
  {
    if ts == [] then 0 else Size(ts[0]) + SizeAll(ts[1..])
  }

  /** A diff visits no node twice, and skips at most what it visits. */
  lemma {:induction false} VisitsBounded(want: TreeNode, have: Option<TreeNode>)
    ensures Stats(want, have).skipped <= Stats(want, have).visited <= Size(want)
    decreases want
  {
    if want.Directory? { VisitsAllBounded(want.children, have); }
  }

  lemma {:induction false} VisitsAllBounded(ts: seq<TreeNode>, have: Option<TreeNode>)
    ensures StatsAll(ts, have).skipped <= StatsAll(ts, have).visited <= SizeAll(ts)
    decreases ts
  {
    if ts != [] {
      VisitsBounded(ts[0], ChildOf(have, ts[0].name));
      VisitsAllBounded(ts[1..], have);
    }
  }

  // ---------------------------------------------------------------- the walk

  lemma AddLackingStep(missing: seq<Chunk>, chunks: seq<Chunk>, held: seq<Chunk>)
    requires chunks != []
    ensures var c := chunks[0]; var m := if c in held || c in missing then missing else missing + [c];
      Add(missing, Lacking(chunks, held)) == Add(m, Lacking(chunks[1..], held))
  {
    var rest := Lacking(chunks[1..], held);
    if chunks[0] in held {
      assert [] + rest == rest;
    } else {
      assert ([chunks[0]] + rest)[1..] == rest;
    }
  }

  method AddLacking(chunks: seq<Chunk>, held: seq<Chunk>, missing: seq<Chunk>) returns (missing': seq<Chunk>)
    ensures missing' == Add(missing, Lacking(chunks, held))
  {
    missing' := missing;
    assert chunks == chunks[0..];
    for i := 0 to |chunks|
      invariant Add(missing, Lacking(chunks, held)) == Add(missing', Lacking(chunks[i..], held))
    {
      AddLackingStep(missing', chunks[i..], held);
      assert chunks[i..][1..] == chunks[i+1..];
      if chunks[i] !in held && chunks[i] !in missing' {
        missing' := missing' + [chunks[i]];
      }
    }
  }

  /** The recursive `walk`, with its list and its counters passed in and out. */
  method Walk(want: TreeNode, have: Option<TreeNode>, missing: seq<Chunk>, stats: DiffStats)
    returns (missing': seq<Chunk>, stats': DiffStats)
    ensures missing' == Add(missing, Diff(want, have))
    ensures stats' == Sum(stats, Stats(want, have))
    decreases want
  {
    missing', stats' := missing, Sum(stats, DiffStats(0, 1));
    if want.File? {
      missing' := AddLacking(want.chunks, ChunksOf(have), missing');
    } else if Skips(want, have) {
      stats' := Sum(stats, DiffStats(1, 1));
    } else {
      SumAssociative(stats, DiffStats(0, 1), StatsAll(want.children, have));
      missing', stats' := WalkChildren(want.children, have, missing', stats');
    }
  }

  lemma DiffStep(children: seq<TreeNode>, have: Option<TreeNode>, i: nat, missing: seq<Chunk>)
    requires i < |children|
    ensures Add(missing, DiffAll(children[i..], have))
      == Add(Add(missing, Diff(children[i], ChildOf(have, children[i].name))), DiffAll(children[i+1..], have))
  {
    assert children[i..][1..] == children[i+1..];
    AddConcat(missing, Diff(children[i], ChildOf(have, children[i].name)), DiffAll(children[i+1..], have));
  }

  lemma SumAssociative(a: DiffStats, b: DiffStats, c: DiffStats)
    ensures Sum(a, Sum(b, c)) == Sum(Sum(a, b), c)
  {
  }

  lemma SumZero(a: DiffStats)
    ensures Sum(DiffStats(0, 0), a) == a
  {
  }

  lemma StatsStep(children: seq<TreeNode>, have: Option<TreeNode>, i: nat, stats: DiffStats)
    requires i < |children|
    ensures Sum(stats, StatsAll(children[i..], have))
      == Sum(Sum(stats, Stats(children[i], ChildOf(have, children[i].name))), StatsAll(children[i+1..], have))
  {
    assert children[i..][1..] == children[i+1..];
    SumAssociative(stats, Stats(children[i], ChildOf(have, children[i].name)), StatsAll(children[i+1..], have));
  }

  method WalkChildren(children: seq<TreeNode>, have: Option<TreeNode>, missing: seq<Chunk>, stats: DiffStats)
    returns (missing': seq<Chunk>, stats': DiffStats)
    ensures missing' == Add(missing, DiffAll(children, have))
    ensures stats' == Sum(stats, StatsAll(children, have))
    decreases children
  {
    missing', stats' := missing, stats;
    assert children == children[0..];
    for i := 0 to |children|
      invariant Add(missing, DiffAll(children, have)) == Add(missing', DiffAll(children[i..], have))
      invariant Sum(stats, StatsAll(children, have)) == Sum(stats', StatsAll(children[i..], have))
    {
      DiffStep(children, have, i, missing');
      StatsStep(children, have, i, stats');
      missing', stats' := Walk(children[i], ChildOf(have, children[i].name), missing', stats');
    }
  }

  /** `missing_chunks`. */
  method MissingChunks(want: TreeNode, have: Option<TreeNode>) returns (missing: seq<Chunk>, stats: DiffStats)
    ensures missing == Add([], Diff(want, have)) && Distinct(missing)
    ensures stats == Stats(want, have) && stats.visited <= Size(want)
  {
    missing, stats := Walk(want, have, [], DiffStats(0, 0));
    AddDistinct(Diff(want, have));
    SumZero(Stats(want, have));
    VisitsBounded(want, have);
  }
}
