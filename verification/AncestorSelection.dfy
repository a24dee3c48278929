/** Choosing a warm-start base: the nearest compatible snapshot, if it pays. */
module AncestorSelection {
  import opened Prelude
  import opened Walks
  import opened CommitGraph
  import opened AncestryIndex

  datatype Candidate = Candidate(snapshotId: nat, state: SourceState, compatClass: nat)

  /** Milliseconds, as u64. */
  datatype CostHistory = CostHistory(fullBuild: u64, materialize: u64, perGeneration: u64)

  datatype ColdCause = NoCompatibleAncestor | WarmNotWorthIt(warm: nat, full: nat)
  datatype Selection = WarmStart(snapshotId: nat, distance: nat, saving: nat) | ColdBuild(cause: ColdCause)

  function Compatible(cs: seq<Candidate>, cl: nat): (r: seq<Candidate>)
    ensures forall c :: c in r <==> c in cs && c.compatClass == cl
  {
    if cs == [] then []
    else (if cs[0].compatClass == cl then [cs[0]] else []) + Compatible(cs[1..], cl)
  }

  function FirstAt(cs: seq<Candidate>, s: SourceState): (r: Option<Candidate>)
    ensures r.Some? ==> r.value in cs && r.value.state == s
    ensures r.None? ==> forall c :: c in cs ==> c.state != s
  {
    if cs == [] then None
    else if cs[0].state == s then Some(cs[0])
    else
      assert cs == [cs[0]] + cs[1..];
      FirstAt(cs[1..], s)
  }

  lemma {:induction false} EarliestAt(cs: seq<Candidate>, s: SourceState) returns (i: nat)
    requires FirstAt(cs, s).Some?
    ensures i < |cs| && FirstAt(cs, s) == Some(cs[i]) && forall j :: 0 <= j < i ==> cs[j].state != s
  {
    if cs[0].state == s {
      i := 0;
    } else {
      var k := EarliestAt(cs[1..], s);
      i := k + 1;
      assert forall j :: 0 < j < i ==> cs[j] == cs[1..][j-1];
    }
  }

  /** Exact state first, then the clean tree at the same commit. */
  function CandidateAt(cs: seq<Candidate>, c: Commit, dirty: Option<nat>): (r: Option<Candidate>)
    ensures r.Some? ==> r.value in cs && r.value.state.commit == c && r.value.state.dirty in {dirty, None}
    ensures r.None? ==> forall x :: x in cs ==> x.state != SourceState(c, dirty) && x.state != SourceState(c, None)
    ensures forall x :: x in cs && x.state == SourceState(c, dirty) ==> r.Some? && r.value.state == x.state
  {
    match FirstAt(cs, SourceState(c, dirty))
    case Some(x) => Some(x)
    case None => FirstAt(cs, SourceState(c, None))
  }

  function Selecting(cs: seq<Candidate>, target: SourceState): Finder<Candidate> {
    (c: Commit, d: nat) => CandidateAt(cs, c, if d == 0 then target.dirty else None)
  }

  /** `nearest_compatible`: incompatible classes are out before distance is asked. */
  function NearestCompatible(cs: seq<Candidate>, target: SourceState, cl: nat, g: Graph): Option<(Candidate, nat)> {
    Search(Selecting(Compatible(cs, cl), target), g, [target.commit], [], 0)
  }

  lemma SelectingFades(cs: seq<Candidate>, target: SourceState)
    ensures Fading(Selecting(cs, target))
  {
    var find := Selecting(cs, target);
    forall c, d: nat, n: nat | d <= n && find(c, d).None? ensures find(c, n).None? {
      assert find(c, d) == CandidateAt(cs, c, if d == 0 then target.dirty else None);
      assert find(c, n) == CandidateAt(cs, c, if n == 0 then target.dirty else None);
    }
  }

  lemma SelectingUsable(cs: seq<Candidate>, g: Graph, target: SourceState, c: Commit, n: nat)
    requires ReachesIn(Parent(g), target.commit, c, n)
    ensures Selecting(cs, target)(c, n).Some? <==>
      exists x :: x in cs && x.state.commit == c && Usable(g, target, x.state, n)
    ensures forall x :: Selecting(cs, target)(c, n) == Some(x) ==>
      x in cs && x.state.commit == c && Usable(g, target, x.state, n)
  {
    var dirty := if n == 0 then target.dirty else None;
    assert Selecting(cs, target)(c, n) == CandidateAt(cs, c, dirty);
    forall x | x in cs && x.state.commit == c && Usable(g, target, x.state, n) ensures CandidateAt(cs, c, dirty).Some? {
      assert x.state == SourceState(c, dirty) || x.state == SourceState(c, None);
    }
  }

  /** A candidate of the target's class that can serve it from `n` parent edges away. */
  ghost predicate Serves(cs: seq<Candidate>, target: SourceState, cl: nat, g: Graph, c: Candidate, n: nat) {
    c in cs && c.compatClass == cl && Usable(g, target, c.state, n)
  }

  /** The nearest compatible candidate is the nearest usable one of the class, or there is none. */
  lemma NearestCompatibleExact(cs: seq<Candidate>, target: SourceState, cl: nat, g: Graph)
    ensures match NearestCompatible(cs, target, cl, g)
      case None => forall c, n: nat :: !Serves(cs, target, cl, g, c, n)
      case Some(hit) =>
        && Serves(cs, target, cl, g, hit.0, hit.1)
        && (forall c, n: nat :: n < hit.1 ==> !Serves(cs, target, cl, g, c, n))
  {
    var own := Compatible(cs, cl);
    var find := Selecting(own, target);
    SelectingFades(own, target);
    SearchNearest(find, g, target.commit);
    forall c, n: nat | Serves(cs, target, cl, g, c, n) ensures find(c.state.commit, n).Some? {
      SelectingUsable(own, g, target, c.state.commit, n);
    }
    match NearestCompatible(cs, target, cl, g) {
      case None =>
      case Some(hit) =>
        var c :| ReachesIn(Parent(g), target.commit, c, hit.1) && find(c, hit.1) == Some(hit.0);
        SelectingUsable(own, g, target, c, hit.1);
    }
  }

  // ---------------------------------------------------------------- agreement with the index query

  function EntryOf(c: Candidate): Entry {
    Entry(c.state, c.snapshotId)
  }

  /** The index holds exactly the candidates, and no state twice. */
  ghost predicate Mirrors(es: seq<Entry>, cs: seq<Candidate>) {
    && (forall c :: c in cs ==> EntryOf(c) in es)
    && (forall e :: e in es ==> exists c :: c in cs && EntryOf(c) == e)
    && (forall x, y :: x in cs && y in cs && x.state == y.state ==> x == y)
  }

  function AsEntry(r: Option<Candidate>): Option<Entry> {
    match r case None => None case Some(c) => Some(EntryOf(c))
  }

  lemma LookupsAgree(es: seq<Entry>, cs: seq<Candidate>, s: SourceState)
    requires Mirrors(es, cs)
    ensures LastAt(es, s) == AsEntry(FirstAt(cs, s))
  {
    if FirstAt(cs, s).Some? { assert EntryOf(FirstAt(cs, s).value) in es; }
    if LastAt(es, s).Some? {
      var c :| c in cs && EntryOf(c) == LastAt(es, s).value;
      assert FirstAt(cs, s).Some?;
    }
  }

  lemma FindersAgree(es: seq<Entry>, cs: seq<Candidate>, target: SourceState, c: Commit, d: nat)
    requires Mirrors(es, cs)
    ensures Finding(es, target)(c, d) == AsEntry(Selecting(cs, target)(c, d))
  {
    var dirty := if d == 0 then target.dirty else None;
    assert Finding(es, target)(c, d) == AtCommit(es, c, dirty);
    assert Selecting(cs, target)(c, d) == CandidateAt(cs, c, dirty);
    LookupsAgree(es, cs, SourceState(c, dirty));
    LookupsAgree(es, cs, SourceState(c, None));
  }

  lemma {:induction false} FirstFindsAgree(
      es: seq<Entry>, cs: seq<Candidate>, target: SourceState, layer: seq<Commit>, d: nat)
    requires Mirrors(es, cs)
    ensures FirstFind(Finding(es, target), layer, d) == AsEntry(FirstFind(Selecting(cs, target), layer, d))
  {
    if layer != [] {
      FindersAgree(es, cs, target, layer[0], d);
      FirstFindsAgree(es, cs, target, layer[1..], d);
    }
  }

  function AsAnswer(r: Option<(Candidate, nat)>): Option<(Entry, nat)> {
    match r case None => None case Some(hit) => Some((EntryOf(hit.0), hit.1))
  }

  lemma {:induction false} SearchesAgree(es: seq<Entry>, cs: seq<Candidate>, target: SourceState, g: Graph,
                                        layer: seq<Commit>, seen: seq<Commit>, d: nat)
    requires Mirrors(es, cs)
    ensures Search(Finding(es, target), g, layer, seen, d) == AsAnswer(Search(Selecting(cs, target), g, layer, seen, d))
    decreases |g.Keys - Elements(seen)|, |layer|
  {
    if layer != [] {
      FirstFindsAgree(es, cs, target, layer, d);
      LayerProgress(g, layer, seen);
      SearchesAgree(es, cs, target, g, NextLayer(g, layer, seen), NextSeen(layer, seen), d + 1);
    }
  }

  lemma {:induction false} CompatibleAll(cs: seq<Candidate>, cl: nat)
    requires forall c :: c in cs ==> c.compatClass == cl
    ensures Compatible(cs, cl) == cs
  {
    if cs != [] { CompatibleAll(cs[1..], cl); }
  }

  /** Over candidates of one class with distinct states, both queries give the same answer. */
  lemma QueriesAgree(es: seq<Entry>, cs: seq<Candidate>, target: SourceState, cl: nat, g: Graph)
    requires Mirrors(es, cs) && forall c :: c in cs ==> c.compatClass == cl
    ensures NearestSpec(es, target, g) == AsAnswer(NearestCompatible(cs, target, cl, g))
  {
    CompatibleAll(cs, cl);
    SearchesAgree(es, cs, target, g, [target.commit], [], 0);
  }

  // ---------------------------------------------------------------- paying for itself

  /** The estimate, without a machine word around it. */
  function WarmCost(h: CostHistory, distance: nat): nat {
    h.materialize + distance * h.perGeneration
  }

  /** `warm_ms`, in wrapping u64 arithmetic. */
  function WarmMs(h: CostHistory, distance: nat): (r: u64)
    ensures WarmCost(h, distance) < U64_LIMIT ==> r == WarmCost(h, distance)
  {
    (h.materialize + (distance * h.perGeneration) % U64_LIMIT) % U64_LIMIT
  }

  lemma {:induction false} MoreMultiples(d: nat, n: nat, p: nat)
    requires d <= n
    ensures d * p <= n * p
  {
    if d < n {
      MoreMultiples(d, n - 1, p);
      assert n * p == (n - 1) * p + p;
    }
  }

  lemma FartherCostsMore(h: CostHistory, d: nat, n: nat)
    requires d <= n
    ensures WarmCost(h, d) <= WarmCost(h, n)
  {
    MoreMultiples(d, n, h.perGeneration);
  }

  function Decide(hit: Option<(Candidate, nat)>, h: CostHistory): Selection {
    match hit
    case None => ColdBuild(NoCompatibleAncestor)
    case Some((c, d)) =>
      var warm := WarmMs(h, d);
      if warm >= h.fullBuild then ColdBuild(WarmNotWorthIt(warm, h.fullBuild))
      else WarmStart(c.snapshotId, d, h.fullBuild - warm)
  }

  function SelectSpec(cs: seq<Candidate>, target: SourceState, cl: nat, g: Graph, h: CostHistory): Selection {
    Decide(NearestCompatible(cs, target, cl, g), h)
  }

  /** The estimate at the distance found fits a u64. */
  predicate NoOverflow(cs: seq<Candidate>, target: SourceState, cl: nat, g: Graph, h: CostHistory) {
    var hit := NearestCompatible(cs, target, cl, g);
    hit.Some? ==> WarmCost(h, hit.value.1) < U64_LIMIT
  }

  /** A candidate that serves and beats the full build. */
  ghost predicate Pays(
      cs: seq<Candidate>, target: SourceState, cl: nat, g: Graph, h: CostHistory, c: Candidate, n: nat) {
    Serves(cs, target, cl, g, c, n) && WarmCost(h, n) < h.fullBuild
  }

  /** Without overflow, a warm start is chosen exactly when some usable candidate of the class
      beats the full build, and the one chosen costs no more than any other. */
  lemma SelectOptimal(cs: seq<Candidate>, target: SourceState, cl: nat, g: Graph, h: CostHistory)
    requires NoOverflow(cs, target, cl, g, h)
    ensures match SelectSpec(cs, target, cl, g, h)
      case ColdBuild(_) => forall c, n: nat :: !Pays(cs, target, cl, g, h, c, n)
      case WarmStart(id, d, saving) =>
        && (exists c: Candidate :: c.snapshotId == id && Pays(cs, target, cl, g, h, c, d))
        && saving == h.fullBuild - WarmCost(h, d)
        && (forall c, n: nat :: Serves(cs, target, cl, g, c, n) ==> WarmCost(h, d) <= WarmCost(h, n))
  {
    NearestCompatibleExact(cs, target, cl, g);
    match NearestCompatible(cs, target, cl, g) {
      case None =>
      case Some((c, d)) =>
        forall x, n: nat | Serves(cs, target, cl, g, x, n) ensures WarmCost(h, d) <= WarmCost(h, n) {
          FartherCostsMore(h, d, n);
        }
    }
  }

  /** A compatible candidate of exactly the target's state is taken before any other. */
  lemma ExactCandidateWins(cs: seq<Candidate>, target: SourceState, cl: nat, g: Graph, c: Candidate)
    requires c in cs && c.compatClass == cl && c.state == target
    ensures NearestCompatible(cs, target, cl, g).Some?
    ensures var (hit, d) := NearestCompatible(cs, target, cl, g).value; hit.state == target && d == 0
  {
    var own := Compatible(cs, cl);
    var find := Selecting(own, target);
    assert c in own && target == SourceState(target.commit, target.dirty);
    assert find(target.commit, 0) == CandidateAt(own, target.commit, target.dirty);
  }

  /** A cold build that says a warm start is not worth it names the two costs it compared: that of
      the nearest candidate and that of the full build, the first no less than the second. */
  lemma ColdCostsTrue(cs: seq<Candidate>, target: SourceState, cl: nat, g: Graph, h: CostHistory, warm: nat, full: nat)
    requires SelectSpec(cs, target, cl, g, h) == ColdBuild(WarmNotWorthIt(warm, full))
    requires NoOverflow(cs, target, cl, g, h)
    ensures full == h.fullBuild <= warm
    ensures exists c, d: nat :: Serves(cs, target, cl, g, c, d) && warm == h.materialize + d * h.perGeneration
  {
    NearestCompatibleExact(cs, target, cl, g);
    var (c, d) := NearestCompatible(cs, target, cl, g).value;
    assert Serves(cs, target, cl, g, c, d);
  }

  /** The cause of a cold build tells the two reasons apart. */
  lemma ColdCauseExact(cs: seq<Candidate>, target: SourceState, cl: nat, g: Graph, h: CostHistory)
    ensures SelectSpec(cs, target, cl, g, h) == ColdBuild(NoCompatibleAncestor) <==>
      forall c, n: nat :: !Serves(cs, target, cl, g, c, n)
  {
    NearestCompatibleExact(cs, target, cl, g);
  }

  // ---------------------------------------------------------------- the loops

  method FilterCompatible(cs: seq<Candidate>, cl: nat) returns (r: seq<Candidate>)
    ensures r == Compatible(cs, cl)
  {
    r := [];
    assert cs == cs[0..];
    for i := 0 to |cs|
      invariant Compatible(cs, cl) == r + Compatible(cs[i..], cl)
    {
      assert cs[i..][1..] == cs[i+1..];
      if cs[i].compatClass == cl { r := r + [cs[i]]; }
    }
  }

  method FindAt(cs: seq<Candidate>, s: SourceState) returns (r: Option<Candidate>)
    ensures r == FirstAt(cs, s)
  {
    assert cs == cs[0..];
    for i := 0 to |cs|
      invariant FirstAt(cs, s) == FirstAt(cs[i..], s)
    {
      if cs[i].state == s { return Some(cs[i]); }
      assert cs[i..][1..] == cs[i+1..];
    }
    return None;
  }

  /** The walk of `nearest_compatible`: distance zero is settled before the loop, which therefore
      looks for finds only above it. */
  method FindNearestCompatible(cs: seq<Candidate>, target: SourceState, cl: nat, g: Graph)
    returns (r: Option<(Candidate, nat)>)
    ensures r == NearestCompatible(cs, target, cl, g)
  {
    var own := FilterCompatible(cs, cl);
    var find, root := Selecting(own, target), target.commit;
    var exact := FindAt(own, target);
    if exact.None? { exact := FindAt(own, SourceState(root, None)); }
    assert target == SourceState(root, target.dirty);
    assert find(root, 0) == CandidateAt(own, root, target.dirty) == exact;
    assert FirstFind(find, [root], 0) == exact;
    if exact.Some? { return Some((exact.value, 0)); }
    var layer, seen: seq<Commit>, d: nat := [root], [], 0;
    while layer != []
      invariant NearestCompatible(cs, target, cl, g) == Search(find, g, layer, seen, d)
      invariant d == 0 ==> layer == [root]
      decreases |g.Keys - Elements(seen)|, |layer|
    {
      if d > 0 {
        var hit := FindInLayer(find, layer, d);
        if hit.Some? { return Some((hit.value, d)); }
      }
      LayerProgress(g, layer, seen);
      layer, seen := ExpandLayer(g, layer, seen);
      d := d + 1;
    }
    return None;
  }

  /** `select`. */
  method Select(cs: seq<Candidate>, target: SourceState, cl: nat, g: Graph, h: CostHistory) returns (r: Selection)
    ensures r == SelectSpec(cs, target, cl, g, h)
  {
    var hit := FindNearestCompatible(cs, target, cl, g);
    r := Decide(hit, h);
  }
}
