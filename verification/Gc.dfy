/** Garbage collection: the protection judgment, the dry-run plan, and its execution either at
    once or through mark, grace, recheck and unlink. */
module Gc {
  import opened Prelude
  import opened Sorting
  import opened Lexicographic
  import opened MetadataTables
  import opened MetadataStore
  import opened GcSnapshot

  datatype Mode = Normal | Emergency
  datatype PolicyClass = ProvisionalStaging | CommittedResult | HotDependency | Toolchain | AuthoritativeEvidence
  datatype Policy = Policy(class_: PolicyClass, lastUse: u64)
  datatype Reason =
    | PinnedOrReachable | ActiveBuild | Materialization | Transfer | OpenReader
    | Authoritative | AwaitingReconciliation | RetainedByPolicy | BudgetTruncated

  datatype World = World(
    activeBuilds: set<Key>, materializations: set<Key>, transfers: set<Key>, openReaders: set<Key>,
    policies: map<Key, Policy>, reconciliationComplete: bool, reclaimBudget: nat)

  datatype GcPlan = GcPlan(
    mode: Mode, reclaim: seq<LocationKey>, protected: seq<(LocationKey, Reason)>, truncated: bool, seqNo: u64)

  function PolicyOf(world: World, key: Key): Policy {
    if key in world.policies then world.policies[key] else Policy(CommittedResult, 0)
  }

  function EvictionLayer(c: PolicyClass): nat {
    match c
    case ProvisionalStaging => 0
    case CommittedResult => 1
    case HotDependency => 2
    case Toolchain => 3
    case AuthoritativeEvidence => 4
  }

  /** The one judgment shared by planning and the recheck before unlink. */
  function ProtectionFor(preserved: set<Key>, world: World, mode: Mode, key: Key): (r: Option<Reason>)
    ensures r.None? <==>
      && key !in preserved && !Live(world, key)
      && PolicyOf(world, key).class_ != AuthoritativeEvidence
      && (PolicyOf(world, key).class_ == ProvisionalStaging ==> world.reconciliationComplete)
      && (PolicyOf(world, key).class_.HotDependency? || PolicyOf(world, key).class_.Toolchain? ==> mode != Normal)
    ensures r.Some? ==> r.value != BudgetTruncated
  {
    if key in preserved then Some(PinnedOrReachable)
    else if key in world.activeBuilds then Some(ActiveBuild)
    else if key in world.materializations then Some(Materialization)
    else if key in world.transfers then Some(Transfer)
    else if key in world.openReaders then Some(OpenReader)
    else
      match PolicyOf(world, key).class_
      case AuthoritativeEvidence => Some(Authoritative)
      case ProvisionalStaging => if world.reconciliationComplete then None else Some(AwaitingReconciliation)
      case HotDependency => if mode == Normal then Some(RetainedByPolicy) else None
      case Toolchain => if mode == Normal then Some(RetainedByPolicy) else None
      case CommittedResult => None
  }

  /** Held by something running. */
  predicate Live(world: World, key: Key) {
    key in world.activeBuilds || key in world.materializations || key in world.transfers || key in world.openReaders
  }

  // ---------------------------------------------------------------- orders

  predicate LocationAtMost(a: LocationKey, b: LocationKey) {
    if a.objectKey != b.objectKey then Below(a.objectKey, b.objectKey) else AtMost(a.path, b.path)
  }

  lemma LocationOrder()
    ensures Preorder(LocationAtMost)
    ensures forall a, b :: LocationAtMost(a, b) && LocationAtMost(b, a) ==> a == b
  {
    AtMostOrder();
    forall a, b, c | LocationAtMost(a, b) && LocationAtMost(b, c) ensures LocationAtMost(a, c) {
      assert AtMost(a.objectKey, b.objectKey) && AtMost(b.objectKey, c.objectKey);
      assert AtMost(a.objectKey, c.objectKey);
    }
    forall a, b ensures LocationAtMost(a, b) || LocationAtMost(b, a) {
      BelowTrichotomy(a.objectKey, b.objectKey);
      BelowTrichotomy(a.path, b.path);
    }
    forall a, b | LocationAtMost(a, b) && LocationAtMost(b, a) ensures a == b {
      BelowTrichotomy(a.objectKey, b.objectKey);
      BelowTrichotomy(a.path, b.path);
    }
  }

  /** Most aggressive layer first, coldest first, then the location itself. */
  predicate EvictedNoLater(world: World, a: LocationKey, b: LocationKey) {
    var p, q := PolicyOf(world, a.objectKey), PolicyOf(world, b.objectKey);
    if EvictionLayer(p.class_) != EvictionLayer(q.class_) then EvictionLayer(p.class_) < EvictionLayer(q.class_)
    else if p.lastUse != q.lastUse then p.lastUse < q.lastUse
    else LocationAtMost(a, b)
  }

  function EvictionOrder(world: World): (LocationKey, LocationKey) -> bool {
    (a, b) => EvictedNoLater(world, a, b)
  }

  lemma EvictionTotal(world: World)
    ensures Preorder(EvictionOrder(world))
    ensures forall a, b :: EvictedNoLater(world, a, b) && EvictedNoLater(world, b, a) ==> a == b
  {
    LocationOrder();
    var le := EvictionOrder(world);
    forall a, b, c | le(a, b) && le(b, c) ensures le(a, c) {
    }
  }

  // ---------------------------------------------------------------- the scan

  /** The location rows ORDER BY object_key, store_path. */
  ghost predicate IsScan(scan: seq<LocationKey>, locations: set<LocationKey>) {
    Elements(scan) == locations && Distinct(scan) && SortedBy(scan, LocationAtMost)
  }

  method Scan(keys: set<LocationKey>) returns (scan: seq<LocationKey>)
    ensures IsScan(scan, keys)
  {
    var rows := Rows(keys);
    scan := Sort(rows, LocationAtMost);
    LocationOrder();
    SortSorted(rows, LocationAtMost);
    SameElements(rows, scan);
    assert Elements(scan) == Elements(rows);
  }

  /** A scan is determined by the rows it lists. */
  lemma ScanUnique(a: seq<LocationKey>, b: seq<LocationKey>, locations: set<LocationKey>)
    requires IsScan(a, locations) && IsScan(b, locations)
    ensures a == b
  {
    LocationOrder();
    forall x ensures multiset(a)[x] == multiset(b)[x] {
      OnceCounts(a, x);
      OnceCounts(b, x);
      assert x in a <==> x in Elements(a);
      assert x in b <==> x in Elements(b);
      assert x in multiset(a) <==> x in multiset(b);
    }
    assert multiset(a) == multiset(b);
    SortedUnique(a, b, LocationAtMost);
  }

  // ---------------------------------------------------------------- planning

  function Judgment(preserved: set<Key>, world: World, mode: Mode): LocationKey -> Option<Reason> {
    (at: LocationKey) => ProtectionFor(preserved, world, mode, at.objectKey)
  }

  function Passing<T, R>(judge: T -> Option<R>, s: seq<T>): seq<T> {
    if s == [] then [] else (if judge(s[0]).None? then [s[0]] else []) + Passing(judge, s[1..])
  }

  function Failing<T, R>(judge: T -> Option<R>, s: seq<T>): seq<(T, R)> {
    if s == [] then []
    else (match judge(s[0]) case Some(reason) => [(s[0], reason)] case None => []) + Failing(judge, s[1..])
  }

  function Truncated(order: seq<LocationKey>): seq<(LocationKey, Reason)> {
    Map((at: LocationKey) => (at, BudgetTruncated), order)
  }

  /** The candidates in eviction order. */
  function Evictable(scan: seq<LocationKey>, preserved: set<Key>, world: World, mode: Mode): seq<LocationKey> {
    Sort(Passing(Judgment(preserved, world, mode), scan), EvictionOrder(world))
  }

  function PlanOf(scan: seq<LocationKey>, preserved: set<Key>, world: World, mode: Mode, seqNo: u64): GcPlan {
    var order := Evictable(scan, preserved, world, mode);
    var n := if |order| < world.reclaimBudget then |order| else world.reclaimBudget;
    GcPlan(mode, order[..n], Failing(Judgment(preserved, world, mode), scan) + Truncated(order[n..]),
           |order| > world.reclaimBudget, seqNo)
  }

  lemma JudgeAppend<T, R>(judge: T -> Option<R>, s: seq<T>, x: T)
    ensures Passing(judge, s + [x]) == Passing(judge, s) + (if judge(x).None? then [x] else [])
    ensures Failing(judge, s + [x]) ==
      Failing(judge, s) + (match judge(x) case Some(reason) => [(x, reason)] case None => [])
  {
    if s == [] {
      assert s + [x] == [x];
      assert [x][1..] == [];
    } else {
      assert (s + [x])[1..] == s[1..] + [x];
      JudgeAppend(judge, s[1..], x);
    }
  }

  /** First pass: judge every scanned location. */
  method Judge(rows: seq<LocationKey>, preserved: set<Key>, world: World, mode: Mode)
    returns (candidates: seq<LocationKey>, protected: seq<(LocationKey, Reason)>)
    ensures candidates == Passing(Judgment(preserved, world, mode), rows)
    ensures protected == Failing(Judgment(preserved, world, mode), rows)
  {
    candidates, protected := [], [];
    for i := 0 to |rows|
      invariant candidates == Passing(Judgment(preserved, world, mode), rows[..i])
      invariant protected == Failing(Judgment(preserved, world, mode), rows[..i])
    {
      assert rows[..i+1] == rows[..i] + [rows[i]];
      JudgeAppend(Judgment(preserved, world, mode), rows[..i], rows[i]);
      match ProtectionFor(preserved, world, mode, rows[i].objectKey)
      case Some(reason) => protected := protected + [(rows[i], reason)];
      case None => candidates := candidates + [rows[i]];
    }
    assert rows[..|rows|] == rows;
  }

  lemma TruncatedAppend(order: seq<LocationKey>, from: nat, i: nat)
    requires from <= i < |order|
    ensures Truncated(order[from..i+1]) == Truncated(order[from..i]) + [(order[i], BudgetTruncated)]
  {
    assert order[from..i+1] == order[from..i] + [order[i]];
  }

  /** Second pass: the first candidates up to the budget are reclaimed, the rest kept. */
  method CutToBudget(order: seq<LocationKey>, budget: nat)
    returns (reclaim: seq<LocationKey>, kept: seq<(LocationKey, Reason)>)
    ensures var n := if |order| < budget then |order| else budget;
      reclaim == order[..n] && kept == Truncated(order[n..])
  {
    reclaim, kept := [], [];
    for i := 0 to |order|
      invariant i <= budget ==> reclaim == order[..i] && kept == []
      invariant i >= budget ==> reclaim == order[..budget] && kept == Truncated(order[budget..i])
    {
      if i < budget {
        reclaim := reclaim + [order[i]];
      } else {
        TruncatedAppend(order, budget, i);
        kept := kept + [(order[i], BudgetTruncated)];
      }
    }
    if |order| > budget {
      assert order[budget..|order|] == order[budget..];
    }
  }

  /** `plan_gc`: pure given the snapshot, apart from the recorded run. */
  method PlanGc(store: SqlMetadataStore, world: World, mode: Mode, seqNo: u64)
    returns (r: Result<GcPlan, Error>, ghost scan: seq<LocationKey>)
    requires store.Valid()
    modifies store
    ensures store.Valid()
    ensures IsScan(scan, old(store.durable).storage.locations.Keys)
    ensures r.Ok? ==>
      && r.value == PlanOf(scan, Preserved(old(store.durable)), world, mode, seqNo)
      && store.durable == WithRun(old(store.durable), SnapshotRun(old(store.durable), seqNo))
    ensures r.Err? ==>
      || store.durable == old(store.durable)
      || store.durable == WithRun(old(store.durable), SnapshotRun(old(store.durable), seqNo))
    ensures old(store.budget) == None ==> store.budget == None && (r.Ok? <==> seqNo < I64_LIMIT)
  {
    ghost var t := store.durable;
    var snapshot := TakeSnapshot(store, seqNo);
    var rows := Scan(store.durable.storage.locations.Keys);
    scan := rows;
    if snapshot.Err? {
      return Err(snapshot.error), scan;
    }
    if store.budget == Some(0) {
      return Err(Crash), scan;
    }
    var preserved := PreservedSet(snapshot.value);
    PreservedSetExact(snapshot.value, t);
    var candidates, protected := Judge(rows, preserved, world, mode);
    var order := Sort(candidates, EvictionOrder(world));
    var reclaim, kept := CutToBudget(order, world.reclaimBudget);
    return Ok(GcPlan(mode, reclaim, protected + kept, |order| > world.reclaimBudget, seqNo)), scan;
  }

  /** The same snapshot gives the same plan. */
  lemma PlanDeterministic(a: seq<LocationKey>, b: seq<LocationKey>, t: Tables, world: World, mode: Mode, seqNo: u64)
    requires IsScan(a, t.storage.locations.Keys) && IsScan(b, t.storage.locations.Keys)
    ensures PlanOf(a, Preserved(t), world, mode, seqNo) == PlanOf(b, Preserved(t), world, mode, seqNo)
  {
    ScanUnique(a, b, t.storage.locations.Keys);
  }

  function Listed<T, R>(rows: seq<(T, R)>): seq<T> {
    if rows == [] then [] else [rows[0].0] + Listed(rows[1..])
  }

  lemma ListedConcat<T, R>(a: seq<(T, R)>, b: seq<(T, R)>)
    ensures Listed(a + b) == Listed(a) + Listed(b)
  {
    if a == [] {
      assert a + b == b;
    } else {
      assert (a + b)[1..] == a[1..] + b;
    }
  }

  lemma {:induction false} ListedTruncated(order: seq<LocationKey>)
    ensures Listed(Truncated(order)) == order
  {
    if order != [] {
      ListedTruncated(order[1..]);
      assert Truncated(order)[1..] == Truncated(order[1..]);
    }
  }

  lemma CountsCons<T>(x: T, p: seq<T>, f: seq<T>, s: seq<T>)
    requires multiset(p) + multiset(f) == multiset(s)
    ensures multiset([x] + p) + multiset(f) == multiset([x] + s)
    ensures multiset(p) + multiset([x] + f) == multiset([x] + s)
  {
    assert multiset([x] + p) == multiset{x} + multiset(p);
    assert multiset([x] + f) == multiset{x} + multiset(f);
    assert multiset([x] + s) == multiset{x} + multiset(s);
  }

  lemma CountsCut<T>(order: seq<T>, n: nat, kept: seq<T>, s: seq<T>)
    requires n <= |order| && multiset(order) + multiset(kept) == multiset(s)
    ensures multiset(order[..n]) + multiset(kept + order[n..]) == multiset(s)
  {
    assert order == order[..n] + order[n..];
    assert multiset(kept + order[n..]) == multiset(kept) + multiset(order[n..]);
  }

  lemma FirstPasses<T, R>(judge: T -> Option<R>, s: seq<T>)
    requires s != [] && judge(s[0]).None?
    ensures Passing(judge, s) == [s[0]] + Passing(judge, s[1..]) && Failing(judge, s) == Failing(judge, s[1..])
  {
  }

  lemma FirstFails<T, R>(judge: T -> Option<R>, s: seq<T>)
    requires s != [] && judge(s[0]).Some?
    ensures Passing(judge, s) == Passing(judge, s[1..])
    ensures Listed(Failing(judge, s)) == [s[0]] + Listed(Failing(judge, s[1..]))
  {
    assert Failing(judge, s)[1..] == Failing(judge, s[1..]);
  }

  lemma {:induction false} SplitCounts<T, R>(judge: T -> Option<R>, s: seq<T>)
    ensures multiset(Passing(judge, s)) + multiset(Listed(Failing(judge, s))) == multiset(s)
  {
    if s != [] {
      SplitCounts(judge, s[1..]);
      CountsCons(s[0], Passing(judge, s[1..]), Listed(Failing(judge, s[1..])), s[1..]);
      assert [s[0]] + s[1..] == s;
      if judge(s[0]).None? {
        FirstPasses(judge, s);
      } else {
        FirstFails(judge, s);
      }
    }
  }

  lemma {:induction false} JudgedTrue<T, R>(judge: T -> Option<R>, s: seq<T>)
    ensures forall row :: row in Failing(judge, s) ==> judge(row.0) == Some(row.1)
    ensures forall x :: x in Passing(judge, s) ==> x in s && judge(x) == None
  {
    if s != [] {
      JudgedTrue(judge, s[1..]);
    }
  }

  lemma TruncatedRows(order: seq<LocationKey>)
    ensures forall row :: row in Truncated(order) <==> row.0 in order && row.1 == BudgetTruncated
  {
    forall at | at in order ensures (at, BudgetTruncated) in Truncated(order) {
      var i :| 0 <= i < |order| && order[i] == at;
      assert Truncated(order)[i] == (at, BudgetTruncated);
    }
  }

  lemma EvictableUnprotected(scan: seq<LocationKey>, preserved: set<Key>, world: World, mode: Mode, at: LocationKey)
    requires at in Evictable(scan, preserved, world, mode)
    ensures at in scan && ProtectionFor(preserved, world, mode, at.objectKey).None?
  {
    JudgedTrue(Judgment(preserved, world, mode), scan);
    SameElements(Passing(Judgment(preserved, world, mode), scan), Evictable(scan, preserved, world, mode));
  }

  lemma EvictableSorted(scan: seq<LocationKey>, preserved: set<Key>, world: World, mode: Mode, i: nat, j: nat)
    requires i < j < |Evictable(scan, preserved, world, mode)|
    ensures var order := Evictable(scan, preserved, world, mode); EvictedNoLater(world, order[i], order[j])
  {
    EvictionTotal(world);
    SortSorted(Passing(Judgment(preserved, world, mode), scan), EvictionOrder(world));
    var order := Evictable(scan, preserved, world, mode);
    assert EvictionOrder(world)(order[i], order[j]);
  }

  /** Every scanned location is in the plan exactly once, reclaimed or protected. */
  lemma PlanPartition(scan: seq<LocationKey>, preserved: set<Key>, world: World, mode: Mode, seqNo: u64)
    ensures var plan := PlanOf(scan, preserved, world, mode, seqNo);
      multiset(plan.reclaim) + multiset(Listed(plan.protected)) == multiset(scan)
  {
    var order := Evictable(scan, preserved, world, mode);
    var n := if |order| < world.reclaimBudget then |order| else world.reclaimBudget;
    var kept := Failing(Judgment(preserved, world, mode), scan);
    SplitCounts(Judgment(preserved, world, mode), scan);
    ListedConcat(kept, Truncated(order[n..]));
    ListedTruncated(order[n..]);
    CountsCut(order, n, Listed(kept), scan);
  }

  /** What is reclaimed is unprotected; what is protected carries the true reason, and is
      truncated only when nothing else protects it. */
  lemma PlanReasons(scan: seq<LocationKey>, preserved: set<Key>, world: World, mode: Mode, seqNo: u64)
    ensures var plan := PlanOf(scan, preserved, world, mode, seqNo);
      && (forall at :: at in plan.reclaim ==> ProtectionFor(preserved, world, mode, at.objectKey).None?)
      && (forall row :: row in plan.protected ==>
            ProtectionFor(preserved, world, mode, row.0.objectKey)
            == if row.1 == BudgetTruncated then None else Some(row.1))
  {
    var order := Evictable(scan, preserved, world, mode);
    var n := if |order| < world.reclaimBudget then |order| else world.reclaimBudget;
    JudgedTrue(Judgment(preserved, world, mode), scan);
    TruncatedRows(order[n..]);
    forall at | at in order ensures ProtectionFor(preserved, world, mode, at.objectKey).None? {
      EvictableUnprotected(scan, preserved, world, mode, at);
    }
  }

  /** The budget cuts the eviction order: the plan reclaims as much as it may, in order, and a
      truncated candidate is never ahead of a reclaimed one. */
  lemma PlanTruncation(scan: seq<LocationKey>, preserved: set<Key>, world: World, mode: Mode, seqNo: u64)
    ensures var plan := PlanOf(scan, preserved, world, mode, seqNo);
      && SortedBy(plan.reclaim, EvictionOrder(world))
      && |plan.reclaim| <= world.reclaimBudget
      && (plan.truncated ==> |plan.reclaim| == world.reclaimBudget)
      && (plan.truncated <==> exists row :: row in plan.protected && row.1 == BudgetTruncated)
      && (forall at, row :: at in plan.reclaim && row in plan.protected && row.1 == BudgetTruncated ==>
            plan.truncated && EvictedNoLater(world, at, row.0))
  {
    var order := Evictable(scan, preserved, world, mode);
    var n := if |order| < world.reclaimBudget then |order| else world.reclaimBudget;
    forall i, j | 0 <= i < j < |order| ensures EvictedNoLater(world, order[i], order[j]) {
      EvictableSorted(scan, preserved, world, mode, i, j);
    }
    JudgedTrue(Judgment(preserved, world, mode), scan);
    TruncatedRows(order[n..]);
    if |order| > n { assert (order[n], BudgetTruncated) in Truncated(order[n..]); }
    forall at, row | at in order[..n] && row in Truncated(order[n..]) ensures EvictedNoLater(world, at, row.0) {
      var i :| 0 <= i < n && order[i] == at;
      var j :| n <= j < |order| && order[j] == row.0;
    }
  }

  // ---------------------------------------------------------------- which way the order runs

  /** The retention classes from the most aggressively evicted on; evidence is not evicted at all. */
  const EVICTION_CLASSES: seq<PolicyClass> := [ProvisionalStaging, CommittedResult, HotDependency, Toolchain]

  /** An object no policy names counts as a committed result, never used. */
  ghost predicate Governed(world: World, key: Key, class_: PolicyClass, lastUse: u64) {
    if key in world.policies then world.policies[key] == Policy(class_, lastUse)
    else class_ == CommittedResult && lastUse == 0
  }

  /** Goes first: an earlier class in the list, or the same class and an earlier use, or the same
      use and a location no later by object key and path. */
  ghost predicate GoesFirst(world: World, a: LocationKey, b: LocationKey) {
    exists i, j, u, v ::
      && 0 <= i <= j < |EVICTION_CLASSES|
      && Governed(world, a.objectKey, EVICTION_CLASSES[i], u) && Governed(world, b.objectKey, EVICTION_CLASSES[j], v)
      && (i == j ==> u <= v)
      && (i == j && u == v ==>
            Below(a.objectKey, b.objectKey) || (a.objectKey == b.objectKey && AtMost(a.path, b.path)))
  }

  lemma OrderRuns(world: World, a: LocationKey, b: LocationKey)
    requires EvictedNoLater(world, a, b)
    requires PolicyOf(world, a.objectKey).class_ != AuthoritativeEvidence
    requires PolicyOf(world, b.objectKey).class_ != AuthoritativeEvidence
    ensures GoesFirst(world, a, b)
  {
    var p, q := PolicyOf(world, a.objectKey), PolicyOf(world, b.objectKey);
    var i, j := EvictionLayer(p.class_), EvictionLayer(q.class_);
    assert EVICTION_CLASSES[i] == p.class_ && EVICTION_CLASSES[j] == q.class_;
    assert Governed(world, a.objectKey, EVICTION_CLASSES[i], p.lastUse);
    assert Governed(world, b.objectKey, EVICTION_CLASSES[j], q.lastUse);
  }

  /** The plan reclaims the most aggressive classes first and the coldest objects of a class first:
      between any two places of the reclaim list, and between what is reclaimed and what the budget
      cut. Ties in class and use go by object key and path. */
  lemma PlanColdestFirst(scan: seq<LocationKey>, preserved: set<Key>, world: World, mode: Mode, seqNo: u64)
    ensures var plan := PlanOf(scan, preserved, world, mode, seqNo);
      && (forall i, j :: 0 <= i < j < |plan.reclaim| ==>
            GoesFirst(world, plan.reclaim[i], plan.reclaim[j]))
      && (forall at, row :: at in plan.reclaim && row in plan.protected && row.1 == BudgetTruncated ==>
            GoesFirst(world, at, row.0))
  {
    var plan := PlanOf(scan, preserved, world, mode, seqNo);
    PlanReasons(scan, preserved, world, mode, seqNo);
    PlanTruncation(scan, preserved, world, mode, seqNo);
    forall i, j | 0 <= i < j < |plan.reclaim|
      ensures GoesFirst(world, plan.reclaim[i], plan.reclaim[j])
    {
      assert plan.reclaim[i] in plan.reclaim && plan.reclaim[j] in plan.reclaim;
      assert EvictionOrder(world)(plan.reclaim[i], plan.reclaim[j]);
      OrderRuns(world, plan.reclaim[i], plan.reclaim[j]);
    }
    forall at, row | at in plan.reclaim && row in plan.protected && row.1 == BudgetTruncated
      ensures GoesFirst(world, at, row.0)
    {
      OrderRuns(world, at, row.0);
    }
  }

  // ---------------------------------------------------------------- what each reason means

  /** Every reason in its own terms: pins first, then what is running in the order of the source,
      then policy. */
  lemma ReasonMeans(preserved: set<Key>, world: World, mode: Mode, key: Key)
    ensures var r := ProtectionFor(preserved, world, mode, key);
      var held := key in preserved || Live(world, key); var class_ := PolicyOf(world, key).class_;
      && (r == Some(PinnedOrReachable) <==> key in preserved)
      && (r == Some(ActiveBuild) <==> key !in preserved && key in world.activeBuilds)
      && (r == Some(Materialization) <==>
            key !in preserved && key !in world.activeBuilds && key in world.materializations)
      && (r == Some(Transfer) <==>
            && key !in preserved && key !in world.activeBuilds && key !in world.materializations
            && key in world.transfers)
      && (r == Some(OpenReader) <==>
            && key !in preserved && key !in world.activeBuilds && key !in world.materializations
            && key !in world.transfers && key in world.openReaders)
      && (r == Some(Authoritative) <==> !held && class_ == AuthoritativeEvidence)
      && (r == Some(AwaitingReconciliation) <==> !held && class_ == ProvisionalStaging && !world.reconciliationComplete)
      && (r == Some(RetainedByPolicy) <==> !held && (class_ == HotDependency || class_ == Toolchain) && mode == Normal)
  {
  }
}
