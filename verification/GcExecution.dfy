/** Carrying a plan out: immediate execution, and the mark, grace, recheck, unlink pipeline. */
module GcExecution {
  import opened Prelude
  import opened Sorting
  import opened MetadataTables
  import opened MetadataStore
  import opened GcSnapshot
  import opened Gc

  /** The tables with some locations gone and some tombstones cleared. */
  function Without(t: Tables, gone: set<LocationKey>, cleared: set<LocationKey>): Tables {
    t.(storage := t.storage.(locations := t.storage.locations - gone, tombstones := t.storage.tombstones - cleared))
  }

  lemma RemoveLocationEffect(at: LocationKey, t: Tables)
    ensures Perform(RemoveLocation(at), t) == (Without(t, {at}, {}), Ok(Changed(at in t.storage.locations)))
  {
    SingleStmt(OnStorage(DeleteLocation(at)), t);
    assert t.storage.tombstones - {} == t.storage.tombstones;
  }

  lemma RemoveTombstoneEffect(at: LocationKey, t: Tables)
    ensures Perform(RemoveTombstone(at), t) == (Without(t, {}, {at}), Ok(Changed(at in t.storage.tombstones)))
  {
    SingleStmt(OnStorage(DeleteTombstone(at)), t);
    assert t.storage.locations - {} == t.storage.locations;
  }

  lemma WithoutTwice(t: Tables, g: set<LocationKey>, c: set<LocationKey>, h: set<LocationKey>, d: set<LocationKey>)
    ensures Without(Without(t, g, c), h, d) == Without(t, g + h, c + d)
  {
    assert t.storage.locations - g - h == t.storage.locations - (g + h);
    assert t.storage.tombstones - c - d == t.storage.tombstones - (c + d);
  }

  lemma WithoutNothing(t: Tables)
    ensures Without(t, {}, {}) == t
  {
    assert t.storage.locations - {} == t.storage.locations;
    assert t.storage.tombstones - {} == t.storage.tombstones;
  }

  // ---------------------------------------------------------------- execute_gc

  /** Planned locations found present, and those found already gone. */
  function Reclaimed(reclaim: seq<LocationKey>, present: set<LocationKey>): seq<LocationKey> {
    if reclaim == [] then []
    else (if reclaim[0] in present then [reclaim[0]] else []) + Reclaimed(reclaim[1..], present - {reclaim[0]})
  }

  function Skipped(reclaim: seq<LocationKey>, present: set<LocationKey>): seq<LocationKey> {
    if reclaim == [] then []
    else (if reclaim[0] in present then [] else [reclaim[0]]) + Skipped(reclaim[1..], present - {reclaim[0]})
  }

  lemma ExecuteAppend(reclaim: seq<LocationKey>, at: LocationKey, present: set<LocationKey>)
    ensures var left := present - Elements(reclaim);
      && Reclaimed(reclaim + [at], present) == Reclaimed(reclaim, present) + (if at in left then [at] else [])
      && Skipped(reclaim + [at], present) == Skipped(reclaim, present) + (if at in left then [] else [at])
  {
    if reclaim == [] {
      assert reclaim + [at] == [at];
      assert [at][1..] == [];
    } else {
      assert (reclaim + [at])[1..] == reclaim[1..] + [at];
      ExecuteAppend(reclaim[1..], at, present - {reclaim[0]});
      assert reclaim == [reclaim[0]] + reclaim[1..];
      assert present - Elements(reclaim) == present - {reclaim[0]} - Elements(reclaim[1..]);
    }
  }

  datatype ExecutionReceipt = ExecutionReceipt(
    planned: nat, reclaimed: seq<LocationKey>, skipped: seq<LocationKey>)

  function ReceiptRow(plan: GcPlan, reclaimed: nat, skipped: nat): GcReceipt {
    GcReceipt(plan.seqNo, plan.mode == Emergency, |plan.reclaim|, reclaimed, skipped, plan.truncated)
  }

  function WithReceipt(t: Tables, row: GcReceipt): Tables {
    t.(log := t.log.(receipts := t.log.receipts + [row]))
  }

  lemma RecordReceiptEffect(row: GcReceipt, t: Tables)
    requires row.seqNo < I64_LIMIT
    ensures Perform(RecordReceipt(row), t) == (WithReceipt(t, row), Ok(Unit))
  {
    SingleStmt(OnLog(AppendGcReceipt(row)), t);
  }

  /** `execute_gc`: reclaims the planned locations with no recheck, counts every skip, and
      records planned against actual. */
  method ExecuteGc(store: SqlMetadataStore, plan: GcPlan)
    returns (r: Result<ExecutionReceipt, Error>, ghost gone: set<LocationKey>)
    requires store.Valid()
    modifies store
    ensures store.Valid()
    ensures gone <= Elements(plan.reclaim)
    ensures r.Err? ==> store.durable == Without(old(store.durable), gone, {})
    ensures r.Ok? ==> var present := old(store.durable).storage.locations.Keys;
      && r.value == ExecutionReceipt(|plan.reclaim|, Reclaimed(plan.reclaim, present), Skipped(plan.reclaim, present))
      && store.durable == WithReceipt(Without(old(store.durable), Elements(plan.reclaim), {}),
                                      ReceiptRow(plan, |r.value.reclaimed|, |r.value.skipped|))
      && store.durable.log.receipts == old(store.durable).log.receipts + [
           GcReceipt(plan.seqNo, plan.mode.Emergency?, |plan.reclaim|, |r.value.reclaimed|, |r.value.skipped|,
                     plan.truncated)]
    ensures old(store.budget) == None ==> store.budget == None && (r.Ok? <==> plan.seqNo < I64_LIMIT)
  {
    ghost var t0 := store.durable;
    ghost var present := t0.storage.locations.Keys;
    WithoutNothing(t0);
    var reclaimed, skipped := [], [];
    gone := {};
    for i := 0 to |plan.reclaim|
      invariant store.Valid() && gone == Elements(plan.reclaim[..i])
      invariant store.durable == Without(t0, gone, {})
      invariant reclaimed == Reclaimed(plan.reclaim[..i], present) && skipped == Skipped(plan.reclaim[..i], present)
      invariant old(store.budget) == None ==> store.budget == None
    {
      var at := plan.reclaim[i];
      assert plan.reclaim[..i+1] == plan.reclaim[..i] + [at];
      ExecuteAppend(plan.reclaim[..i], at, present);
      ElementsConcat(plan.reclaim[..i], [at]);
      RemoveLocationEffect(at, store.durable);
      WithoutTwice(t0, gone, {}, {at}, {});
      var removed := store.Call(RemoveLocation(at));
      if removed.Err? {
        return Err(removed.error), gone;
      }
      gone := gone + {at};
      if removed.value.changed {
        reclaimed := reclaimed + [at];
      } else {
        skipped := skipped + [at];
      }
    }
    assert plan.reclaim[..|plan.reclaim|] == plan.reclaim;
    var row := ReceiptRow(plan, |reclaimed|, |skipped|);
    if plan.seqNo < I64_LIMIT {
      RecordReceiptEffect(row, store.durable);
    }
    var recorded := store.Call(RecordReceipt(row));
    if recorded.Err? {
      return Err(recorded.error), gone;
    }
    return Ok(ExecutionReceipt(|plan.reclaim|, reclaimed, skipped)), gone;
  }

  /** Whatever the store holds by now: what is reclaimed is what was planned and still there, each
      location once; the rest of the plan is skipped, and the two counts make up the planned one. */
  lemma {:induction false} ExecutionCounts(reclaim: seq<LocationKey>, present: set<LocationKey>)
    ensures Elements(Reclaimed(reclaim, present)) == Elements(reclaim) * present
    ensures Distinct(Reclaimed(reclaim, present))
    ensures |Reclaimed(reclaim, present)| + |Skipped(reclaim, present)| == |reclaim|
    ensures multiset(Reclaimed(reclaim, present)) + multiset(Skipped(reclaim, present)) == multiset(reclaim)
  {
    if reclaim != [] {
      var at, rest := reclaim[0], reclaim[1..];
      assert reclaim == [at] + rest;
      ExecutionCounts(rest, present - {at});
      var r, s := Reclaimed(rest, present - {at}), Skipped(rest, present - {at});
      ReclaimedFirst(at, rest, present, r);
      CountsCons(at, r, s, rest);
    }
  }

  lemma ReclaimedFirst(at: LocationKey, rest: seq<LocationKey>, present: set<LocationKey>, r: seq<LocationKey>)
    requires Elements(r) == Elements(rest) * (present - {at}) && Distinct(r)
    ensures at in present ==> Elements([at] + r) == Elements([at] + rest) * present && Distinct([at] + r)
    ensures at !in present ==> Elements(r) == Elements([at] + rest) * present
  {
    ElementsConcat([at], r);
    ElementsConcat([at], rest);
    assert at !in Elements(r);
    assert Elements([at]) == {at};
  }

  lemma {:induction false} AllPresent(reclaim: seq<LocationKey>, present: set<LocationKey>)
    requires Distinct(reclaim) && Elements(reclaim) <= present
    ensures Reclaimed(reclaim, present) == reclaim && Skipped(reclaim, present) == []
  {
    if reclaim != [] {
      assert reclaim[0] in Elements(reclaim);
      forall x | x in Elements(reclaim[1..]) ensures x in present - {reclaim[0]} {
        assert x in Elements(reclaim);
      }
      AllPresent(reclaim[1..], present - {reclaim[0]});
    }
  }

  lemma {:induction false} NonePresent(reclaim: seq<LocationKey>, present: set<LocationKey>)
    requires Elements(reclaim) !! present
    ensures Reclaimed(reclaim, present) == [] && Skipped(reclaim, present) == reclaim
  {
    if reclaim != [] {
      assert reclaim[0] in Elements(reclaim);
      forall x | x in Elements(reclaim[1..]) ensures x in Elements(reclaim) {
      }
      NonePresent(reclaim[1..], present - {reclaim[0]});
    }
  }

  /** Dry-run parity: on an unchanged store the plan's reclaim list is removed exactly, with no
      skips, and executing the same plan again skips all of it. */
  lemma ExecutionParity(scan: seq<LocationKey>, t: Tables, world: World, mode: Mode, seqNo: u64)
    requires IsScan(scan, t.storage.locations.Keys)
    ensures var plan := PlanOf(scan, Preserved(t), world, mode, seqNo);
      var present := t.storage.locations.Keys;
      var left := present - Elements(plan.reclaim);
      && Reclaimed(plan.reclaim, present) == plan.reclaim && Skipped(plan.reclaim, present) == []
      && Reclaimed(plan.reclaim, left) == [] && Skipped(plan.reclaim, left) == plan.reclaim
  {
    var plan := PlanOf(scan, Preserved(t), world, mode, seqNo);
    PlanPartition(scan, Preserved(t), world, mode, seqNo);
    PartOfDistinct(plan.reclaim, Listed(plan.protected), scan);
    AllPresent(plan.reclaim, t.storage.locations.Keys);
    NonePresent(plan.reclaim, t.storage.locations.Keys - Elements(plan.reclaim));
  }

  lemma PartOfDistinct<T>(a: seq<T>, b: seq<T>, s: seq<T>)
    requires multiset(a) + multiset(b) == multiset(s) && Distinct(s)
    ensures Distinct(a) && Elements(a) <= Elements(s)
  {
    forall x | x in a ensures x in s {
      assert x in multiset(a);
      assert x in multiset(s);
    }
    forall i, j | 0 <= i < j < |a| ensures a[i] != a[j] {
      OnceCounts(s, a[i]);
      if a[i] == a[j] {
        TwiceCounts(a, i, j);
        assert false;
      }
    }
  }

  // ---------------------------------------------------------------- mark_plan

  /** Marking keeps the row a location already has. */
  function Marked(rows: map<LocationKey, Tombstone>, marks: set<LocationKey>, row: Tombstone)
    : map<LocationKey, Tombstone>
  {
    map at | at in rows.Keys + marks :: if at in rows then rows[at] else row
  }

  function WithTombstones(t: Tables, rows: map<LocationKey, Tombstone>): Tables {
    t.(storage := t.storage.(tombstones := rows))
  }

  lemma AddTombstoneEffect(at: LocationKey, marked: u64, graceUntil: u64, t: Tables)
    requires marked < I64_LIMIT && graceUntil < I64_LIMIT
    ensures Perform(AddTombstone(at, marked, graceUntil), t) ==
      (WithTombstones(t, Marked(t.storage.tombstones, {at}, Tombstone(marked, graceUntil))), Ok(Unit))
  {
    var row := Tombstone(marked, graceUntil);
    if at in t.storage.tombstones {
      assert Marked(t.storage.tombstones, {at}, row) == t.storage.tombstones;
    } else {
      SingleStmt(OnStorage(InsertTombstone(at, row)), t);
      assert Marked(t.storage.tombstones, {at}, row) == t.storage.tombstones[at := row];
    }
  }

  lemma MarkedTwice(rows: map<LocationKey, Tombstone>, a: set<LocationKey>, b: set<LocationKey>, row: Tombstone)
    ensures Marked(Marked(rows, a, row), b, row) == Marked(rows, a + b, row)
    ensures Marked(rows, {}, row) == rows
  {
  }

  /** `mark_plan`: tombstones start the grace clock, and a location already marked keeps its
      original row. The deadline saturates, and one past the signed range is refused. */
  method MarkPlan(store: SqlMetadataStore, plan: GcPlan, grace: u64)
    returns (r: Result<nat, Error>, ghost marks: set<LocationKey>)
    requires store.Valid()
    modifies store
    ensures store.Valid()
    ensures marks <= Elements(plan.reclaim) && (r.Ok? ==> marks == Elements(plan.reclaim))
    ensures marks != {} ==> SaturatingAdd(plan.seqNo, grace) < I64_LIMIT
    ensures store.durable == WithTombstones(old(store.durable),
      Marked(old(store.durable).storage.tombstones, marks, Tombstone(plan.seqNo, SaturatingAdd(plan.seqNo, grace))))
    ensures r.Ok? ==> r.value == |plan.reclaim| && forall at :: at in plan.reclaim ==>
      && at in store.durable.storage.tombstones
      && store.durable.storage.tombstones[at] ==
           if at in old(store.durable).storage.tombstones then old(store.durable).storage.tombstones[at]
           else Tombstone(plan.seqNo, SaturatingAdd(plan.seqNo, grace))
    ensures old(store.budget) == None ==>
      store.budget == None && (r.Ok? <==> plan.reclaim == [] || SaturatingAdd(plan.seqNo, grace) < I64_LIMIT)
  {
    ghost var t0 := store.durable;
    var deadline := SaturatingAdd(plan.seqNo, grace);
    ghost var row := Tombstone(plan.seqNo, deadline);
    marks := {};
    MarkedTwice(t0.storage.tombstones, {}, {}, row);
    for i := 0 to |plan.reclaim|
      invariant store.Valid() && marks == Elements(plan.reclaim[..i])
      invariant i > 0 ==> deadline < I64_LIMIT
      invariant store.durable == WithTombstones(t0, Marked(t0.storage.tombstones, marks, row))
      invariant old(store.budget) == None ==> store.budget == None
    {
      var at := plan.reclaim[i];
      assert plan.reclaim[..i+1] == plan.reclaim[..i] + [at];
      ElementsConcat(plan.reclaim[..i], [at]);
      if deadline < I64_LIMIT {
        AddTombstoneEffect(at, plan.seqNo, deadline, store.durable);
        MarkedTwice(t0.storage.tombstones, marks, {at}, row);
      }
      var added := store.Call(AddTombstone(at, plan.seqNo, deadline));
      if added.Err? {
        return Err(added.error), marks;
      }
      marks := marks + {at};
    }
    assert plan.reclaim[..|plan.reclaim|] == plan.reclaim;
    return Ok(|plan.reclaim|), marks;
  }

  // ---------------------------------------------------------------- unlink_due

  /** Tombstoned locations whose deadline has passed. A clock past the signed range is later
      than every storable deadline. */
  function Due(t: Tables, now: u64): set<LocationKey> {
    var clock := if now < I64_LIMIT then now else I64_LIMIT - 1;
    set at | at in t.storage.tombstones && t.storage.tombstones[at].graceUntil <= clock
  }

  /** A storable deadline is due exactly when it has passed. */
  lemma DueIff(t: Tables, now: u64, at: LocationKey)
    requires at in t.storage.tombstones ==> t.storage.tombstones[at].graceUntil < I64_LIMIT
    ensures at in Due(t, now) <==> at in t.storage.tombstones && t.storage.tombstones[at].graceUntil <= now
  {
  }

  ghost predicate ProtectedNow(t: Tables, world: World, mode: Mode, at: LocationKey) {
    ProtectionFor(Preserved(t), world, mode, at.objectKey).Some?
  }

  ghost function Unlinkable(t: Tables, world: World, mode: Mode, now: u64): set<LocationKey> {
    set at | at in Due(t, now) && !ProtectedNow(t, world, mode, at)
  }

  datatype UnlinkReceipt = UnlinkReceipt(unlinked: seq<LocationKey>, rescued: seq<(LocationKey, Reason)>)

  /** The tables an uninterrupted unlink pass leaves. */
  ghost function Unlinked(t: Tables, world: World, mode: Mode, now: u64): Tables {
    if Due(t, now) == {} || now >= I64_LIMIT then t
    else Without(WithRun(t, SnapshotRun(t, now)), Unlinkable(t, world, mode, now), Due(t, now))
  }

  /** One due tombstone: rescued if protected again, else its location and then the tombstone
      are removed. */
  method Settle(store: SqlMetadataStore, at: LocationKey, verdict: Option<Reason>)
    returns (r: Result<(), Error>, ghost gone: set<LocationKey>, ghost cleared: set<LocationKey>)
    requires store.Valid()
    modifies store
    ensures store.Valid()
    ensures store.durable == Without(old(store.durable), gone, cleared)
    ensures gone <= {at} && cleared <= {at} && (verdict.Some? ==> gone == {})
    ensures r.Ok? ==> cleared == {at} && (verdict.None? ==> gone == {at})
    ensures old(store.budget) == None ==> store.budget == None && r.Ok?
  {
    ghost var t0 := store.durable;
    WithoutNothing(t0);
    gone, cleared := {}, {};
    if verdict.None? {
      RemoveLocationEffect(at, t0);
      var removed := store.Call(RemoveLocation(at));
      if removed.Err? {
        return Err(removed.error), gone, cleared;
      }
      gone := {at};
    }
    RemoveTombstoneEffect(at, store.durable);
    WithoutTwice(t0, gone, {}, {}, {at});
    var lifted := store.Call(RemoveTombstone(at));
    if lifted.Err? {
      return Err(lifted.error), gone, cleared;
    }
    return Ok(()), gone, {at};
  }

  function VerdictSplit(due: seq<LocationKey>, preserved: set<Key>, world: World, mode: Mode): UnlinkReceipt {
    UnlinkReceipt(Passing(Judgment(preserved, world, mode), due), Failing(Judgment(preserved, world, mode), due))
  }

  /** The members of a list a judgment leaves unprotected. */
  ghost function Unprotected(due: seq<LocationKey>, judge: LocationKey -> Option<Reason>): set<LocationKey> {
    set at | at in due && judge(at).None?
  }

  /** The ghost and real results of an unlink pass, part of the way through its list. */
  ghost predicate SettledUpTo(t: Tables, u: Tables, due: seq<LocationKey>, judge: LocationKey -> Option<Reason>,
                              unlinked: seq<LocationKey>, rescued: seq<(LocationKey, Reason)>) {
    && u == Without(t, Unprotected(due, judge), Elements(due))
    && unlinked == Passing(judge, due) && rescued == Failing(judge, due)
  }

  lemma SettleStep(t: Tables, due: seq<LocationKey>, at: LocationKey, judge: LocationKey -> Option<Reason>)
    ensures var gone := Unprotected(due, judge); var g := if judge(at).None? then {at} else {};
      && Without(Without(t, gone, Elements(due)), g, {at})
           == Without(t, Unprotected(due + [at], judge), Elements(due + [at]))
      && Passing(judge, due + [at]) == Passing(judge, due) + (if judge(at).None? then [at] else [])
      && Failing(judge, due + [at]) ==
           Failing(judge, due) + (match judge(at) case Some(reason) => [(at, reason)] case None => [])
  {
    var gone := Unprotected(due, judge);
    var g := if judge(at).None? then {at} else {};
    JudgeAppend(judge, due, at);
    ElementsConcat(due, [at]);
    WithoutTwice(t, gone, Elements(due), g, {at});
    assert Elements([at]) == {at};
    assert gone + g == Unprotected(due + [at], judge);
  }

  lemma SettlePartial(t: Tables, due: seq<LocationKey>, at: LocationKey, judge: LocationKey -> Option<Reason>,
                      g: set<LocationKey>, c: set<LocationKey>)
    requires g <= {at} && c <= {at} && (judge(at).Some? ==> g == {})
    ensures var gone := Unprotected(due, judge);
      && Without(Without(t, gone, Elements(due)), g, c) == Without(t, gone + g, Elements(due) + c)
      && gone + g <= Unprotected(due + [at], judge) && Elements(due) + c <= Elements(due + [at])
  {
    WithoutTwice(t, Unprotected(due, judge), Elements(due), g, c);
    ElementsConcat(due, [at]);
  }

  lemma PrefixSets(due: seq<LocationKey>, n: nat, judge: LocationKey -> Option<Reason>)
    requires n <= |due|
    ensures Unprotected(due[..n], judge) <= Unprotected(due, judge)
    ensures Elements(due[..n]) <= Elements(due)
  {
  }

  /** The loop of `unlink_due`. */
  method SettleAll(store: SqlMetadataStore, due: seq<LocationKey>, preserved: set<Key>, world: World, mode: Mode)
    returns (r: Result<UnlinkReceipt, Error>, ghost gone: set<LocationKey>, ghost cleared: set<LocationKey>)
    requires store.Valid()
    modifies store
    ensures store.Valid()
    ensures gone <= Unprotected(due, Judgment(preserved, world, mode)) && cleared <= Elements(due)
    ensures store.durable == Without(old(store.durable), gone, cleared)
    ensures r.Ok? ==>
      && gone == Unprotected(due, Judgment(preserved, world, mode)) && cleared == Elements(due)
      && r.value == VerdictSplit(due, preserved, world, mode)
    ensures old(store.budget) == None ==> store.budget == None && r.Ok?
  {
    ghost var t1 := store.durable;
    ghost var judge := Judgment(preserved, world, mode);
    WithoutNothing(t1);
    var unlinked: seq<LocationKey>, rescued: seq<(LocationKey, Reason)> := [], [];
    for i := 0 to |due|
      invariant store.Valid()
      invariant SettledUpTo(t1, store.durable, due[..i], judge, unlinked, rescued)
      invariant old(store.budget) == None ==> store.budget == None
    {
      var at := due[i];
      assert due[..i+1] == due[..i] + [at];
      SettleStep(t1, due[..i], at, judge);
      var verdict := ProtectionFor(preserved, world, mode, at.objectKey);
      var settled;
      ghost var g, c;
      settled, g, c := Settle(store, at, verdict);
      if settled.Err? {
        SettlePartial(t1, due[..i], at, judge, g, c);
        PrefixSets(due, i + 1, judge);
        return Err(settled.error), Unprotected(due[..i], judge) + g, Elements(due[..i]) + c;
      }
      if verdict.None? {
        unlinked := unlinked + [at];
      } else {
        rescued := rescued + [(at, verdict.value)];
      }
    }
    assert due[..|due|] == due;
    return Ok(UnlinkReceipt(unlinked, rescued)), Unprotected(due, Judgment(preserved, world, mode)), Elements(due);
  }

  /** `unlink_due`: only due locations that a fresh snapshot and the current protections leave
      unprotected are removed, wherever a kill lands. */
  method UnlinkDue(store: SqlMetadataStore, world: World, mode: Mode, now: u64)
    returns (r: Result<UnlinkReceipt, Error>, ghost due: seq<LocationKey>, ghost gone: set<LocationKey>,
             ghost cleared: set<LocationKey>)
    requires store.Valid()
    modifies store
    ensures store.Valid()
    ensures IsScan(due, Due(old(store.durable), now))
    ensures gone <= Unlinkable(old(store.durable), world, mode, now) && cleared <= Due(old(store.durable), now)
    ensures store.durable == Without(old(store.durable).(log := store.durable.log), gone, cleared)
    ensures r.Ok? ==>
      && gone == Unlinkable(old(store.durable), world, mode, now) && cleared == Due(old(store.durable), now)
      && r.value == VerdictSplit(due, Preserved(old(store.durable)), world, mode)
    ensures old(store.budget) == None ==>
      store.budget == None && store.durable == Unlinked(old(store.durable), world, mode, now)
  {
    ghost var t0 := store.durable;
    gone, cleared := {}, {};
    WithoutNothing(t0);
    var rows := Scan(Due(store.durable, now));
    due := rows;
    if store.budget == Some(0) {
      return Err(Crash), due, gone, cleared;
    }
    if rows == [] {
      assert Due(t0, now) == {};
      return Ok(UnlinkReceipt([], [])), due, gone, cleared;
    }
    assert rows[0] in Elements(rows);
    var snapshot := TakeSnapshot(store, now);
    if snapshot.Err? {
      return Err(snapshot.error), due, gone, cleared;
    }
    assert Unprotected(rows, Judgment(Preserved(t0), world, mode)) == Unlinkable(t0, world, mode, now) by {
      forall at ensures at in rows <==> at in Due(t0, now) {
        assert at in rows <==> at in Elements(rows);
      }
    }
    PreservedSetExact(snapshot.value, t0);
    r, gone, cleared := SettleAll(store, rows, PreservedSet(snapshot.value), world, mode);
  }

  /** An unlink pass never removes a location whose object is reached from an unreleased pin,
      held by something running, or authoritative evidence; and it removes only what a tombstone
      had past its deadline. */
  lemma UnlinkSafe(t: Tables, world: World, mode: Mode, now: u64, at: LocationKey)
    requires at in Unlinkable(t, world, mode, now)
    ensures !Pinned(t, at.objectKey) && !Live(world, at.objectKey)
    ensures PolicyOf(world, at.objectKey).class_ != AuthoritativeEvidence
    ensures at in t.storage.tombstones && t.storage.tombstones[at].graceUntil <= now
  {
    PreservedExact(t, at.objectKey);
  }

  /** Exactly what an unlink pass may remove: due, reached from no unreleased pin, held by nothing
      running, and evictable: not evidence, not provisional before reconciliation, and neither a hot
      dependency nor a toolchain outside an emergency. */
  lemma UnlinkableIff(t: Tables, world: World, mode: Mode, now: u64, at: LocationKey)
    requires at in t.storage.tombstones ==> t.storage.tombstones[at].graceUntil < I64_LIMIT
    ensures at in Unlinkable(t, world, mode, now) <==>
      && at in t.storage.tombstones && t.storage.tombstones[at].graceUntil <= now
      && !Pinned(t, at.objectKey)
      && at.objectKey !in world.activeBuilds + world.materializations + world.transfers + world.openReaders
      && (at.objectKey in world.policies ==>
            match world.policies[at.objectKey].class_
            case AuthoritativeEvidence => false
            case ProvisionalStaging => world.reconciliationComplete
            case HotDependency => mode == Emergency
            case Toolchain => mode == Emergency
            case CommittedResult => true)
  {
    PreservedExact(t, at.objectKey);
    DueIff(t, now, at);
  }
}
