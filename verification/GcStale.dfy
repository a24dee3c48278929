/** Plans that outlive the moment they were made: what immediate execution removes although it is
    protected by then, and which events between are to blame. */
module GcStale {
  import opened Prelude
  import opened Walks
  import opened MetadataTables
  import opened MetadataStore
  import opened StoreInvariants
  import opened GcSnapshot
  import opened Gc
  import opened GcExecution
  import opened PinLeases
  import opened GcRuns

  // ---------------------------------------------------------------- only three calls pin anything

  /** The calls that can create a pin or an edge. */
  predicate Pinning(e: Event) {
    e.StoreCall? && (e.op.CreatePin? || e.op.CommitPublication? || e.op.AddEdge?)
  }

  /** No new unreleased pin, no moved root, no new edge. */
  ghost predicate NoNewPins(t: Tables, u: Tables) {
    && u.storage.edges == t.storage.edges
    && (forall p :: p in u.pins && !u.pins[p].released ==>
          p in t.pins && !t.pins[p].released && t.pins[p].root == u.pins[p].root)
  }

  predicate PinsNothing(s: Stmt) {
    && (s.OnPins? ==> !s.p.InsertPin?)
    && (s.OnStorage? ==> !s.s.PutEdge?)
  }

  lemma PinsNothingStmt(s: Stmt, t: Tables)
    requires PinsNothing(s) && Apply(s, t).Ok?
    ensures NoNewPins(t, Apply(s, t).value)
  {
  }

  lemma {:induction false} PinsNothingFrame(ss: seq<Stmt>, t: Tables)
    requires ApplyAll(ss, t).Ok? && forall s :: s in ss ==> PinsNothing(s)
    ensures NoNewPins(t, ApplyAll(ss, t).value)
  {
    if ss != [] {
      assert PinsNothing(ss[0]);
      PinsNothingStmt(ss[0], t);
      assert forall s :: s in ss[1..] ==> s in ss;
      PinsNothingFrame(ss[1..], Apply(ss[0], t).value);
    }
  }

  lemma PinsNothingBody(op: Op, t: Tables)
    requires !Pinning(StoreCall(op))
    ensures forall s :: s in Body(op, t).stmts ==> PinsNothing(s)
  {
    if op.PutServingRecord? {
      BlockingStmtsShape(op.action, op.blockedBy);
    }
  }

  lemma PinsNothingCall(op: Op, t: Tables)
    requires !Pinning(StoreCall(op))
    ensures NoNewPins(t, Perform(op, t).0)
  {
    PinsNothingBody(op, t);
    if ApplyAll(Body(op, t).stmts, t).Ok? {
      PinsNothingFrame(Body(op, t).stmts, t);
    }
  }

  /** Every other event pins nothing: reads, releases, marks, unlink passes and executions only
      take protection away. */
  lemma OtherEventsPinNothing(t: Tables, e: Event, u: Tables)
    requires Next(t, e, u) && !Pinning(e)
    ensures NoNewPins(t, u)
  {
    match e
    case StoreCall(op) => PinsNothingCall(op, t);
    case Planning =>
    case ReleaseScoped(pin, who) =>
    case Mark(reclaim, seqNo, grace) => var marks :| MarkStep(t, u, reclaim, marks, seqNo, grace);
    case Unlink(world, mode, now) => var gone, cleared :| UnlinkStep(t, u, world, mode, now, gone, cleared);
    case Execute(reclaim) => var gone :| gone <= reclaim && u == Without(t.(log := u.log), gone, {});
  }

  lemma NothingNewlyPinned(t: Tables, u: Tables, x: Key)
    requires NoNewPins(t, u) && Pinned(u, x)
    ensures Pinned(t, x)
  {
    var p :| p in u.pins && !u.pins[p].released && Reaches(Linked(u.storage.edges), u.pins[p].root, x);
  }

  // ---------------------------------------------------------------- pinned since

  /** The object became pinned at moment `k`, by one of the three calls, and has been ever since. */
  ghost predicate PinnedSince(trace: seq<Tables>, events: seq<Event>, x: Key, k: nat, j: nat)
    requires |trace| == |events| + 1 && k < j <= |events|
  {
    && Pinning(events[k]) && !Pinned(trace[k], x)
    && forall m :: k < m <= j ==> Pinned(trace[m], x)
  }

  /** An object unpinned at `i` is pinned at `j` exactly when one of the three calls between pinned
      it and nothing released it again. */
  lemma {:induction false} PinnedLaterIff(trace: seq<Tables>, events: seq<Event>, x: Key, i: nat, j: nat)
    requires IsRun(trace, events) && i <= j <= |events| && !Pinned(trace[i], x)
    ensures Pinned(trace[j], x) <==> exists k :: i <= k < j && PinnedSince(trace, events, x, k, j)
    decreases j - i
  {
    if j > i && Pinned(trace[j], x) {
      PinnedLaterIff(trace, events, x, i, j - 1);
      if Pinned(trace[j-1], x) {
        var k :| i <= k < j - 1 && PinnedSince(trace, events, x, k, j - 1);
        assert PinnedSince(trace, events, x, k, j);
      } else {
        if !Pinning(events[j-1]) {
          OtherEventsPinNothing(trace[j-1], events[j-1], trace[j]);
          NothingNewlyPinned(trace[j-1], trace[j], x);
        }
        assert PinnedSince(trace, events, x, j - 1, j);
      }
    }
  }

  // ---------------------------------------------------------------- plans

  /** Protected by something other than a pin: held by something running, or by its policy. */
  predicate Shielded(world: World, mode: Mode, key: Key) {
    ProtectionFor({}, world, mode, key).Some?
  }

  lemma ProtectionSplit(preserved: set<Key>, world: World, mode: Mode, key: Key)
    ensures ProtectionFor(preserved, world, mode, key).Some? <==> key in preserved || Shielded(world, mode, key)
  {
  }

  /** On the store it was planned from, a plan contains nothing protected. */
  lemma FreshPlanUnprotected(scan: seq<LocationKey>, t: Tables, world: World, mode: Mode, seqNo: u64, at: LocationKey)
    requires at in PlanOf(scan, Preserved(t), world, mode, seqNo).reclaim
    ensures !Pinned(t, at.objectKey) && !Shielded(world, mode, at.objectKey)
  {
    PlanReasons(scan, Preserved(t), world, mode, seqNo);
    PreservedExact(t, at.objectKey);
    ProtectionSplit(Preserved(t), world, mode, at.objectKey);
  }

  /** A plan made at moment `i` in world `w`. */
  ghost predicate PlannedAt(plan: GcPlan, t: Tables, w: World) {
    exists scan ::
      IsScan(scan, t.storage.locations.Keys) && plan == PlanOf(scan, Preserved(t), w, plan.mode, plan.seqNo)
  }

  /** A location planned at `i` is protected at a later moment `j`, in whatever world there is by
      then, exactly when one of the three calls between pinned its object for good, or something
      running or a policy shields it now that did not when the plan was made. */
  lemma LateProtectionIff(trace: seq<Tables>, events: seq<Event>, plan: GcPlan, w: World, v: World, i: nat, j: nat,
                          at: LocationKey)
    requires IsRun(trace, events) && i <= j <= |events| && PlannedAt(plan, trace[i], w) && at in plan.reclaim
    ensures ProtectedNow(trace[j], v, plan.mode, at) <==>
      || (exists k :: i <= k < j && PinnedSince(trace, events, at.objectKey, k, j))
      || (Shielded(v, plan.mode, at.objectKey) && !Shielded(w, plan.mode, at.objectKey))
  {
    var scan :| IsScan(scan, trace[i].storage.locations.Keys)
      && plan == PlanOf(scan, Preserved(trace[i]), w, plan.mode, plan.seqNo);
    FreshPlanUnprotected(scan, trace[i], w, plan.mode, plan.seqNo, at);
    PinnedLaterIff(trace, events, at.objectKey, i, j);
    PreservedExact(trace[j], at.objectKey);
    ProtectionSplit(Preserved(trace[j]), v, plan.mode, at.objectKey);
  }

  /** Whatever an execution of the plan at moment `j` removes, cut short or not, was planned; and it
      is protected by then only for one of those reasons. */
  lemma ExecutionRemoves(trace: seq<Tables>, events: seq<Event>, plan: GcPlan, w: World, v: World, i: nat, j: nat,
                         at: LocationKey)
    requires IsRun(trace, events) && i <= j < |events| && PlannedAt(plan, trace[i], w)
    requires events[j] == Execute(Elements(plan.reclaim))
    requires at in trace[j].storage.locations && at !in trace[j+1].storage.locations
    ensures at in plan.reclaim
    ensures ProtectedNow(trace[j], v, plan.mode, at) ==>
      || (exists k :: i <= k < j && PinnedSince(trace, events, at.objectKey, k, j))
      || (Shielded(v, plan.mode, at.objectKey) && !Shielded(w, plan.mode, at.objectKey))
  {
    var gone :| gone <= Elements(plan.reclaim) && trace[j+1] == Without(trace[j].(log := trace[j+1].log), gone, {});
    assert at in gone;
    LateProtectionIff(trace, events, plan, w, v, i, j, at);
  }

  /** And an execution that runs to its end does remove every planned location still there, the
      ones protected since included. */
  lemma ExecutionRemovesAll(trace: seq<Tables>, events: seq<Event>, plan: GcPlan, w: World, i: nat, j: nat,
                            k: nat, at: LocationKey)
    requires IsRun(trace, events) && i <= k < j < |events| && PlannedAt(plan, trace[i], w) && at in plan.reclaim
    requires trace[j+1] == Without(trace[j].(log := trace[j+1].log), Elements(plan.reclaim), {})
    requires at in trace[j].storage.locations && PinnedSince(trace, events, at.objectKey, k, j)
    ensures Pinned(trace[j], at.objectKey) && at !in trace[j+1].storage.locations
    ensures forall v :: ProtectedNow(trace[j], v, plan.mode, at)
  {
    assert at in Elements(plan.reclaim);
    forall v ensures ProtectedNow(trace[j], v, plan.mode, at) {
      LateProtectionIff(trace, events, plan, w, v, i, j, at);
    }
  }

  /** A pin created between planning and execution does not save its root. */
  lemma StalePlanReclaimsPinned(at: LocationKey, pin: nat)
    ensures var row := Location(None, "raw", false, true);
      var t := EMPTY.(storage := Storage(map[at := row], {}, map[]));
      var world := World({}, {}, {}, {}, map[], true, 1);
      var plan := PlanOf([at], Preserved(t), world, Normal, 1);
      var u := Perform(CreatePin(pin, at.objectKey, "worker", "materialization", None), t).0;
      && IsScan([at], t.storage.locations.Keys)
      && plan.reclaim == [at]
      && Pinned(u, at.objectKey) && at in u.storage.locations
      && at !in Without(u, Elements(plan.reclaim), {}).storage.locations
  {
    var t := EMPTY.(storage := Storage(map[at := Location(None, "raw", false, true)], {}, map[]));
    var world := World({}, {}, {}, {}, map[], true, 1);
    PreservedExact(t, at.objectKey);
    var judge := Judgment(Preserved(t), world, Normal);
    assert judge(at) == None;
    assert Passing(judge, [at]) == [at];
    assert Evictable([at], Preserved(t), world, Normal) == [at];
    var row := Pin(at.objectKey, "worker", "materialization", None, false, 0);
    SingleStmt(OnPins(InsertPin(pin, row)), t);
    var u := Perform(CreatePin(pin, at.objectKey, "worker", "materialization", None), t).0;
    assert u.pins[pin] == row;
    Stay(Linked(u.storage.edges), at.objectKey);
  }
}
