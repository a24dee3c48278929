/** Whole runs of the store and its collector: uploads, pins, edges, releases, marks, unlink
    passes and executions in any order, each possibly cut short by a kill. */
module GcRuns {
  import opened Prelude
  import opened Walks
  import opened MetadataTables
  import opened MetadataStore
  import opened StoreInvariants
  import opened GcSnapshot
  import opened Gc
  import opened GcExecution
  import opened PinLeases
  import StoreCalls

  datatype Event =
    | StoreCall(op: Op)
    | Planning
    | ReleaseScoped(pin: nat, who: Releaser)
    | Mark(reclaim: set<LocationKey>, seqNo: u64, grace: u64)
    | Unlink(world: World, mode: Mode, now: u64)
    | Execute(reclaim: set<LocationKey>)

  /** What one event may do to the durable tables; each case is the contract of the method it
      names under an arbitrary mutation budget, as the `Do` methods below show. The world of an
      unlink pass is whatever it is at that moment. */
  ghost predicate Next(t: Tables, e: Event, u: Tables) {
    match e
    case StoreCall(op) => u == t || u == Perform(op, t).0
    case Planning => u == t.(log := u.log)
    case ReleaseScoped(pin, who) =>
      u == t || (Decision(t, pin, who) == Ok(Released) && pin in t.pins && u == WithPinReleased(t, pin))
    case Mark(reclaim, seqNo, grace) => exists marks :: MarkStep(t, u, reclaim, marks, seqNo, grace)
    case Unlink(world, mode, now) => exists gone, cleared :: UnlinkStep(t, u, world, mode, now, gone, cleared)
    case Execute(reclaim) => exists gone :: gone <= reclaim && u == Without(t.(log := u.log), gone, {})
  }

  ghost predicate MarkStep(
      t: Tables, u: Tables, reclaim: set<LocationKey>, marks: set<LocationKey>, seqNo: u64, grace: u64) {
    && marks <= reclaim
    && (marks != {} ==> SaturatingAdd(seqNo, grace) < I64_LIMIT)
    && u == WithTombstones(t, Marked(t.storage.tombstones, marks, Tombstone(seqNo, SaturatingAdd(seqNo, grace))))
  }

  ghost predicate UnlinkStep(t: Tables, u: Tables, world: World, mode: Mode, now: u64,
                             gone: set<LocationKey>, cleared: set<LocationKey>) {
    && gone <= Unlinkable(t, world, mode, now)
    && cleared <= Due(t, now)
    && u == Without(t.(log := u.log), gone, cleared)
  }

  ghost predicate IsRun(trace: seq<Tables>, events: seq<Event>) {
    |trace| == |events| + 1 && forall i :: 0 <= i < |events| ==> Next(trace[i], events[i], trace[i+1])
  }

  // ---------------------------------------------------------------- the calls take these steps

  method DoCall(store: SqlMetadataStore, op: Op)
    requires store.Valid()
    modifies store
    ensures store.Valid() && Next(old(store.durable), StoreCall(op), store.durable)
  {
    var _ := store.Call(op);
  }

  method DoPlan(store: SqlMetadataStore, world: World, mode: Mode, seqNo: u64) returns (r: Result<GcPlan, Error>)
    requires store.Valid()
    modifies store
    ensures store.Valid() && Next(old(store.durable), Planning, store.durable)
  {
    ghost var scan;
    r, scan := PlanGc(store, world, mode, seqNo);
  }

  method DoRelease(store: SqlMetadataStore, pin: nat, who: Releaser)
    requires store.Valid()
    modifies store
    ensures store.Valid() && Next(old(store.durable), ReleaseScoped(pin, who), store.durable)
  {
    var _ := ReleasePinScoped(store, pin, who);
  }

  method DoMark(store: SqlMetadataStore, plan: GcPlan, grace: u64)
    requires store.Valid()
    modifies store
    ensures store.Valid() && Next(old(store.durable), Mark(Elements(plan.reclaim), plan.seqNo, grace), store.durable)
  {
    var r;
    ghost var marks;
    r, marks := MarkPlan(store, plan, grace);
    assert MarkStep(old(store.durable), store.durable, Elements(plan.reclaim), marks, plan.seqNo, grace);
  }

  method DoUnlink(store: SqlMetadataStore, world: World, mode: Mode, now: u64)
    requires store.Valid()
    modifies store
    ensures store.Valid() && Next(old(store.durable), Unlink(world, mode, now), store.durable)
  {
    var r;
    ghost var due, gone, cleared;
    r, due, gone, cleared := UnlinkDue(store, world, mode, now);
    assert UnlinkStep(old(store.durable), store.durable, world, mode, now, gone, cleared);
  }

  method DoExecute(store: SqlMetadataStore, plan: GcPlan)
    requires store.Valid()
    modifies store
    ensures store.Valid() && Next(old(store.durable), Execute(Elements(plan.reclaim)), store.durable)
  {
    ghost var before := store.durable;
    var r;
    ghost var gone;
    r, gone := ExecuteGc(store, plan);
    if r.Ok? { gone := Elements(plan.reclaim); }
    assert gone <= Elements(plan.reclaim) && store.durable == Without(before.(log := store.durable.log), gone, {});
  }

  // ---------------------------------------------------------------- what calls keep

  /** Statements that release no pin, delete no location and touch no tombstone. */
  predicate Retaining(s: Stmt) {
    && (s.OnPins? ==> !s.p.SetPinReleased?)
    && (s.OnStorage? ==> s.s.PutLocation? || s.s.PutEdge?)
  }

  ghost predicate StillUnreleased(t: Tables, u: Tables) {
    forall p :: p in t.pins && !t.pins[p].released ==> p in u.pins && !u.pins[p].released
  }

  lemma {:induction false} RetainingFrame(ss: seq<Stmt>, t: Tables)
    requires forall s :: s in ss ==> Retaining(s)
    requires ApplyAll(ss, t).Ok?
    ensures var u := ApplyAll(ss, t).value;
      && StillUnreleased(t, u)
      && t.storage.locations.Keys <= u.storage.locations.Keys
      && u.storage.tombstones == t.storage.tombstones
  {
    if ss != [] {
      assert Retaining(ss[0]);
      var u := Apply(ss[0], t).value;
      RetainingFrame(ss[1..], u);
    }
  }

  predicate RetainingOp(op: Op) {
    !op.ReleasePin? && !op.RemoveLocation? && !op.AddTombstone? && !op.RemoveTombstone?
  }

  lemma RetainingCommit(authority: Key, row: PublicationRow, t: Tables)
    ensures forall s :: s in Body(CommitPublication(authority, row), t).stmts ==> Retaining(s)
  {
    AncestryStmtsShape(row.action, row.ancestors);
    assert forall s :: s in CommitHead(t, row) ==> Retaining(s);
    assert forall s :: s in AncestryStmts(row.action, row.ancestors) ==> Retaining(s);
  }

  lemma RetainingServing(op: Op, t: Tables)
    requires op.PutServingRecord?
    ensures forall s :: s in Body(op, t).stmts ==> Retaining(s)
  {
    BlockingStmtsShape(op.action, op.blockedBy);
  }

  lemma RetainingBody(op: Op, t: Tables)
    requires RetainingOp(op)
    ensures forall s :: s in Body(op, t).stmts ==> Retaining(s)
  {
    if op.CommitPublication? {
      RetainingCommit(op.authority, op.row, t);
    } else if op.PutServingRecord? {
      RetainingServing(op, t);
    }
  }

  lemma RetainingCall(op: Op, t: Tables)
    requires RetainingOp(op)
    ensures var u := Perform(op, t).0;
      && StillUnreleased(t, u)
      && t.storage.locations.Keys <= u.storage.locations.Keys
      && u.storage.tombstones == t.storage.tombstones
  {
    RetainingBody(op, t);
    if ApplyAll(Body(op, t).stmts, t).Ok? {
      RetainingFrame(Body(op, t).stmts, t);
    }
  }

  // ---------------------------------------------------------------- deadlines

  predicate OwnedRelease(op: Op, t: Tables) {
    op.ReleasePin? && op.pinId in t.pins && t.pins[op.pinId].owner == op.owner
  }

  /** Marks and unlink passes, and the direct calls on tombstones. */
  predicate TombstoneEvent(e: Event) {
    e.Mark? || e.Unlink? || (e.StoreCall? && (e.op.AddTombstone? || e.op.RemoveTombstone?))
  }

  lemma TombstonesKept(t: Tables, e: Event, u: Tables)
    requires Next(t, e, u) && !TombstoneEvent(e)
    ensures u.storage.tombstones == t.storage.tombstones
  {
    match e
    case StoreCall(op) =>
      if RetainingOp(op) {
        RetainingCall(op, t);
      } else if op.RemoveLocation? {
        RemoveLocationEffect(op.at, t);
        WithoutNothing(t);
      } else if OwnedRelease(op, t) {
        SingleStmt(OnPins(SetPinReleased(op.pinId)), t);
      }
    case Execute(reclaim) =>
      var gone :| gone <= reclaim && u == Without(t.(log := u.log), gone, {});
      assert t.storage.tombstones - {} == t.storage.tombstones;
    case _ =>
  }

  /** The event is one that writes this tombstone: a mark with its own deadline, or a direct call
      that names the row. */
  ghost predicate Writes(e: Event, at: LocationKey, row: Tombstone) {
    match e
    case Mark(reclaim, seqNo, grace) =>
      at in reclaim && seqNo + grace < I64_LIMIT && row == Tombstone(seqNo, seqNo + grace)
    case StoreCall(op) => op.AddTombstone? && op.at == at && row == Tombstone(op.marked, op.graceUntil)
    case _ => false
  }

  lemma DirectTombstone(t: Tables, op: Op, at: LocationKey)
    requires (op.AddTombstone? || op.RemoveTombstone?) && at in Perform(op, t).0.storage.tombstones
    ensures var row := Perform(op, t).0.storage.tombstones[at];
      if at in t.storage.tombstones then row == t.storage.tombstones[at] else Writes(StoreCall(op), at, row)
  {
    if op.RemoveTombstone? {
      RemoveTombstoneEffect(op.at, t);
    } else if Representable(op) {
      AddTombstoneEffect(op.at, op.marked, op.graceUntil, t);
    }
  }

  /** Whatever the event, a tombstone that was there keeps its row, and a new one was written by
      the event. */
  lemma TombstoneStep(t: Tables, e: Event, u: Tables, at: LocationKey)
    requires Next(t, e, u) && at in u.storage.tombstones
    ensures var row := u.storage.tombstones[at];
      if at in t.storage.tombstones then row == t.storage.tombstones[at] else Writes(e, at, row)
  {
    match e
    case Mark(reclaim, seqNo, grace) =>
      var marks :| MarkStep(t, u, reclaim, marks, seqNo, grace);
    case Unlink(world, mode, now) =>
      var gone, cleared :| UnlinkStep(t, u, world, mode, now, gone, cleared);
    case StoreCall(op) =>
      if TombstoneEvent(e) {
        if u != t { DirectTombstone(t, op, at); }
      } else {
        TombstonesKept(t, e, u);
      }
    case _ => TombstonesKept(t, e, u);
  }

  /** The tombstone of `at` at moment `i` was written by the event at moment `j` and has been there
      ever since. */
  ghost predicate MarkedSince(trace: seq<Tables>, events: seq<Event>, at: LocationKey, j: nat, i: nat)
    requires IsRun(trace, events) && i <= |events|
  {
    && j < i && at !in trace[j].storage.tombstones
    && (forall k :: j < k <= i ==> at in trace[k].storage.tombstones)
    && Writes(events[j], at, trace[i].storage.tombstones[at])
  }

  /** In every run, a tombstone present now and not at the start was written by one event, a mark
      with that mark's own deadline or a direct call, and every later mark kept it. */
  lemma {:induction false} TombstoneProvenance(trace: seq<Tables>, events: seq<Event>, at: LocationKey, i: nat)
    returns (j: nat)
    requires IsRun(trace, events) && i <= |events|
    requires at !in trace[0].storage.tombstones && at in trace[i].storage.tombstones
    ensures MarkedSince(trace, events, at, j, i)
  {
    TombstoneStep(trace[i-1], events[i-1], trace[i], at);
    if at in trace[i-1].storage.tombstones {
      j := TombstoneProvenance(trace, events, at, i - 1);
    } else {
      j := i - 1;
    }
  }

  /** In every run, what an unlink pass removes is at that moment unpinned, unheld, not
      authoritative evidence, and under a tombstone whose deadline has passed. */
  lemma UnlinkRemovesUnprotected(trace: seq<Tables>, events: seq<Event>, i: nat, at: LocationKey)
    requires IsRun(trace, events) && i < |events| && events[i].Unlink?
    requires at in trace[i].storage.locations && at !in trace[i+1].storage.locations
    ensures !Pinned(trace[i], at.objectKey) && !Live(events[i].world, at.objectKey)
    ensures PolicyOf(events[i].world, at.objectKey).class_ != AuthoritativeEvidence
    ensures at in trace[i].storage.tombstones && trace[i].storage.tombstones[at].graceUntil <= events[i].now
  {
    var e := events[i];
    var gone, cleared :| UnlinkStep(trace[i], trace[i+1], e.world, e.mode, e.now, gone, cleared);
    assert at in gone;
    UnlinkSafe(trace[i], e.world, e.mode, e.now, at);
  }

  /** In every run, what an unlink pass removes was tombstoned at some earlier moment, has been ever
      since, and the deadline written then has passed: a mark's sequence plus grace, or the one a
      direct call named. */
  lemma UnlinkRemovesOnlyDue(trace: seq<Tables>, events: seq<Event>, i: nat, at: LocationKey) returns (j: nat)
    requires IsRun(trace, events) && i < |events| && events[i].Unlink?
    requires at !in trace[0].storage.tombstones
    requires at in trace[i].storage.locations && at !in trace[i+1].storage.locations
    ensures MarkedSince(trace, events, at, j, i)
    ensures events[j].Mark? ==> events[j].seqNo + events[j].grace <= events[i].now
    ensures events[j].StoreCall? ==> events[j].op.AddTombstone? && events[j].op.graceUntil <= events[i].now
    ensures !Pinned(trace[i], at.objectKey) && !Live(events[i].world, at.objectKey)
    ensures PolicyOf(events[i].world, at.objectKey).class_ != AuthoritativeEvidence
  {
    UnlinkRemovesUnprotected(trace, events, i, at);
    j := TombstoneProvenance(trace, events, at, i);
  }

  // ---------------------------------------------------------------- publication pins

  /** Pins are released only through the scoped call. */
  predicate ScopedEvent(e: Event) {
    e.StoreCall? ==> !e.op.ReleasePin?
  }

  /** And locations are removed only by unlink passes. */
  predicate LeasedEvent(e: Event) {
    ScopedEvent(e) && (e.StoreCall? ==> !e.op.RemoveLocation?) && !e.Execute?
  }

  /** A coordinator presenting the active authority asks for this pin's release. */
  ghost predicate AuthorizedRelease(t: Tables, e: Event, pin: nat) {
    e.ReleaseScoped? && e.pin == pin && e.who.Coordinator? && ActiveKeys(t) == {e.who.authority}
  }

  /** An unreleased publication pin on this root. */
  ghost predicate PublicationPin(t: Tables, pin: nat, root: Key) {
    pin in t.pins && !t.pins[pin].released && t.pins[pin].pinClass == PUBLICATION_PIN_CLASS && t.pins[pin].root == root
  }

  /** The location's object is reached from the root. */
  ghost predicate ReachedAt(t: Tables, root: Key, at: LocationKey) {
    at in t.storage.locations && Reaches(Linked(t.storage.edges), root, at.objectKey)
  }

  lemma ReachesGrows(t: Tables, u: Tables, x: Key, y: Key)
    requires t.storage.edges <= u.storage.edges && Reaches(Linked(t.storage.edges), x, y)
    ensures Reaches(Linked(u.storage.edges), x, y)
  {
    forall a, b | HasEdge(t.storage.edges, a, b) ensures HasEdge(u.storage.edges, a, b) {
    }
    ReachesMonotone(Linked(t.storage.edges), Linked(u.storage.edges), x, y);
  }

  lemma TombstoneCallKeeps(op: Op, t: Tables)
    requires op.AddTombstone? || op.RemoveTombstone?
    ensures Perform(op, t).0 == WithTombstones(t, Perform(op, t).0.storage.tombstones)
  {
    if op.AddTombstone? && Representable(op) {
      AddTombstoneEffect(op.at, op.marked, op.graceUntil, t);
    } else if op.RemoveTombstone? {
      RemoveTombstoneEffect(op.at, t);
      WithoutNothing(t);
    }
  }

  lemma PinCall(t: Tables, op: Op, pin: nat, root: Key)
    requires PublicationPin(t, pin, root) && !op.ReleasePin?
    ensures PublicationPin(Perform(op, t).0, pin, root)
  {
    CallGrows(op, t);
    if RetainingOp(op) {
      RetainingCall(op, t);
    } else if op.RemoveLocation? {
      RemoveLocationEffect(op.at, t);
    } else {
      TombstoneCallKeeps(op, t);
    }
  }

  lemma PinStep(t: Tables, e: Event, u: Tables, pin: nat, root: Key)
    requires PublicationPin(t, pin, root) && Next(t, e, u) && ScopedEvent(e) && !AuthorizedRelease(t, e, pin)
    ensures PublicationPin(u, pin, root)
  {
    match e
    case StoreCall(op) => PinCall(t, op, pin, root);
    case Planning =>
    case ReleaseScoped(other, who) => if other == pin { PublicationPinRelease(t, pin, who); }
    case Mark(reclaim, seqNo, grace) => var marks :| MarkStep(t, u, reclaim, marks, seqNo, grace);
    case Unlink(world, mode, now) => var gone, cleared :| UnlinkStep(t, u, world, mode, now, gone, cleared);
    case Execute(reclaim) => var gone :| gone <= reclaim && u == Without(t.(log := u.log), gone, {});
  }

  ghost predicate NoAuthorizedRelease(trace: seq<Tables>, events: seq<Event>, pin: nat, i: nat)
    requires |trace| == |events| + 1 && i <= |events|
  {
    forall k :: 0 <= k < i ==> ScopedEvent(events[k]) && !AuthorizedRelease(trace[k], events[k], pin)
  }

  /** While pins are released only through the scoped call, a publication pin stays unreleased
      until a coordinator presents the active authority, whatever else happens: executions,
      removals, marks and unlink passes included. */
  lemma {:induction false} PublicationPinStays(trace: seq<Tables>, events: seq<Event>, pin: nat, root: Key, i: nat)
    requires IsRun(trace, events) && i <= |events| && NoAuthorizedRelease(trace, events, pin, i)
    requires PublicationPin(trace[0], pin, root)
    ensures PublicationPin(trace[i], pin, root)
  {
    if i > 0 {
      PublicationPinStays(trace, events, pin, root, i - 1);
      PinStep(trace[i-1], events[i-1], trace[i], pin, root);
    }
  }

  lemma UnlinkKeepsReached(t: Tables, e: Event, u: Tables, pin: nat, root: Key, at: LocationKey)
    requires Next(t, e, u) && e.Unlink? && PublicationPin(t, pin, root) && ReachedAt(t, root, at)
    ensures ReachedAt(u, root, at)
  {
    var gone, cleared :| UnlinkStep(t, u, e.world, e.mode, e.now, gone, cleared);
    if at in gone {
      UnlinkSafe(t, e.world, e.mode, e.now, at);
      assert Pinned(t, at.objectKey);
      assert false;
    }
  }

  /** In such a run no unlink pass removes a location reachable from the pin at that moment. */
  lemma UnlinkNeverUnderPublication(
      trace: seq<Tables>, events: seq<Event>, pin: nat, root: Key, i: nat, at: LocationKey)
    requires IsRun(trace, events) && i < |events| && NoAuthorizedRelease(trace, events, pin, i)
    requires PublicationPin(trace[0], pin, root) && events[i].Unlink? && ReachedAt(trace[i], root, at)
    ensures ReachedAt(trace[i+1], root, at)
  {
    PublicationPinStays(trace, events, pin, root, i);
    UnlinkKeepsReached(trace[i], events[i], trace[i+1], pin, root, at);
  }

  lemma ReachedCall(t: Tables, op: Op, root: Key, at: LocationKey)
    requires ReachedAt(t, root, at) && !op.ReleasePin? && !op.RemoveLocation?
    ensures ReachedAt(Perform(op, t).0, root, at)
  {
    CallGrows(op, t);
    ReachesGrows(t, Perform(op, t).0, root, at.objectKey);
    if RetainingOp(op) {
      RetainingCall(op, t);
    } else {
      TombstoneCallKeeps(op, t);
    }
  }

  lemma ReachedStep(t: Tables, e: Event, u: Tables, pin: nat, root: Key, at: LocationKey)
    requires PublicationPin(t, pin, root) && ReachedAt(t, root, at) && Next(t, e, u) && LeasedEvent(e)
    ensures ReachedAt(u, root, at)
  {
    match e
    case StoreCall(op) => ReachedCall(t, op, root, at);
    case Planning =>
    case ReleaseScoped(other, who) =>
    case Mark(reclaim, seqNo, grace) => var marks :| MarkStep(t, u, reclaim, marks, seqNo, grace);
    case Unlink(_, _, _) => UnlinkKeepsReached(t, e, u, pin, root, at);
  }

  /** With neither executions nor direct removals in the run, every location reachable from the
      pin also stays recorded. */
  lemma {:induction false} PublicationPinHolds(
      trace: seq<Tables>, events: seq<Event>, pin: nat, root: Key, at: LocationKey, i: nat)
    requires IsRun(trace, events) && i <= |events| && NoAuthorizedRelease(trace, events, pin, i)
    requires forall k :: 0 <= k < i ==> LeasedEvent(events[k])
    requires PublicationPin(trace[0], pin, root) && ReachedAt(trace[0], root, at)
    ensures PublicationPin(trace[i], pin, root) && ReachedAt(trace[i], root, at)
  {
    if i > 0 {
      PublicationPinHolds(trace, events, pin, root, at, i - 1);
      PublicationPinStays(trace, events, pin, root, i);
      ReachedStep(trace[i-1], events[i-1], trace[i], pin, root, at);
    }
  }

  // ---------------------------------------------------------------- any pin

  /** Someone who may release the pin asks for it: its owner, of a pin outside the publication
      class, or the coordinator with the one active authority, through the scoped call; or its
      owner through the store's own. */
  ghost predicate AsksRelease(t: Tables, e: Event, pin: nat) {
    && pin in t.pins
    && ( || (e.ReleaseScoped? && e.pin == pin &&
              match e.who
              case Coordinator(authority) => ActiveKeys(t) == {authority}
              case Worker(owner) => owner == t.pins[pin].owner && t.pins[pin].pinClass != "action-publication")
         || (e.StoreCall? && e.op.ReleasePin? && e.op.pinId == pin && e.op.owner == t.pins[pin].owner))
  }

  /** Unreleased, and still the same lease. */
  ghost predicate LeaseHolds(p: Pin, t: Tables, pin: nat) {
    && pin in t.pins && !t.pins[pin].released
    && t.pins[pin].root == p.root && t.pins[pin].owner == p.owner && t.pins[pin].pinClass == p.pinClass
  }

  lemma LeaseCall(p: Pin, t: Tables, op: Op, pin: nat)
    requires LeaseHolds(p, t, pin) && !AsksRelease(t, StoreCall(op), pin)
    ensures LeaseHolds(p, Perform(op, t).0, pin)
  {
    CallGrows(op, t);
    if RetainingOp(op) {
      RetainingCall(op, t);
    } else if op.ReleasePin? {
      StoreCalls.ReleasePinExact(op.pinId, op.owner, t);
    } else if op.RemoveLocation? {
      RemoveLocationEffect(op.at, t);
    } else {
      TombstoneCallKeeps(op, t);
    }
  }

  lemma LeaseStep(p: Pin, t: Tables, e: Event, u: Tables, pin: nat)
    requires LeaseHolds(p, t, pin) && Next(t, e, u) && !AsksRelease(t, e, pin)
    ensures LeaseHolds(p, u, pin)
  {
    match e
    case StoreCall(op) => LeaseCall(p, t, op, pin);
    case Planning =>
    case ReleaseScoped(other, who) => if other == pin { ReleaseDecision(t, pin, who); }
    case Mark(reclaim, seqNo, grace) => var marks :| MarkStep(t, u, reclaim, marks, seqNo, grace);
    case Unlink(world, mode, now) => var gone, cleared :| UnlinkStep(t, u, world, mode, now, gone, cleared);
    case Execute(reclaim) => var gone :| gone <= reclaim && u == Without(t.(log := u.log), gone, {});
  }

  /** In every run, whatever calls, marks, unlink passes and executions it holds, every pin of every
      class stays unreleased, with its root and its owner, until its owner or the active
      coordinator asks for its release. */
  lemma {:induction false} PinStaysUntilAsked(p: Pin, trace: seq<Tables>, events: seq<Event>, pin: nat, i: nat)
    requires IsRun(trace, events) && i <= |events| && LeaseHolds(p, trace[0], pin)
    requires forall k :: 0 <= k < i ==> !AsksRelease(trace[k], events[k], pin)
    ensures LeaseHolds(p, trace[i], pin)
  {
    if i > 0 {
      PinStaysUntilAsked(p, trace, events, pin, i - 1);
      LeaseStep(p, trace[i-1], events[i-1], trace[i], pin);
    }
  }
}
