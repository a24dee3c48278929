/** The authoritative tables of the metadata store as maps over their primary keys,
    the SQL statements the store issues, and the transaction body of every operation.

    A typed digest is represented by its `domain:hex` key. */
module MetadataTables {
  import opened Prelude

  type Key = Bytes

  datatype Scope = LocationCopy | LogicalObject | ActionEntry

  datatype Authority = Authority(
    clusterId: string, incarnation: nat, term: u64, acquiredSeq: u64, released: bool)
  datatype Generation = Generation(action: Key, authority: Key, tombstoned: bool)
  datatype Publication = Publication(
    descriptor: Key, manifest: Key, generation: nat, attempt: nat, kind: ResultKind, pin: nat)
  datatype Validity = Validity(
    evaluatedAt: int, maximumAge: Option<u64>, uncertainty: u64, clockEpoch: u64)
  datatype Serving = Serving(
    disposition: string, revision: nat, authority: Key, validity: Validity)
  datatype Evidence = Evidence(generation: nat, attempt: nat, manifest: Key)
  datatype Pin = Pin(
    root: Key, owner: string, pinClass: string, expiresAt: Option<u64>, released: bool, renewal: nat)
  datatype AncestryKey = AncestryKey(consumer: Key, producer: Key, role: string, path: Bytes)
  datatype Ancestry = Ancestry(objectKey: Key, adopted: bool)
  datatype LocationKey = LocationKey(objectKey: Key, path: Bytes)
  datatype Location = Location(
    verifiedSeq: Option<u64>, encoding: string, quarantined: bool, durable: bool)
  datatype Edge = Edge(parent: Key, child: Key, kind: string)
  datatype Tombstone = Tombstone(marked: nat, graceUntil: nat)
  datatype GcRun = GcRun(seqNo: nat, pinned: nat, located: nat, reachable: nat)
  datatype GcReceipt = GcReceipt(
    seqNo: u64, emergency: bool, planned: nat, reclaimed: nat, skipped: nat, truncated: bool)

  /** Who may write: authorities, generations and the never-reuse mark. */
  datatype Control = Control(
    authorities: map<Key, Authority>, generations: map<nat, Generation>, highWater: nat)

  /** What has been published, and everything written with it. */
  datatype Results = Results(
    publications: map<Key, Publication>,
    serving: map<Key, Serving>,
    blocking: set<(Key, Scope, Key)>,
    evidence: map<(Key, Key), Evidence>,
    ancestry: map<AncestryKey, Ancestry>,
    quarantines: map<(Scope, Key), string>)

  /** Where objects are and what they reference. */
  datatype Storage = Storage(
    locations: map<LocationKey, Location>, edges: set<Edge>, tombstones: map<LocationKey, Tombstone>)

  datatype GcLog = GcLog(runs: seq<GcRun>, receipts: seq<GcReceipt>)

  datatype Tables = Tables(
    control: Control, results: Results, pins: map<nat, Pin>, storage: Storage, log: GcLog)

  const EMPTY: Tables :=
    Tables(Control(map[], map[], 0), Results(map[], map[], {}, map[], map[], map[]), map[],
           Storage(map[], {}, map[]), GcLog([], []))

  datatype Error =
    | Crash
    | Constraint
    | Corruption
    | AuthorityHeld(holder: Key)
    | NotActiveAuthority
    | GenerationIdNotAboveHighWater
    | UnknownGeneration
    | UnknownPin
    | PinOwnerMismatch
    | PinReleased
    | NonMonotonicPinRenewal
    | StaleServingRevision
    | UnknownQuarantineReference

  // ---------------------------------------------------------------- statements

  /** One mutating statement, grouped by the tables it touches. `Insert*` is a plain INSERT
      (a duplicate key is a constraint error), `Put*` is INSERT OR REPLACE, `Ignore*` is
      INSERT OR IGNORE, `Set*` is an UPDATE. */
  datatype Stmt =
    | OnControl(c: ControlStmt)
    | OnResults(r: ResultStmt)
    | OnPins(p: PinStmt)
    | OnStorage(s: StorageStmt)
    | OnLog(l: LogStmt)

  datatype ControlStmt =
    | PutAuthority(key: Key, authority: Authority)
    | SetAuthorityReleased(key: Key)
    | InsertGeneration(id: nat, generation: Generation)
    | PutHighWater(id: nat)
    | SetTombstoned(id: nat)

  datatype ResultStmt =
    | InsertPublication(action: Key, publication: Publication)
    | SetDisposition(action: Key, disposition: string)
    | InsertServing(action: Key, serving: Serving)
    | PutServing(action: Key, serving: Serving)
    | DeleteBlocking(action: Key)
    | IgnoreBlocking(action: Key, scope: Scope, subject: Key)
    | IgnoreEvidence(action: Key, evidenceKey: Key, evidence: Evidence)
    | IgnoreAncestry(ancestryKey: AncestryKey, ancestry: Ancestry)
    | PutQuarantine(scope: Scope, subject: Key, reason: string)

  datatype PinStmt =
    | InsertPin(id: nat, pin: Pin)
    | SetPinRenewal(id: nat, renewal: nat)
    | SetPinReleased(id: nat)

  datatype StorageStmt =
    | PutLocation(at: LocationKey, location: Location)
    | DeleteLocation(at: LocationKey)
    | PutEdge(edge: Edge)
    | InsertTombstone(at: LocationKey, tombstone: Tombstone)
    | DeleteTombstone(at: LocationKey)

  datatype LogStmt =
    | AppendGcRun(run: GcRun)
    | AppendGcReceipt(receipt: GcReceipt)

  function ApplyControl(s: ControlStmt, t: Control): Result<Control, Error> {
    match s
    case PutAuthority(k, a) => Ok(t.(authorities := t.authorities[k := a]))
    case SetAuthorityReleased(k) =>
      Ok(if k in t.authorities then t.(authorities := t.authorities[k := t.authorities[k].(released := true)]) else t)
    case InsertGeneration(id, g) =>
      if id in t.generations then Err(Constraint) else Ok(t.(generations := t.generations[id := g]))
    case PutHighWater(id) => Ok(t.(highWater := id))
    case SetTombstoned(id) =>
      Ok(if id !in t.generations then t
         else t.(generations := t.generations[id := t.generations[id].(tombstoned := true)]))
  }

  function ApplyResults(s: ResultStmt, t: Results): Result<Results, Error> {
    match s
    case InsertPublication(a, p) =>
      if a in t.publications then Err(Constraint) else Ok(t.(publications := t.publications[a := p]))
    case SetDisposition(a, d) =>
      Ok(if a in t.serving then t.(serving := t.serving[a := t.serving[a].(disposition := d)]) else t)
    case InsertServing(a, v) =>
      if a in t.serving then Err(Constraint) else Ok(t.(serving := t.serving[a := v]))
    case PutServing(a, v) => Ok(t.(serving := t.serving[a := v]))
    case DeleteBlocking(a) => Ok(t.(blocking := set b | b in t.blocking && b.0 != a))
    case IgnoreBlocking(a, scope, subject) => Ok(t.(blocking := t.blocking + {(a, scope, subject)}))
    case IgnoreEvidence(a, e, row) =>
      Ok(if (a, e) in t.evidence then t else t.(evidence := t.evidence[(a, e) := row]))
    case IgnoreAncestry(k, row) =>
      Ok(if k in t.ancestry then t else t.(ancestry := t.ancestry[k := row]))
    case PutQuarantine(scope, subject, reason) =>
      Ok(t.(quarantines := t.quarantines[(scope, subject) := reason]))
  }

  function ApplyPins(s: PinStmt, t: map<nat, Pin>): Result<map<nat, Pin>, Error> {
    match s
    case InsertPin(id, p) => if id in t then Err(Constraint) else Ok(t[id := p])
    case SetPinRenewal(id, n) => Ok(if id in t then t[id := t[id].(renewal := n)] else t)
    case SetPinReleased(id) => Ok(if id in t then t[id := t[id].(released := true)] else t)
  }

  function ApplyStorage(s: StorageStmt, t: Storage): Result<Storage, Error> {
    match s
    case PutLocation(at, l) => Ok(t.(locations := t.locations[at := l]))
    case DeleteLocation(at) => Ok(t.(locations := t.locations - {at}))
    case PutEdge(e) => Ok(t.(edges := t.edges + {e}))
    case InsertTombstone(at, row) =>
      if at in t.tombstones then Err(Constraint) else Ok(t.(tombstones := t.tombstones[at := row]))
    case DeleteTombstone(at) => Ok(t.(tombstones := t.tombstones - {at}))
  }

  function ApplyLog(s: LogStmt, t: GcLog): GcLog {
    match s
    case AppendGcRun(run) => t.(runs := t.runs + [run])
    case AppendGcReceipt(receipt) => t.(receipts := t.receipts + [receipt])
  }

  function Apply(s: Stmt, t: Tables): Result<Tables, Error> {
    match s
    case OnControl(c) => (match ApplyControl(c, t.control) case Err(e) => Err(e) case Ok(x) => Ok(t.(control := x)))
    case OnResults(r) => (match ApplyResults(r, t.results) case Err(e) => Err(e) case Ok(x) => Ok(t.(results := x)))
    case OnPins(p) => (match ApplyPins(p, t.pins) case Err(e) => Err(e) case Ok(x) => Ok(t.(pins := x)))
    case OnStorage(m) => (match ApplyStorage(m, t.storage) case Err(e) => Err(e) case Ok(x) => Ok(t.(storage := x)))
    case OnLog(l) => Ok(t.(log := ApplyLog(l, t.log)))
  }

  function ApplyAll(ss: seq<Stmt>, t: Tables): Result<Tables, Error> {
    if ss == [] then Ok(t)
    else
      match Apply(ss[0], t)
      case Err(e) => Err(e)
      case Ok(t') => ApplyAll(ss[1..], t')
  }

  /** What a transaction body does once it has read the tables as of BEGIN: whether it read
      them, which statements it issues, and what it answers. */
  datatype Plan<T> = Plan(queries: bool, stmts: seq<Stmt>, result: Result<T, Error>)

  /** The committed effect of a body: all of its statements, or nothing on any error. */
  function Effect<T>(p: Plan<T>, t: Tables): (Tables, Result<T, Error>) {
    match ApplyAll(p.stmts, t)
    case Err(e) => (t, Err(e))
    case Ok(t') => if p.result.Ok? then (t', p.result) else (t, p.result)
  }

  // ---------------------------------------------------------------- reads

  function ActiveKeys(t: Tables): set<Key> {
    set k | k in t.control.authorities && !t.control.authorities[k].released
  }

  lemma SingletonSet<T>(s: set<T>)
    requires |s| == 1
    ensures exists x :: x in s && s == {x}
  {
    var x :| x in s;
    assert |s - {x}| == 0;
    assert s == {x};
  }

  /** The unreleased authority, refusing more than one as corruption. */
  function ActiveKey(t: Tables): (r: Result<Option<Key>, Error>)
    ensures r == Ok(None) <==> ActiveKeys(t) == {}
    ensures forall k :: r == Ok(Some(k)) <==> ActiveKeys(t) == {k}
    ensures r.Err? ==> r.error == Corruption
  {
    var keys := ActiveKeys(t);
    if keys == {} then Ok(None)
    else if |keys| == 1 then
      SingletonSet(keys);
      var k :| k in keys && keys == {k};
      Ok(Some(k))
    else
      assert forall k: Key :: |{k}| == 1;
      Err(Corruption)
  }

  function RequireActive(t: Tables, authority: Key): (r: Result<(), Error>)
    ensures r.Ok? <==> ActiveKeys(t) == {authority}
    ensures r.Err? ==> r.error == NotActiveAuthority || r.error == Corruption
  {
    match ActiveKey(t)
    case Err(e) => Err(e)
    case Ok(None) => Err(NotActiveAuthority)
    case Ok(Some(k)) => if k == authority then Ok(()) else Err(NotActiveAuthority)
  }

  // ---------------------------------------------------------------- operations

  datatype AncestorRow = AncestorRow(
    producer: Key, role: string, path: Bytes, objectKey: Key, adopted: bool)

  datatype PublicationRow = PublicationRow(
    action: Key, descriptor: Key, manifest: Key, evidence: Key, generation: nat, attempt: nat,
    kind: ResultKind, pinId: nat, pinOwner: string, ancestors: seq<AncestorRow>)

  datatype CommitOutcome = Committed | IdempotentDuplicate | ConflictQuarantined

  datatype Value = Unit | Outcome(outcome: CommitOutcome) | Changed(changed: bool)

  /** The mutating calls of the store, one constructor per call. */
  datatype Op =
    | AcquireAuthority(key: Key, clusterId: string, incarnation: nat, term: u64, acquiredSeq: u64)
    | ReleaseAuthority(key: Key)
    | CreateGeneration(authority: Key, id: nat, action: Key)
    | TombstoneGeneration(id: nat)
    | CommitPublication(authority: Key, row: PublicationRow)
    | AppendEvidence(action: Key, manifest: Key, evidence: Key, generation: nat, attempt: nat)
    | SetServingDisposition(action: Key, disposition: string)
    | PutServingRecord(authority: Key, action: Key, disposition: string, revision: u64,
                       validity: Validity, blockedBy: seq<(Scope, Key)>)
    | AddQuarantine(scope: Scope, subject: Key, reason: string)
    | AddLocation(at: LocationKey, verifiedSeq: Option<u64>, encoding: string, durable: bool)
    | RemoveLocation(at: LocationKey)
    | AddEdge(edge: Edge)
    | CreatePin(pinId: nat, root: Key, owner: string, pinClass: string, expiresAt: Option<u64>)
    | RenewPin(pinId: nat, renewal: u64)
    | ReleasePin(pinId: nat, owner: string)
    | AddTombstone(at: LocationKey, marked: u64, graceUntil: u64)
    | RemoveTombstone(at: LocationKey)
    | RecordReceipt(receipt: GcReceipt)

  const PUBLICATION_PIN_CLASS := "action-publication"
  const CONFLICT_REASON := "publication descriptor conflict"

  const LEGACY_VALIDITY := Validity(0, None, 0, 0)

  function LegacyServing(disposition: string): Serving {
    Serving(disposition, 0, [], LEGACY_VALIDITY)
  }

  predicate FitsOption(v: Option<u64>) { v.Some? ==> v.value < I64_LIMIT }

  /** The range checks made before BEGIN: sequence numbers must fit a signed column. */
  predicate Representable(op: Op) {
    match op
    case AcquireAuthority(_, _, _, term, acquiredSeq) => term < I64_LIMIT && acquiredSeq < I64_LIMIT
    case PutServingRecord(_, _, _, revision, v, _) =>
      revision < I64_LIMIT && FitsOption(v.maximumAge) && v.uncertainty < I64_LIMIT && v.clockEpoch < I64_LIMIT
    case AddLocation(_, verifiedSeq, _, _) => FitsOption(verifiedSeq)
    case CreatePin(_, _, _, _, expiresAt) => FitsOption(expiresAt)
    case AddTombstone(_, marked, graceUntil) => marked < I64_LIMIT && graceUntil < I64_LIMIT
    case RecordReceipt(r) => r.seqNo < I64_LIMIT
    case _ => true
  }

  function AncestryStmts(consumer: Key, rows: seq<AncestorRow>): seq<Stmt> {
    if rows == [] then []
    else
      [OnResults(IgnoreAncestry(AncestryKey(consumer, rows[0].producer, rows[0].role, rows[0].path),
                      Ancestry(rows[0].objectKey, rows[0].adopted)))] + AncestryStmts(consumer, rows[1..])
  }

  function BlockingStmts(action: Key, rows: seq<(Scope, Key)>): seq<Stmt> {
    if rows == [] then []
    else [OnResults(IgnoreBlocking(action, rows[0].0, rows[0].1))] + BlockingStmts(action, rows[1..])
  }

  function PublicationOf(row: PublicationRow): Publication {
    Publication(row.descriptor, row.manifest, row.generation, row.attempt, row.kind, row.pinId)
  }

  /** The first commit of a key: pointer, serving state, winner evidence and reachability pin,
      then the provisional lineage, all in one transaction. */
  function CommitHead(t: Tables, row: PublicationRow): seq<Stmt> {
    [OnResults(InsertPublication(row.action, PublicationOf(row))), OnResults(SetDisposition(row.action, "servable"))]
    + (if row.action in t.results.serving then []
       else [OnResults(InsertServing(row.action, LegacyServing("servable")))])
    + [OnResults(IgnoreEvidence(row.action, row.evidence, Evidence(row.generation, row.attempt, row.manifest))),
       OnPins(InsertPin(row.pinId, Pin(row.manifest, row.pinOwner, PUBLICATION_PIN_CLASS, None, false, 0)))]
  }

  function Body(op: Op, t: Tables): Plan<Value> {
    match op
    case AcquireAuthority(key, cluster, incarnation, term, acquired) =>
      (match ActiveKey(t)
       case Err(e) => Plan(true, [], Err(e))
       case Ok(None) =>
         var row := Authority(cluster, incarnation, term, acquired, false);
         Plan(true, [OnControl(PutAuthority(key, row))], Ok(Unit))
       case Ok(Some(holder)) => Plan(true, [], if holder == key then Ok(Unit) else Err(AuthorityHeld(holder))))
    case ReleaseAuthority(key) => Plan(false, [OnControl(SetAuthorityReleased(key))], Ok(Unit))
    case CreateGeneration(authority, id, action) =>
      (match RequireActive(t, authority)
       case Err(e) => Plan(true, [], Err(e))
       case Ok(_) =>
         if id <= t.control.highWater then Plan(true, [], Err(GenerationIdNotAboveHighWater))
         else
           var row := Generation(action, authority, false);
           Plan(true, [OnControl(InsertGeneration(id, row)), OnControl(PutHighWater(id))], Ok(Unit)))
    case TombstoneGeneration(id) =>
      Plan(false, [OnControl(SetTombstoned(id))],
           if id in t.control.generations then Ok(Unit) else Err(UnknownGeneration))
    case CommitPublication(authority, row) =>
      (match RequireActive(t, authority)
       case Err(e) => Plan(true, [], Err(e))
       case Ok(_) =>
         if row.action !in t.results.publications then
           Plan(true, CommitHead(t, row) + AncestryStmts(row.action, row.ancestors), Ok(Outcome(Committed)))
         else if t.results.publications[row.action].descriptor == row.descriptor then
           Plan(true, [], Ok(Outcome(IdempotentDuplicate)))
         else
           Plan(true, [OnResults(PutQuarantine(ActionEntry, row.action, CONFLICT_REASON))],
                Ok(Outcome(ConflictQuarantined))))
    case AppendEvidence(action, manifest, evidence, generation, attempt) =>
      Plan(false, [OnResults(IgnoreEvidence(action, evidence, Evidence(generation, attempt, manifest)))], Ok(Unit))
    case SetServingDisposition(action, disposition) =>
      Plan(false, [OnResults(SetDisposition(action, disposition))]
                  + (if action in t.results.serving then []
                     else [OnResults(InsertServing(action, LegacyServing(disposition)))]), Ok(Unit))
    case PutServingRecord(authority, action, disposition, revision, validity, blockedBy) =>
      (match RequireActive(t, authority)
       case Err(e) => Plan(true, [], Err(e))
       case Ok(_) =>
         if revision == 0 || (action in t.results.serving && revision <= t.results.serving[action].revision) then
           Plan(true, [], Err(StaleServingRevision))
         else if exists i :: 0 <= i < |blockedBy| && blockedBy[i] !in t.results.quarantines then
           Plan(true, [], Err(UnknownQuarantineReference))
         else
           var row := Serving(disposition, revision, authority, validity);
           Plan(true, [OnResults(PutServing(action, row)), OnResults(DeleteBlocking(action))]
                      + BlockingStmts(action, blockedBy), Ok(Unit)))
    case AddQuarantine(scope, subject, reason) =>
      Plan(false, [OnResults(PutQuarantine(scope, subject, reason))], Ok(Unit))
    case AddLocation(at, verifiedSeq, encoding, durable) =>
      Plan(false, [OnStorage(PutLocation(at, Location(verifiedSeq, encoding, false, durable)))], Ok(Unit))
    case RemoveLocation(at) => Plan(false, [OnStorage(DeleteLocation(at))], Ok(Changed(at in t.storage.locations)))
    case AddEdge(edge) => Plan(false, [OnStorage(PutEdge(edge))], Ok(Unit))
    case CreatePin(id, root, owner, pinClass, expiresAt) =>
      Plan(false, [OnPins(InsertPin(id, Pin(root, owner, pinClass, expiresAt, false, 0)))], Ok(Unit))
    case RenewPin(id, renewal) =>
      if id !in t.pins then Plan(true, [], Err(UnknownPin))
      else if t.pins[id].released then Plan(true, [], Err(PinReleased))
      else if renewal <= t.pins[id].renewal then Plan(true, [], Err(NonMonotonicPinRenewal))
      else if renewal >= I64_LIMIT then Plan(true, [], Err(Corruption))
      else Plan(true, [OnPins(SetPinRenewal(id, renewal))], Ok(Unit))
    case ReleasePin(id, owner) =>
      if id !in t.pins then Plan(true, [], Err(UnknownPin))
      else if t.pins[id].owner != owner then Plan(true, [], Err(PinOwnerMismatch))
      else Plan(true, [OnPins(SetPinReleased(id))], Ok(Unit))
    case AddTombstone(at, marked, graceUntil) =>
      if at in t.storage.tombstones then Plan(true, [], Ok(Unit))
      else Plan(true, [OnStorage(InsertTombstone(at, Tombstone(marked, graceUntil)))], Ok(Unit))
    case RemoveTombstone(at) => Plan(false, [OnStorage(DeleteTombstone(at))], Ok(Changed(at in t.storage.tombstones)))
    case RecordReceipt(receipt) => Plan(false, [OnLog(AppendGcReceipt(receipt))], Ok(Unit))
  }

  /** An uninterrupted call: the tables it commits and what it answers. */
  function Perform(op: Op, t: Tables): (Tables, Result<Value, Error>) {
    if Representable(op) then Effect(Body(op, t), t) else (t, Err(Corruption))
  }
}
