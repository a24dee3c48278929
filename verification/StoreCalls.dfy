/** Every store call on the tables: when it is accepted, exactly what it writes, and what each
    refusal means. */
module StoreCalls {
  import opened Prelude
  import opened MetadataTables
  import opened MetadataStore
  import opened StoreInvariants

  // ---------------------------------------------------------------- ranges

  predicate Past(v: Option<u64>) { v.Some? && v.value >= I64_LIMIT }

  /** A sequence number the signed columns cannot hold. */
  predicate OutOfRange(op: Op) {
    match op
    case AcquireAuthority(_, _, _, term, acquiredSeq) => term >= I64_LIMIT || acquiredSeq >= I64_LIMIT
    case PutServingRecord(_, _, _, revision, v, _) =>
      revision >= I64_LIMIT || Past(v.maximumAge) || v.uncertainty >= I64_LIMIT || v.clockEpoch >= I64_LIMIT
    case AddLocation(_, verifiedSeq, _, _) => Past(verifiedSeq)
    case CreatePin(_, _, _, _, expiresAt) => Past(expiresAt)
    case AddTombstone(_, marked, graceUntil) => marked >= I64_LIMIT || graceUntil >= I64_LIMIT
    case RecordReceipt(receipt) => receipt.seqNo >= I64_LIMIT
    case _ => false
  }

  /** Such a call is refused before its transaction begins. */
  lemma OutOfRangeRefused(op: Op, t: Tables)
    requires OutOfRange(op)
    ensures Perform(op, t) == (t, Err(Corruption))
  {
  }

  // ---------------------------------------------------------------- authorities and generations

  /** Acquiring succeeds on a free store and again for the holder; any other holder is named. */
  lemma AcquireExact(op: Op, t: Tables)
    requires op.AcquireAuthority? && op.term < I64_LIMIT && op.acquiredSeq < I64_LIMIT
    ensures var (u, r) := Perform(op, t);
      && (ActiveKeys(t) == {} ==>
           && r == Ok(Unit)
           && u == t.(control := t.control.(authorities := t.control.authorities[
                op.key := Authority(op.clusterId, op.incarnation, op.term, op.acquiredSeq, false)])))
      && (ActiveKeys(t) == {op.key} ==> r == Ok(Unit) && u == t)
      && (forall k :: ActiveKeys(t) == {k} && k != op.key ==> r == Err(AuthorityHeld(k)) && u == t)
      && (|ActiveKeys(t)| > 1 ==> r == Err(Corruption) && u == t)
  {
    SingleStmt(OnControl(PutAuthority(op.key,
      Authority(op.clusterId, op.incarnation, op.term, op.acquiredSeq, false))), t);
  }

  /** Releasing clears exactly the named authority, known or not. */
  lemma ReleaseAuthorityExact(key: Key, t: Tables)
    ensures var (u, r) := Perform(ReleaseAuthority(key), t);
      && r == Ok(Unit) && ActiveKeys(u) == ActiveKeys(t) - {key}
      && u == t.(control := t.control.(authorities := u.control.authorities))
      && u.control.authorities.Keys == t.control.authorities.Keys
      && (forall k :: k in t.control.authorities && k != key ==> u.control.authorities[k] == t.control.authorities[k])
      && (key in t.control.authorities ==>
            u.control.authorities[key] == t.control.authorities[key].(released := true))
  {
    SingleStmt(OnControl(SetAuthorityReleased(key)), t);
  }

  /** A known generation is marked and keeps its action and authority; an unknown one is refused. */
  lemma TombstoneGenerationExact(id: nat, t: Tables)
    ensures var (u, r) := Perform(TombstoneGeneration(id), t);
      if id in t.control.generations then
        && r == Ok(Unit)
        && u == t.(control := t.control.(generations := t.control.generations[
             id := t.control.generations[id].(tombstoned := true)]))
      else r == Err(UnknownGeneration) && u == t
  {
    SingleStmt(OnControl(SetTombstoned(id)), t);
  }

  // ---------------------------------------------------------------- publications

  function WithQuarantine(t: Tables, scope: Scope, subject: Key, reason: string): Tables {
    t.(results := t.results.(quarantines := t.results.quarantines[(scope, subject) := reason]))
  }

  /** Under the active authority a key that is already published stays published as it was. The
      answer is an idempotent duplicate, with nothing written, if and only if the stored descriptor
      is the offered one; any other descriptor quarantines the action entry and nothing else. */
  lemma CommitRepublished(authority: Key, row: PublicationRow, t: Tables)
    requires ActiveKeys(t) == {authority} && row.action in t.results.publications
    ensures var (u, r) := Perform(CommitPublication(authority, row), t);
      var same := t.results.publications[row.action].descriptor == row.descriptor;
      && (r == Ok(Outcome(IdempotentDuplicate)) && u == t <==> same)
      && (r == Ok(Outcome(ConflictQuarantined)) <==> !same)
      && (!same ==> u == WithQuarantine(t, ActionEntry, row.action, "publication descriptor conflict"))
  {
    SingleStmt(OnResults(PutQuarantine(ActionEntry, row.action, CONFLICT_REASON)), t);
  }

  lemma {:induction false} AncestryCount(consumer: Key, rows: seq<AncestorRow>)
    ensures |AncestryStmts(consumer, rows)| == |rows|
  {
    if rows != [] { AncestryCount(consumer, rows[1..]); }
  }

  /** The mutation boundaries of a first commit, each a place a kill can fall: the transaction's
      begin and commit, the publication, the disposition, the serving row if there was none, the
      evidence, the pin, and one for every ancestor. */
  lemma CommitMutations(authority: Key, row: PublicationRow, t: Tables)
    requires ActiveKeys(t) == {authority} && row.action !in t.results.publications
    ensures Boundaries(CommitPublication(authority, row), t) ==
      2 + 4 + (if row.action in t.results.serving then 0 else 1) + |row.ancestors|
  {
    AncestryCount(row.action, row.ancestors);
  }

  /** A commit is refused, with nothing written, exactly when the presented authority is not the
      one active or a new publication's pin id is taken. */
  lemma CommitRefused(authority: Key, row: PublicationRow, t: Tables)
    ensures var (u, r) := Perform(CommitPublication(authority, row), t);
      && (r.Err? <==> ActiveKeys(t) != {authority} || (row.action !in t.results.publications && row.pinId in t.pins))
      && (r.Err? ==> u == t)
      && (|ActiveKeys(t)| <= 1 && ActiveKeys(t) != {authority} ==> r == Err(NotActiveAuthority))
      && (|ActiveKeys(t)| > 1 ==> r == Err(Corruption))
  {
    CommitExact(authority, row, t);
    if ActiveKeys(t) == {authority} && row.action in t.results.publications {
      CommitRepublished(authority, row, t);
    }
    if |ActiveKeys(t)| == 1 {
      SingletonSet(ActiveKeys(t));
    }
  }

  /** Evidence rows are write-once. */
  lemma EvidenceExact(op: Op, t: Tables)
    requires op.AppendEvidence?
    ensures var (u, r) := Perform(op, t);
      && r == Ok(Unit) && u == t.(results := t.results.(evidence := u.results.evidence))
      && u.results.evidence == if (op.action, op.evidence) in t.results.evidence then t.results.evidence
           else t.results.evidence[(op.action, op.evidence) := Evidence(op.generation, op.attempt, op.manifest)]
  {
    SingleStmt(OnResults(IgnoreEvidence(op.action, op.evidence,
      Evidence(op.generation, op.attempt, op.manifest))), t);
  }

  lemma TwoStmts(a: Stmt, b: Stmt, t: Tables)
    requires Apply(a, t).Ok?
    ensures ApplyAll([a, b], t) == Apply(b, Apply(a, t).value)
  {
    assert [a, b] == [a] + [b];
    ApplyFirst(a, [b], t);
    if Apply(b, Apply(a, t).value).Ok? { SingleStmt(b, Apply(a, t).value); }
  }

  /** Setting a disposition keeps the rest of an existing serving row and starts an absent one at
      revision zero with no authority. */
  lemma DispositionExact(action: Key, disposition: string, t: Tables)
    ensures var (u, r) := Perform(SetServingDisposition(action, disposition), t);
      && r == Ok(Unit)
      && u == t.(results := t.results.(serving := t.results.serving[action :=
           if action in t.results.serving then t.results.serving[action].(disposition := disposition)
           else Serving(disposition, 0, [], Validity(0, None, 0, 0))]))
  {
    var a := OnResults(SetDisposition(action, disposition));
    var b := OnResults(InsertServing(action, LegacyServing(disposition)));
    if action in t.results.serving {
      assert [a] + [] == [a];
      SingleStmt(a, t);
    } else {
      assert [a] + [b] == [a, b];
      TwoStmts(a, b, t);
    }
  }

  // ---------------------------------------------------------------- serving records

  function Named(action: Key, rows: seq<(Scope, Key)>): set<(Key, Scope, Key)> {
    set i | 0 <= i < |rows| :: (action, rows[i].0, rows[i].1)
  }

  function WithBlocking(t: Tables, blocking: set<(Key, Scope, Key)>): Tables {
    t.(results := t.results.(blocking := blocking))
  }

  lemma {:induction false} BlockingEffect(action: Key, rows: seq<(Scope, Key)>, t: Tables)
    ensures ApplyAll(BlockingStmts(action, rows), t) == Ok(WithBlocking(t, t.results.blocking + Named(action, rows)))
    decreases |rows|
  {
    if rows == [] {
      assert t.results.blocking + Named(action, rows) == t.results.blocking;
    } else {
      var s0 := OnResults(IgnoreBlocking(action, rows[0].0, rows[0].1));
      var u := Apply(s0, t).value;
      ApplyFirst(s0, BlockingStmts(action, rows[1..]), t);
      BlockingEffect(action, rows[1..], u);
      NamedFirst(action, rows);
      assert t.results.blocking + Named(action, rows)
        == t.results.blocking + {(action, rows[0].0, rows[0].1)} + Named(action, rows[1..]);
    }
  }

  lemma NamedFirst(action: Key, rows: seq<(Scope, Key)>)
    requires rows != []
    ensures Named(action, rows) == {(action, rows[0].0, rows[0].1)} + Named(action, rows[1..])
  {
    forall x | x in Named(action, rows) ensures x in {(action, rows[0].0, rows[0].1)} + Named(action, rows[1..]) {
      var i :| 0 <= i < |rows| && x == (action, rows[i].0, rows[i].1);
      if i > 0 { assert rows[i] == rows[1..][i-1]; }
    }
    forall x | x in Named(action, rows[1..]) ensures x in Named(action, rows) {
      var i :| 0 <= i < |rows[1..]| && x == (action, rows[1..][i].0, rows[1..][i].1);
      assert rows[1..][i] == rows[i+1];
    }
  }

  /** A serving record is in order when it comes from the active authority, moves the revision up,
      and is blocked only by quarantines that exist. */
  ghost predicate RecordInOrder(op: Op, t: Tables)
    requires op.PutServingRecord?
  {
    && ActiveKeys(t) == {op.authority} && op.revision > 0
    && (op.action in t.results.serving ==> op.revision > t.results.serving[op.action].revision)
    && (forall i :: 0 <= i < |op.blockedBy| ==> op.blockedBy[i] in t.results.quarantines)
  }

  /** The rows a record leaves: its own, and exactly its own blockers for the action. */
  function RecordRows(op: Op, t: Tables): Tables
    requires op.PutServingRecord?
  {
    t.(results := t.results.(
      serving := t.results.serving[op.action := Serving(op.disposition, op.revision, op.authority, op.validity)],
      blocking := (set b | b in t.results.blocking && b.0 != op.action) + Named(op.action, op.blockedBy)))
  }

  lemma RecordAccepted(op: Op, t: Tables)
    requires op.PutServingRecord? && !OutOfRange(op) && RecordInOrder(op, t)
    ensures Perform(op, t) == (RecordRows(op, t), Ok(Unit))
  {
    var a := OnResults(PutServing(op.action, Serving(op.disposition, op.revision, op.authority, op.validity)));
    var b, rest := OnResults(DeleteBlocking(op.action)), BlockingStmts(op.action, op.blockedBy);
    var u := Apply(b, Apply(a, t).value).value;
    TwoStmts(a, b, t);
    ApplyAllSplit([a, b], rest, t);
    BlockingEffect(op.action, op.blockedBy, u);
  }

  /** A storable serving record is accepted exactly when it is in order, and then writes exactly
      its rows; otherwise nothing is written, and the answer says which condition failed first. */
  lemma ServingRecordExact(op: Op, t: Tables)
    requires op.PutServingRecord? && !OutOfRange(op)
    ensures var (u, r) := Perform(op, t);
      && (r.Ok? <==> RecordInOrder(op, t))
      && u == (if r.Ok? then RecordRows(op, t) else t)
      && (r == Err(StaleServingRevision) <==>
            && ActiveKeys(t) == {op.authority}
            && (op.revision == 0
                || (op.action in t.results.serving && op.revision <= t.results.serving[op.action].revision)))
      && (r.Err? && ActiveKeys(t) == {op.authority} && r != Err(StaleServingRevision) ==>
            r == Err(UnknownQuarantineReference))
  {
    if RecordInOrder(op, t) {
      RecordAccepted(op, t);
    }
  }

  lemma QuarantineExact(scope: Scope, subject: Key, reason: string, t: Tables)
    ensures Perform(AddQuarantine(scope, subject, reason), t) == (WithQuarantine(t, scope, subject, reason), Ok(Unit))
  {
    SingleStmt(OnResults(PutQuarantine(scope, subject, reason)), t);
  }

  // ---------------------------------------------------------------- storage

  /** A location is written whole and unquarantined; a sequence past the signed range is refused. */
  lemma LocationExact(op: Op, t: Tables)
    requires op.AddLocation?
    ensures var (u, r) := Perform(op, t);
      if op.verifiedSeq.Some? && op.verifiedSeq.value >= I64_LIMIT then r == Err(Corruption) && u == t
      else
        && r == Ok(Unit)
        && u == t.(storage := t.storage.(locations := t.storage.locations[
             op.at := Location(op.verifiedSeq, op.encoding, false, op.durable)]))
  {
    SingleStmt(OnStorage(PutLocation(op.at, Location(op.verifiedSeq, op.encoding, false, op.durable))), t);
  }

  /** Adding an edge twice is adding it once. */
  lemma EdgeExact(edge: Edge, t: Tables)
    ensures Perform(AddEdge(edge), t) == (t.(storage := t.storage.(edges := t.storage.edges + {edge})), Ok(Unit))
  {
    SingleStmt(OnStorage(PutEdge(edge)), t);
  }

  // ---------------------------------------------------------------- pins

  /** A pin id is used once; the new pin is unreleased at renewal zero. */
  lemma CreatePinExact(op: Op, t: Tables)
    requires op.CreatePin?
    ensures var (u, r) := Perform(op, t);
      if op.expiresAt.Some? && op.expiresAt.value >= I64_LIMIT then r == Err(Corruption) && u == t
      else if op.pinId in t.pins then r == Err(Constraint) && u == t
      else
        && r == Ok(Unit)
        && u == t.(pins := t.pins[op.pinId := Pin(op.root, op.owner, op.pinClass, op.expiresAt, false, 0)])
  {
    var s0 := OnPins(InsertPin(op.pinId, Pin(op.root, op.owner, op.pinClass, op.expiresAt, false, 0)));
    if op.pinId !in t.pins { SingleStmt(s0, t); }
  }

  /** A renewal is accepted exactly for a known unreleased pin and a higher, storable number, and
      moves nothing but that number. */
  lemma RenewPinExact(pin: nat, renewal: u64, t: Tables)
    ensures var (u, r) := Perform(RenewPin(pin, renewal), t);
      && (r == Ok(Unit) <==> pin in t.pins && !t.pins[pin].released && t.pins[pin].renewal < renewal < I64_LIMIT)
      && u == (if r.Ok? then t.(pins := t.pins[pin := t.pins[pin].(renewal := renewal)]) else t)
      && (r == Err(UnknownPin) <==> pin !in t.pins)
      && (r == Err(PinReleased) <==> pin in t.pins && t.pins[pin].released)
      && (r == Err(NonMonotonicPinRenewal) <==>
            pin in t.pins && !t.pins[pin].released && renewal <= t.pins[pin].renewal)
  {
    SingleStmt(OnPins(SetPinRenewal(pin, renewal)), t);
  }

  /** A direct release is accepted exactly from the pin's owner, and sets nothing but the flag. */
  lemma ReleasePinExact(pin: nat, owner: string, t: Tables)
    ensures var (u, r) := Perform(ReleasePin(pin, owner), t);
      && (r == Ok(Unit) <==> pin in t.pins && t.pins[pin].owner == owner)
      && u == (if r.Ok? then t.(pins := t.pins[pin := t.pins[pin].(released := true)]) else t)
      && (r == Err(UnknownPin) <==> pin !in t.pins)
      && (r == Err(PinOwnerMismatch) <==> pin in t.pins && t.pins[pin].owner != owner)
  {
    SingleStmt(OnPins(SetPinReleased(pin)), t);
  }
}
