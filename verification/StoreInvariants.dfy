/** What every run of store calls keeps, kills included. */
module StoreInvariants {
  import opened Prelude
  import opened MetadataTables
  import opened MetadataStore

  // ---------------------------------------------------------------- growth

  ghost predicate PinKept(p: Pin, q: Pin) {
    && q.root == p.root && q.owner == p.owner && q.pinClass == p.pinClass && q.expiresAt == p.expiresAt
    && (p.released ==> q.released) && p.renewal <= q.renewal
  }

  ghost predicate GenerationKept(g: Generation, h: Generation) {
    h.action == g.action && h.authority == g.authority && (g.tombstoned ==> h.tombstoned)
  }

  ghost predicate ServingKept(m: map<Key, Serving>, n: map<Key, Serving>) {
    forall a :: a in m ==> a in n && m[a].revision <= n[a].revision
  }

  ghost predicate PinsKept(m: map<nat, Pin>, n: map<nat, Pin>) {
    forall p :: p in m ==> p in n && PinKept(m[p], n[p])
  }

  ghost predicate GenerationsKept(m: map<nat, Generation>, n: map<nat, Generation>) {
    forall g :: g in m ==> g in n && GenerationKept(m[g], n[g])
  }

  ghost predicate ControlKept(c: Control, d: Control) {
    GenerationsKept(c.generations, d.generations) && c.highWater <= d.highWater
  }

  ghost predicate ResultsKept(r: Results, q: Results) {
    && Keeps(r.publications, q.publications)
    && ServingKept(r.serving, q.serving)
    && Keeps(r.evidence, q.evidence)
    && Keeps(r.ancestry, q.ancestry)
  }

  /** History is append-only: published rows, evidence and lineage are never rewritten, and
      revisions, renewals, tombstones and the high-water mark only move forward. */
  ghost predicate Grows(t: Tables, u: Tables) {
    && ControlKept(t.control, u.control)
    && ResultsKept(t.results, u.results)
    && PinsKept(t.pins, u.pins)
    && t.storage.edges <= u.storage.edges
  }

  lemma ResultsKeptTransitive(r: Results, q: Results, p: Results)
    requires ResultsKept(r, q) && ResultsKept(q, p)
    ensures ResultsKept(r, p)
  {
  }

  lemma GrowsTransitive(t: Tables, u: Tables, v: Tables)
    requires Grows(t, u) && Grows(u, v)
    ensures Grows(t, v)
  {
    ResultsKeptTransitive(t.results, u.results, v.results);
  }

  /** Statements that overwrite a counter must not lower it. */
  ghost predicate Forward(s: Stmt, t: Tables) {
    match s
    case OnControl(PutHighWater(id)) => t.control.highWater <= id
    case OnResults(PutServing(a, v)) => a in t.results.serving ==> t.results.serving[a].revision <= v.revision
    case OnPins(SetPinRenewal(id, n)) => id in t.pins ==> t.pins[id].renewal <= n
    case _ => true
  }

  predicate Overwrites(s: Stmt) {
    || (s.OnControl? && s.c.PutHighWater?)
    || (s.OnResults? && s.r.PutServing?)
    || (s.OnPins? && s.p.SetPinRenewal?)
  }

  lemma ControlStmtKeeps(s: ControlStmt, c: Control)
    requires ApplyControl(s, c).Ok? && (s.PutHighWater? ==> c.highWater <= s.id)
    ensures ControlKept(c, ApplyControl(s, c).value)
  {
  }

  lemma ResultStmtKeeps(s: ResultStmt, r: Results)
    requires ApplyResults(s, r).Ok?
    requires s.PutServing? && s.action in r.serving ==> r.serving[s.action].revision <= s.serving.revision
    ensures ResultsKept(r, ApplyResults(s, r).value)
  {
  }

  lemma StmtGrows(s: Stmt, t: Tables)
    requires Apply(s, t).Ok? && Forward(s, t)
    ensures Grows(t, Apply(s, t).value)
  {
    match s
    case OnControl(c) => ControlStmtKeeps(c, t.control);
    case OnResults(r) => ResultStmtKeeps(r, t.results);
    case _ =>
  }

  lemma ApplyFirst(s: Stmt, rest: seq<Stmt>, t: Tables)
    requires Apply(s, t).Ok?
    ensures ApplyAll([s] + rest, t) == ApplyAll(rest, Apply(s, t).value)
  {
    assert ([s] + rest)[1..] == rest;
  }

  lemma {:induction false} StmtsGrow(ss: seq<Stmt>, t: Tables)
    requires ApplyAll(ss, t).Ok?
    requires forall s :: s in ss ==> !Overwrites(s)
    ensures Grows(t, ApplyAll(ss, t).value)
  {
    if ss != [] {
      assert ss[0] in ss;
      StmtGrows(ss[0], t);
      var u := Apply(ss[0], t).value;
      StmtsGrow(ss[1..], u);
      GrowsTransitive(t, u, ApplyAll(ss, t).value);
    }
  }

  lemma {:induction false} AncestryStmtsShape(consumer: Key, rows: seq<AncestorRow>)
    ensures |AncestryStmts(consumer, rows)| == |rows|
    ensures forall s :: s in AncestryStmts(consumer, rows) ==> s.OnResults? && s.r.IgnoreAncestry?
  {
    if rows != [] { AncestryStmtsShape(consumer, rows[1..]); }
  }

  lemma {:induction false} BlockingStmtsShape(action: Key, rows: seq<(Scope, Key)>)
    ensures forall s :: s in BlockingStmts(action, rows) ==> s.OnResults? && s.r.IgnoreBlocking?
  {
    if rows != [] { BlockingStmtsShape(action, rows[1..]); }
  }

  /** An accepted generation id is above the mark and becomes the mark. */
  lemma GenerationExact(authority: Key, id: nat, action: Key, t: Tables)
    ensures var (u, r) := Perform(CreateGeneration(authority, id, action), t);
      && (r.Ok? <==> ActiveKeys(t) == {authority} && t.control.highWater < id && id !in t.control.generations)
      && (r.Ok? ==> u == t.(control := t.control.(
            generations := t.control.generations[id := Generation(action, authority, false)], highWater := id)))
      && (r.Err? ==> u == t)
  {
    var s0 := OnControl(InsertGeneration(id, Generation(action, authority, false)));
    var s1 := OnControl(PutHighWater(id));
    if ActiveKeys(t) == {authority} && t.control.highWater < id {
      assert Body(CreateGeneration(authority, id, action), t).stmts == [s0] + [s1];
      if id !in t.control.generations {
        ApplyFirst(s0, [s1], t);
        assert [s1][1..] == [];
      }
    }
  }

  lemma PlanGrows(op: Op, t: Tables)
    requires forall s :: s in Body(op, t).stmts ==> !Overwrites(s)
    ensures Grows(t, Perform(op, t).0)
  {
    if ApplyAll(Body(op, t).stmts, t).Ok? {
      StmtsGrow(Body(op, t).stmts, t);
    }
  }

  lemma CommitGrows(authority: Key, row: PublicationRow, t: Tables)
    ensures Grows(t, Perform(CommitPublication(authority, row), t).0)
  {
    AncestryStmtsShape(row.action, row.ancestors);
    var head, tail := CommitHead(t, row), AncestryStmts(row.action, row.ancestors);
    assert forall s :: s in head ==> !Overwrites(s);
    assert forall s :: s in head + tail ==> s in head || s in tail;
    PlanGrows(CommitPublication(authority, row), t);
  }

  lemma ServingRecordGrows(op: Op, t: Tables)
    requires op.PutServingRecord?
    ensures Grows(t, Perform(op, t).0)
  {
    var plan := Body(op, t);
    if plan.result.Ok? {
      var s0 := OnResults(PutServing(op.action, Serving(op.disposition, op.revision, op.authority, op.validity)));
      var rest := [OnResults(DeleteBlocking(op.action))] + BlockingStmts(op.action, op.blockedBy);
      assert plan.stmts == [s0] + rest;
      BlockingStmtsShape(op.action, op.blockedBy);
      ApplyFirst(s0, rest, t);
      StmtGrows(s0, t);
      var u := Apply(s0, t).value;
      if ApplyAll(rest, u).Ok? {
        StmtsGrow(rest, u);
        GrowsTransitive(t, u, ApplyAll(rest, u).value);
      }
    }
  }

  lemma RenewPinGrows(id: nat, renewal: u64, t: Tables)
    ensures Grows(t, Perform(RenewPin(id, renewal), t).0)
  {
    var ss := Body(RenewPin(id, renewal), t).stmts;
    if ss != [] {
      ApplyFirst(ss[0], [], t);
      assert ss == [ss[0]] + [];
    }
  }

  lemma SimpleGrows(op: Op, t: Tables)
    requires !op.CreateGeneration? && !op.CommitPublication? && !op.PutServingRecord? && !op.RenewPin?
    ensures Grows(t, Perform(op, t).0)
  {
    assert forall s :: s in Body(op, t).stmts ==> !Overwrites(s);
    PlanGrows(op, t);
  }

  /** No call ever rewrites history. */
  lemma CallGrows(op: Op, t: Tables)
    ensures Grows(t, Perform(op, t).0)
  {
    match op
    case CreateGeneration(authority, id, action) => GenerationExact(authority, id, action, t);
    case CommitPublication(authority, row) => CommitGrows(authority, row, t);
    case PutServingRecord(_, _, _, _, _, _) => ServingRecordGrows(op, t);
    case RenewPin(id, renewal) => RenewPinGrows(id, renewal, t);
    case _ => SimpleGrows(op, t);
  }

  // ---------------------------------------------------------------- invariant

  ghost predicate OneActive(t: Tables) {
    forall a, b :: a in ActiveKeys(t) && b in ActiveKeys(t) ==> a == b
  }

  ghost predicate IdsBelowHighWater(t: Tables) {
    forall id :: id in t.control.generations ==> id <= t.control.highWater
  }

  ghost predicate HasEvidence(t: Tables, action: Key) {
    exists e :: (action, e) in t.results.evidence
  }

  /** A publication is never exposed without its serving row, an evidence row and a
      publication-class pin rooted at its manifest. */
  ghost predicate Complete(t: Tables, action: Key)
    requires action in t.results.publications
  {
    var p := t.results.publications[action];
    && action in t.results.serving
    && HasEvidence(t, action)
    && p.pin in t.pins
    && t.pins[p.pin].root == p.manifest && t.pins[p.pin].pinClass == PUBLICATION_PIN_CLASS
  }

  ghost predicate AllComplete(t: Tables) {
    forall a :: a in t.results.publications ==> Complete(t, a)
  }

  ghost predicate Sound(t: Tables) {
    OneActive(t) && IdsBelowHighWater(t) && AllComplete(t)
  }

  /** Statements that cannot by themselves break the invariant. */
  predicate Plain(s: Stmt) {
    && (s.OnControl? ==> s.c.SetAuthorityReleased? || s.c.SetTombstoned?)
    && (s.OnResults? ==> !s.r.InsertPublication?)
  }

  /** Authorities, generation ids, the mark and the publications are as before or fewer. */
  ghost predicate Framed(t: Tables, u: Tables) {
    && ActiveKeys(u) <= ActiveKeys(t) && u.control.generations.Keys == t.control.generations.Keys
    && u.control.highWater == t.control.highWater && u.results.publications == t.results.publications
  }

  lemma PlainControl(s: ControlStmt, t: Tables)
    requires ApplyControl(s, t.control).Ok? && (s.SetAuthorityReleased? || s.SetTombstoned?)
    ensures Framed(t, t.(control := ApplyControl(s, t.control).value))
  {
    var c := ApplyControl(s, t.control).value;
    assert c.generations.Keys == t.control.generations.Keys;
  }

  lemma PlainResult(s: ResultStmt, r: Results)
    requires ApplyResults(s, r).Ok? && !s.InsertPublication?
    ensures ApplyResults(s, r).value.publications == r.publications
  {
  }

  lemma PlainStmt(s: Stmt, t: Tables)
    requires Plain(s) && Apply(s, t).Ok?
    ensures Framed(t, Apply(s, t).value)
  {
    match s
    case OnControl(c) => PlainControl(c, t);
    case OnResults(r) => PlainResult(r, t.results);
    case _ =>
  }

  lemma {:induction false} PlainFrame(ss: seq<Stmt>, t: Tables)
    requires forall s :: s in ss ==> Plain(s)
    requires ApplyAll(ss, t).Ok?
    ensures Framed(t, ApplyAll(ss, t).value)
  {
    if ss != [] {
      assert ss[0] in ss;
      PlainStmt(ss[0], t);
      PlainFrame(ss[1..], Apply(ss[0], t).value);
    }
  }

  lemma CompleteGrows(t: Tables, u: Tables, action: Key)
    requires Grows(t, u) && action in t.results.publications && Complete(t, action)
    ensures Complete(u, action)
  {
    var e :| (action, e) in t.results.evidence;
    assert (action, e) in u.results.evidence;
  }

  lemma CompleteAfter(t: Tables, u: Tables)
    requires Grows(t, u) && AllComplete(t) && u.results.publications == t.results.publications
    ensures AllComplete(u)
  {
    forall a | a in u.results.publications ensures Complete(u, a) {
      CompleteGrows(t, u, a);
    }
  }

  // ---------------------------------------------------------------- the publication transaction

  function LineageKey(consumer: Key, row: AncestorRow): AncestryKey {
    AncestryKey(consumer, row.producer, row.role, row.path)
  }

  ghost function AncestryKeys(consumer: Key, rows: seq<AncestorRow>): set<AncestryKey> {
    set i | 0 <= i < |rows| :: LineageKey(consumer, rows[i])
  }

  /** Row `i` is the first to name the key, and gave it this value. */
  ghost predicate FirstNamed(k: AncestryKey, v: Ancestry, consumer: Key, rows: seq<AncestorRow>, i: nat) {
    && i < |rows| && k == LineageKey(consumer, rows[i]) && v == Ancestry(rows[i].objectKey, rows[i].adopted)
    && forall j :: 0 <= j < i ==> k != LineageKey(consumer, rows[j])
  }

  /** The rows a lineage write leaves: earlier rows win, every named key is present. */
  ghost predicate LineageWritten(
    before: map<AncestryKey, Ancestry>, after: map<AncestryKey, Ancestry>, consumer: Key, rows: seq<AncestorRow>)
  {
    && after.Keys == before.Keys + AncestryKeys(consumer, rows)
    && (forall k :: k in before ==> after[k] == before[k])
    && (forall k :: k in after && k !in before ==> exists i :: FirstNamed(k, after[k], consumer, rows, i))
  }

  lemma AncestryKeysCons(consumer: Key, rows: seq<AncestorRow>)
    requires rows != []
    ensures AncestryKeys(consumer, rows) == {LineageKey(consumer, rows[0])} + AncestryKeys(consumer, rows[1..])
  {
    var k0 := LineageKey(consumer, rows[0]);
    forall k | k in AncestryKeys(consumer, rows) ensures k in {k0} + AncestryKeys(consumer, rows[1..]) {
      var i :| 0 <= i < |rows| && k == LineageKey(consumer, rows[i]);
      if i > 0 { assert rows[1..][i-1] == rows[i]; }
    }
    forall k | k in AncestryKeys(consumer, rows[1..]) ensures k in AncestryKeys(consumer, rows) {
      var i :| 0 <= i < |rows[1..]| && k == LineageKey(consumer, rows[1..][i]);
      assert rows[i+1] == rows[1..][i];
    }
  }

  lemma FirstNamedLater(k: AncestryKey, v: Ancestry, consumer: Key, rows: seq<AncestorRow>, i: nat)
    requires rows != [] && k != LineageKey(consumer, rows[0]) && FirstNamed(k, v, consumer, rows[1..], i)
    ensures FirstNamed(k, v, consumer, rows, i + 1)
  {
    forall j | 0 <= j < i + 1 ensures k != LineageKey(consumer, rows[j]) {
      if j > 0 { assert rows[j] == rows[1..][j-1]; }
    }
  }

  lemma LineageStep(before: map<AncestryKey, Ancestry>, mid: map<AncestryKey, Ancestry>,
                    after: map<AncestryKey, Ancestry>, consumer: Key, rows: seq<AncestorRow>)
    requires rows != []
    requires var k := LineageKey(consumer, rows[0]);
      mid == if k in before then before else before[k := Ancestry(rows[0].objectKey, rows[0].adopted)]
    requires LineageWritten(mid, after, consumer, rows[1..])
    ensures LineageWritten(before, after, consumer, rows)
  {
    AncestryKeysCons(consumer, rows);
    forall k | k in after && k !in before ensures exists i :: FirstNamed(k, after[k], consumer, rows, i) {
      if k == LineageKey(consumer, rows[0]) {
        assert FirstNamed(k, mid[k], consumer, rows, 0);
      } else {
        var i :| FirstNamed(k, after[k], consumer, rows[1..], i);
        FirstNamedLater(k, after[k], consumer, rows, i);
      }
    }
  }

  function WithAncestry(t: Tables, rows: map<AncestryKey, Ancestry>): Tables {
    t.(results := t.results.(ancestry := rows))
  }

  lemma {:induction false} AncestryEffect(consumer: Key, rows: seq<AncestorRow>, t: Tables)
    ensures var r := ApplyAll(AncestryStmts(consumer, rows), t);
      r.Ok? && r.value == WithAncestry(t, r.value.results.ancestry)
      && LineageWritten(t.results.ancestry, r.value.results.ancestry, consumer, rows)
  {
    var ss := AncestryStmts(consumer, rows);
    if rows == [] {
      assert AncestryKeys(consumer, rows) == {};
    } else {
      var u := Apply(ss[0], t).value;
      assert ss[1..] == AncestryStmts(consumer, rows[1..]);
      AncestryEffect(consumer, rows[1..], u);
      LineageStep(t.results.ancestry, u.results.ancestry, ApplyAll(ss, t).value.results.ancestry, consumer, rows);
    }
  }

  /** The publication, serving, evidence and pin rows of a first commit. */
  function CommitResults(r: Results, row: PublicationRow): Results {
    r.(publications := r.publications[row.action := PublicationOf(row)],
       serving := r.serving[row.action :=
         if row.action in r.serving then r.serving[row.action].(disposition := "servable")
         else LegacyServing("servable")],
       evidence := if (row.action, row.evidence) in r.evidence then r.evidence
                   else r.evidence[(row.action, row.evidence) := Evidence(row.generation, row.attempt, row.manifest)])
  }

  function CommitRows(t: Tables, row: PublicationRow): Tables {
    t.(results := CommitResults(t.results, row),
       pins := t.pins[row.pinId := Pin(row.manifest, row.pinOwner, PUBLICATION_PIN_CLASS, None, false, 0)])
  }

  /** The statements of a first commit on the result tables. */
  function CommitOnResults(t: Tables, row: PublicationRow): seq<Stmt> {
    [OnResults(InsertPublication(row.action, PublicationOf(row))), OnResults(SetDisposition(row.action, "servable"))]
    + (if row.action in t.results.serving then []
       else [OnResults(InsertServing(row.action, LegacyServing("servable")))])
    + [OnResults(IgnoreEvidence(row.action, row.evidence, Evidence(row.generation, row.attempt, row.manifest)))]
  }

  lemma CommitOnResultsEffect(t: Tables, row: PublicationRow)
    requires row.action !in t.results.publications
    ensures ApplyAll(CommitOnResults(t, row), t) == Ok(t.(results := CommitResults(t.results, row)))
  {
    var s0 := OnResults(InsertPublication(row.action, PublicationOf(row)));
    var s1 := OnResults(SetDisposition(row.action, "servable"));
    var s2 := OnResults(InsertServing(row.action, LegacyServing("servable")));
    var s3 := OnResults(IgnoreEvidence(row.action, row.evidence, Evidence(row.generation, row.attempt, row.manifest)));
    var t1 := Apply(s0, t).value;
    var t2 := Apply(s1, t1).value;
    if row.action in t.results.serving {
      assert CommitOnResults(t, row) == [s0] + ([s1] + ([s3] + []));
      ApplyFirst(s0, [s1] + ([s3] + []), t);
      ApplyFirst(s1, [s3] + [], t1);
      ApplyFirst(s3, [], t2);
    } else {
      var t3 := Apply(s2, t2).value;
      assert CommitOnResults(t, row) == [s0] + ([s1] + ([s2] + ([s3] + [])));
      ApplyFirst(s0, [s1] + ([s2] + ([s3] + [])), t);
      ApplyFirst(s1, [s2] + ([s3] + []), t1);
      ApplyFirst(s2, [s3] + [], t2);
      ApplyFirst(s3, [], t3);
    }
  }

  lemma CommitHeadEffect(t: Tables, row: PublicationRow)
    requires row.action !in t.results.publications
    ensures row.pinId !in t.pins ==> ApplyAll(CommitHead(t, row), t) == Ok(CommitRows(t, row))
    ensures row.pinId in t.pins ==> ApplyAll(CommitHead(t, row), t) == Err(Constraint)
  {
    var s := OnPins(InsertPin(row.pinId, Pin(row.manifest, row.pinOwner, PUBLICATION_PIN_CLASS, None, false, 0)));
    assert CommitHead(t, row) == CommitOnResults(t, row) + [s];
    CommitOnResultsEffect(t, row);
    ApplyAllSplit(CommitOnResults(t, row), [s], t);
    assert [s][1..] == [];
  }

  /** Exactly which tables a commit writes. It is accepted when the authority is the active one, the
      key is unpublished and the pin id is fresh. A published key is answered as a duplicate, with
      nothing written, if the descriptor is the stored one, and otherwise quarantined, with nothing
      else written. */
  lemma CommitExact(authority: Key, row: PublicationRow, t: Tables)
    ensures var (u, r) := Perform(CommitPublication(authority, row), t);
      && (r == Ok(Outcome(Committed)) <==>
           ActiveKeys(t) == {authority} && row.action !in t.results.publications && row.pinId !in t.pins)
      && (r == Ok(Outcome(Committed)) ==>
           u == WithAncestry(CommitRows(t, row), u.results.ancestry)
           && LineageWritten(t.results.ancestry, u.results.ancestry, row.action, row.ancestors))
      && (ActiveKeys(t) == {authority} && row.action in t.results.publications ==>
           if t.results.publications[row.action].descriptor == row.descriptor
           then r == Ok(Outcome(IdempotentDuplicate)) && u == t
           else r == Ok(Outcome(ConflictQuarantined)) && u == t.(results := t.results.(quarantines :=
             t.results.quarantines[(ActionEntry, row.action) := "publication descriptor conflict"])))
      && (r.Err? ==> u == t)
  {
    if ActiveKeys(t) == {authority} && row.action in t.results.publications {
      SingleStmt(OnResults(PutQuarantine(ActionEntry, row.action, CONFLICT_REASON)), t);
    }
    if ActiveKeys(t) == {authority} && row.action !in t.results.publications {
      CommitHeadEffect(t, row);
      var head, tail := CommitHead(t, row), AncestryStmts(row.action, row.ancestors);
      ApplyAllSplit(head, tail, t);
      if row.pinId !in t.pins {
        AncestryEffect(row.action, row.ancestors, CommitRows(t, row));
      }
    }
  }

  // ---------------------------------------------------------------- preservation

  lemma CommitSound(authority: Key, row: PublicationRow, t: Tables)
    requires Sound(t)
    ensures Sound(Perform(CommitPublication(authority, row), t).0)
  {
    var (u, r) := Perform(CommitPublication(authority, row), t);
    CommitExact(authority, row, t);
    CallGrows(CommitPublication(authority, row), t);
    if r == Ok(Outcome(Committed)) {
      forall a | a in u.results.publications ensures Complete(u, a) {
        if a == row.action {
          assert (a, row.evidence) in u.results.evidence;
        } else {
          CompleteGrows(t, u, a);
        }
      }
    } else if r.Ok? {
      PlainFrame(Body(CommitPublication(authority, row), t).stmts, t);
      CompleteAfter(t, u);
    }
  }

  lemma PlainSound(op: Op, t: Tables)
    requires Sound(t)
    requires forall s :: s in Body(op, t).stmts ==> Plain(s)
    ensures Sound(Perform(op, t).0)
  {
    var u := Perform(op, t).0;
    CallGrows(op, t);
    if u != t {
      PlainFrame(Body(op, t).stmts, t);
    }
    CompleteAfter(t, u);
  }

  lemma AcquireSound(op: Op, t: Tables)
    requires Sound(t) && op.AcquireAuthority?
    ensures Sound(Perform(op, t).0)
  {
    var u := Perform(op, t).0;
    CallGrows(op, t);
    if u != t {
      var s0 := Body(op, t).stmts[0];
      assert Body(op, t).stmts == [s0] + [];
      ApplyFirst(s0, [], t);
      assert ActiveKeys(u) == {op.key};
    }
    CompleteAfter(t, u);
  }

  lemma ServingRecordSound(op: Op, t: Tables)
    requires Sound(t) && op.PutServingRecord?
    ensures Sound(Perform(op, t).0)
  {
    BlockingStmtsShape(op.action, op.blockedBy);
    PlainSound(op, t);
  }

  lemma GenerationSound(authority: Key, id: nat, action: Key, t: Tables)
    requires Sound(t)
    ensures Sound(Perform(CreateGeneration(authority, id, action), t).0)
  {
    GenerationExact(authority, id, action, t);
    CallGrows(CreateGeneration(authority, id, action), t);
    CompleteAfter(t, Perform(CreateGeneration(authority, id, action), t).0);
  }

  /** Every call keeps the invariant. */
  lemma CallSound(op: Op, t: Tables)
    requires Sound(t)
    ensures Sound(Perform(op, t).0)
  {
    match op
    case CommitPublication(authority, row) => CommitSound(authority, row, t);
    case AcquireAuthority(_, _, _, _, _) => AcquireSound(op, t);
    case CreateGeneration(authority, id, action) => GenerationSound(authority, id, action, t);
    case PutServingRecord(_, _, _, _, _, _) => ServingRecordSound(op, t);
    case _ => PlainSound(op, t);
  }

  // ---------------------------------------------------------------- runs

  /** A call under a mutation budget, and the cold reopen if that kills it. */
  datatype Attempt = Attempt(op: Op, budget: Option<nat>)

  ghost predicate Accepted(c: Attempt, t: Tables) {
    Perform(c.op, t).1.Ok? && Enough(c.budget, Boundaries(c.op, t))
  }

  ghost function Step(c: Attempt, t: Tables): Tables {
    if Accepted(c, t) then Perform(c.op, t).0 else t
  }

  ghost function Run(run: seq<Attempt>, t: Tables): Tables {
    if run == [] then t else Step(run[|run|-1], Run(run[..|run|-1], t))
  }

  /** From a sound store, every run leaves at most one unreleased authority, every generation
      id at or below the high-water mark, and every publication complete. */
  lemma {:induction false} RunSound(run: seq<Attempt>, t: Tables)
    requires Sound(t)
    ensures Sound(Run(run, t))
  {
    if run != [] {
      var before := Run(run[..|run|-1], t);
      RunSound(run[..|run|-1], t);
      CallSound(run[|run|-1].op, before);
    }
  }

  /** Every reachable store is sound: an empty one is, and calls cut short anywhere keep it so. */
  lemma ReachableSound(run: seq<Attempt>)
    ensures Sound(Run(run, EMPTY))
  {
    RunSound(run, EMPTY);
  }

  /** Along every run history only grows: between any two moments a published row is the same
      row, and serving revisions have not decreased. */
  lemma {:induction false} RunGrows(run: seq<Attempt>, i: nat, t: Tables)
    requires i <= |run|
    ensures Grows(Run(run[..i], t), Run(run, t))
    decreases |run| - i
  {
    if i == |run| {
      assert run[..i] == run;
    } else {
      assert run[..i+1][..i] == run[..i];
      var before := Run(run[..i], t);
      CallGrows(run[i].op, before);
      RunGrows(run, i + 1, t);
      GrowsTransitive(before, Run(run[..i+1], t), Run(run, t));
    }
  }

  /** Accepted generation ids strictly increase along every run, so an id is never accepted
      twice, tombstoned or not. */
  lemma GenerationIdsNeverReused(run: seq<Attempt>, i: nat, j: nat, t: Tables)
    requires i < j < |run|
    requires run[i].op.CreateGeneration? && Accepted(run[i], Run(run[..i], t))
    requires run[j].op.CreateGeneration? && Accepted(run[j], Run(run[..j], t))
    ensures run[i].op.id < run[j].op.id
  {
    var before := Run(run[..i], t);
    GenerationExact(run[i].op.authority, run[i].op.id, run[i].op.action, before);
    assert run[..i+1][..i] == run[..i];
    assert run[..j][..i+1] == run[..i+1];
    RunGrows(run[..j], i + 1, t);
    GenerationExact(run[j].op.authority, run[j].op.id, run[j].op.action, Run(run[..j], t));
  }
}
