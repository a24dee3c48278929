/** Kill, reopen and retry at every mutation boundary of the publication scenario: setup, uploads
    and the atomic commit. */
module CrashMatrix {
  import opened Prelude
  import opened MetadataTables
  import opened MetadataStore
  import opened StoreInvariants

  const KILL_POINT_CAP: nat := 4096

  // ---------------------------------------------------------------- one call

  /** Once a row has been answered, offering it again, or offering the same key and descriptor
      under a fresh pin, changes nothing more. */
  lemma CommitRerun(authority: Key, row: PublicationRow, t: Tables)
    ensures var (u, r) := Perform(CommitPublication(authority, row), t);
      && Perform(CommitPublication(authority, row), u).0 == u
      && (r == Ok(Outcome(ConflictQuarantined)) ==> Perform(CommitPublication(authority, row), u) == (u, r))
      && (r == Ok(Outcome(Committed)) || r == Ok(Outcome(IdempotentDuplicate)) ==>
            forall again: PublicationRow :: again.action == row.action && again.descriptor == row.descriptor ==>
              Perform(CommitPublication(authority, again), u) == (u, Ok(Outcome(IdempotentDuplicate))))
  {
    var op := CommitPublication(authority, row);
    var (u, r) := Perform(op, t);
    CommitExact(authority, row, t);
    if r == Ok(Outcome(ConflictQuarantined)) {
      var s0 := OnResults(PutQuarantine(ActionEntry, row.action, CONFLICT_REASON));
      assert [s0] == [s0] + [];
      ApplyFirst(s0, [], t);
      ApplyFirst(s0, [], u);
      assert u.results.quarantines[(ActionEntry, row.action) := CONFLICT_REASON] == u.results.quarantines;
    }
  }

  /** A commit killed at any budget leaves the old tables or the complete new ones, and offering
      the row again reaches the complete new ones. */
  lemma KilledCommit(authority: Key, row: PublicationRow, t: Tables, k: nat)
    ensures var op := CommitPublication(authority, row); var u := Step(Attempt(op, Some(k)), t);
      (u == t || u == Perform(op, t).0) && Perform(op, u).0 == Perform(op, t).0
  {
    CommitRerun(authority, row, t);
  }

  // ---------------------------------------------------------------- the scenario

  datatype Upload = Upload(at: LocationKey, verifiedSeq: Option<u64>, encoding: string, durable: bool)

  datatype Scenario = Scenario(
    key: Key, clusterId: string, incarnation: nat, term: u64, acquiredSeq: u64,
    uploads: seq<Upload>, row: PublicationRow)

  function UploadCalls(uploads: seq<Upload>): seq<Op> {
    seq(|uploads|, i requires 0 <= i < |uploads| =>
      AddLocation(uploads[i].at, uploads[i].verifiedSeq, uploads[i].encoding, uploads[i].durable))
  }

  function SetupCalls(sc: Scenario): seq<Op> {
    [AcquireAuthority(sc.key, sc.clusterId, sc.incarnation, sc.term, sc.acquiredSeq),
     CreateGeneration(sc.key, sc.row.generation, sc.row.action)]
  }

  /** Each attempt commits under a pin of its own. */
  function Calls(sc: Scenario, pin: nat): seq<Op> {
    SetupCalls(sc) + UploadCalls(sc.uploads) + [CommitPublication(sc.key, sc.row.(pinId := pin))]
  }

  /** A generation that already exists is not created again. */
  predicate Present(op: Op, t: Tables) {
    op.CreateGeneration? && op.id in t.control.generations
  }

  function Ensured(op: Op, t: Tables): (Tables, Result<Value, Error>) {
    if Present(op, t) then (t, Ok(Unit)) else Perform(op, t)
  }

  function Through(script: seq<Op>, t: Tables): Tables {
    if script == [] then t else Through(script[1..], Ensured(script[0], t).0)
  }

  predicate Completes(script: seq<Op>, t: Tables) {
    script != [] ==> Ensured(script[0], t).1.Ok? && Completes(script[1..], Ensured(script[0], t).0)
  }

  function Cost(op: Op, t: Tables): nat {
    if Present(op, t) then 0 else Boundaries(op, t)
  }

  /** Mutations of an uninterrupted run. */
  function Mutations(script: seq<Op>, t: Tables): nat {
    if script == [] then 0
    else Cost(script[0], t) + Mutations(script[1..], Ensured(script[0], t).0)
  }

  lemma {:induction false} ThroughSplit(a: seq<Op>, b: seq<Op>, t: Tables)
    ensures Through(a + b, t) == Through(b, Through(a, t))
    ensures Completes(a + b, t) <==> Completes(a, t) && Completes(b, Through(a, t))
    ensures Mutations(a + b, t) == Mutations(a, t) + Mutations(b, Through(a, t))
    decreases |a|
  {
    if a == [] {
      assert a + b == b;
    } else {
      assert (a + b)[1..] == a[1..] + b;
      ThroughSplit(a[1..], b, Ensured(a[0], t).0);
    }
  }

  lemma ThroughSnoc(script: seq<Op>, op: Op, t: Tables)
    ensures Through(script + [op], t) == Ensured(op, Through(script, t)).0
    ensures Completes(script + [op], t) <==> Completes(script, t) && Ensured(op, Through(script, t)).1.Ok?
    ensures Mutations(script + [op], t) ==
      Mutations(script, t) + Cost(op, Through(script, t))
  {
    ThroughSplit(script, [op], t);
    assert [op][1..] == [];
  }

  // ---------------------------------------------------------------- uploads

  function UploadRow(u: Upload): Location {
    Location(u.verifiedSeq, u.encoding, false, u.durable)
  }

  /** The location rows a list of uploads leaves: the last upload of a path wins. */
  function Rows(uploads: seq<Upload>): map<LocationKey, Location> {
    if uploads == [] then map[] else map[uploads[0].at := UploadRow(uploads[0])] + Rows(uploads[1..])
  }

  function Uploaded(t: Tables, rows: map<LocationKey, Location>): Tables {
    t.(storage := t.storage.(locations := t.storage.locations + rows))
  }

  lemma UploadOne(u: Upload, t: Tables)
    ensures var op := AddLocation(u.at, u.verifiedSeq, u.encoding, u.durable);
      && (Perform(op, t).1.Ok? <==> FitsOption(u.verifiedSeq))
      && (FitsOption(u.verifiedSeq) ==> Perform(op, t).0 == Uploaded(t, map[u.at := UploadRow(u)]))
  {
    var s0 := OnStorage(PutLocation(u.at, UploadRow(u)));
    assert [s0] == [s0] + [];
    ApplyFirst(s0, [], t);
    assert t.storage.locations[u.at := UploadRow(u)] == t.storage.locations + map[u.at := UploadRow(u)];
  }

  lemma UploadsFirst(uploads: seq<Upload>, t: Tables)
    requires uploads != []
    ensures var u := uploads[0]; var calls := UploadCalls(uploads);
      && calls[0] == AddLocation(u.at, u.verifiedSeq, u.encoding, u.durable) && calls[1..] == UploadCalls(uploads[1..])
      && (Completes(calls, t) <==>
            && FitsOption(u.verifiedSeq)
            && Completes(UploadCalls(uploads[1..]), Uploaded(t, map[u.at := UploadRow(u)])))
      && (FitsOption(u.verifiedSeq) ==>
            Through(calls, t) == Through(UploadCalls(uploads[1..]), Uploaded(t, map[u.at := UploadRow(u)])))
  {
    UploadOne(uploads[0], t);
    assert UploadCalls(uploads)[1..] == UploadCalls(uploads[1..]);
  }

  /** Every verification sequence fits its column. */
  predicate AllFit(uploads: seq<Upload>) {
    uploads != [] ==> FitsOption(uploads[0].verifiedSeq) && AllFit(uploads[1..])
  }

  lemma MergeAssoc<K, V>(m: map<K, V>, a: map<K, V>, b: map<K, V>)
    ensures m + a + b == m + (a + b)
  {
  }

  lemma {:induction false} UploadsThrough(uploads: seq<Upload>, t: Tables)
    ensures Completes(UploadCalls(uploads), t) <==> AllFit(uploads)
    ensures Completes(UploadCalls(uploads), t) ==> Through(UploadCalls(uploads), t) == Uploaded(t, Rows(uploads))
    decreases |uploads|
  {
    if uploads == [] {
      assert t.storage.locations + map[] == t.storage.locations;
    } else {
      var one := map[uploads[0].at := UploadRow(uploads[0])];
      UploadsFirst(uploads, t);
      UploadsThrough(uploads[1..], Uploaded(t, one));
      MergeAssoc(t.storage.locations, one, Rows(uploads[1..]));
    }
  }

  lemma {:induction false} RowsOfPrefix(uploads: seq<Upload>, i: nat)
    requires i <= |uploads|
    ensures Rows(uploads[..i]).Keys <= Rows(uploads).Keys
  {
    if i > 0 {
      assert uploads[..i][1..] == uploads[1..][..i-1];
      RowsOfPrefix(uploads[1..], i - 1);
    }
  }

  /** Uploading everything again absorbs what a killed attempt already uploaded. */
  lemma UploadsAgain(uploads: seq<Upload>, i: nat, t: Tables)
    requires i <= |uploads|
    ensures Uploaded(Uploaded(t, Rows(uploads[..i])), Rows(uploads)) == Uploaded(t, Rows(uploads))
  {
    RowsOfPrefix(uploads, i);
    MergeAbsorbs(t.storage.locations, Rows(uploads[..i]), Rows(uploads));
  }

  lemma MergeAbsorbs<K, V>(m: map<K, V>, a: map<K, V>, b: map<K, V>)
    requires a.Keys <= b.Keys
    ensures m + a + b == m + b
  {
  }

  // ---------------------------------------------------------------- setup

  /** What setup establishes. */
  ghost predicate Ready(sc: Scenario, t: Tables) {
    ActiveKeys(t) == {sc.key} && sc.row.generation in t.control.generations
  }

  lemma Acquired(sc: Scenario, t: Tables)
    requires Ensured(SetupCalls(sc)[0], t).1.Ok?
    ensures var u := Ensured(SetupCalls(sc)[0], t).0;
      ActiveKeys(u) == {sc.key} && u == t.(control := u.control) && u.control.generations == t.control.generations
  {
    var s0 := OnControl(PutAuthority(sc.key, Authority(sc.clusterId, sc.incarnation, sc.term, sc.acquiredSeq, false)));
    assert [s0] == [s0] + [];
    ApplyFirst(s0, [], t);
  }

  /** Once acquired, acquiring again is accepted and changes nothing. */
  lemma AcquiredAgain(sc: Scenario, t: Tables)
    requires ActiveKeys(t) == {sc.key} && Representable(SetupCalls(sc)[0])
    ensures Ensured(SetupCalls(sc)[0], t) == (t, Ok(Unit))
  {
  }

  lemma Created(sc: Scenario, t: Tables)
    requires ActiveKeys(t) == {sc.key} && Ensured(SetupCalls(sc)[1], t).1.Ok?
    ensures var u := Ensured(SetupCalls(sc)[1], t).0; Ready(sc, u) && u == t.(control := u.control)
  {
    if !Present(SetupCalls(sc)[1], t) {
      GenerationExact(sc.key, sc.row.generation, sc.row.action, t);
    }
  }

  lemma TwoCalls(a: Op, b: Op, t: Tables)
    ensures Through([a, b], t) == Ensured(b, Ensured(a, t).0).0
    ensures Completes([a, b], t) <==> Ensured(a, t).1.Ok? && Ensured(b, Ensured(a, t).0).1.Ok?
  {
    assert [a, b] == [a] + [b] && [a][1..] == [];
    ThroughSnoc([a], b, t);
  }

  lemma SetupReady(sc: Scenario, t: Tables)
    requires Completes(SetupCalls(sc), t)
    ensures var u := Through(SetupCalls(sc), t); Ready(sc, u) && u == t.(control := u.control)
  {
    TwoCalls(SetupCalls(sc)[0], SetupCalls(sc)[1], t);
    Acquired(sc, t);
    Created(sc, Ensured(SetupCalls(sc)[0], t).0);
  }

  lemma SetupAgain(sc: Scenario, t: Tables)
    requires Ready(sc, t) && Representable(SetupCalls(sc)[0])
    ensures Completes(SetupCalls(sc), t) && Through(SetupCalls(sc), t) == t
  {
    TwoCalls(SetupCalls(sc)[0], SetupCalls(sc)[1], t);
    AcquiredAgain(sc, t);
  }

  /** Setup killed between its two calls is completed by running it whole. */
  lemma SetupResumed(sc: Scenario, t: Tables)
    requires Completes(SetupCalls(sc), t)
    ensures var u := Ensured(SetupCalls(sc)[0], t).0;
      Completes(SetupCalls(sc), u) && Through(SetupCalls(sc), u) == Through(SetupCalls(sc), t)
  {
    var u := Ensured(SetupCalls(sc)[0], t).0;
    TwoCalls(SetupCalls(sc)[0], SetupCalls(sc)[1], t);
    TwoCalls(SetupCalls(sc)[0], SetupCalls(sc)[1], u);
    Acquired(sc, t);
    AcquiredAgain(sc, u);
  }

  // ---------------------------------------------------------------- the whole scenario

  function CommitCall(sc: Scenario, pin: nat): Op {
    CommitPublication(sc.key, sc.row.(pinId := pin))
  }

  /** The scenario, phase by phase. */
  lemma ScenarioPhases(sc: Scenario, pin: nat, t: Tables)
    ensures var a := Through(SetupCalls(sc), t); var b := Through(UploadCalls(sc.uploads), a);
      && Through(Calls(sc, pin), t) == Perform(CommitCall(sc, pin), b).0
      && (Completes(Calls(sc, pin), t) <==>
           && Completes(SetupCalls(sc), t) && Completes(UploadCalls(sc.uploads), a)
           && Perform(CommitCall(sc, pin), b).1.Ok?)
  {
    var head := SetupCalls(sc) + UploadCalls(sc.uploads);
    ThroughSplit(head, [CommitCall(sc, pin)], t);
    ThroughSplit(SetupCalls(sc), UploadCalls(sc.uploads), t);
    assert [CommitCall(sc, pin)][1..] == [];
  }

  /** Any attempt that finds setup done and some of the uploads made lands where the interrupted
      one was going. */
  lemma ResumedFrom(sc: Scenario, pin: nat, again: nat, t: Tables, i: nat, u: Tables)
    requires Completes(Calls(sc, pin), t) && Completes(Calls(sc, again), t) && i <= |sc.uploads|
    requires u == Uploaded(Through(SetupCalls(sc), t), Rows(sc.uploads[..i]))
    ensures Completes(Calls(sc, again), u) && Through(Calls(sc, again), u) == Through(Calls(sc, again), t)
  {
    ScenarioPhases(sc, pin, t);
    ScenarioPhases(sc, again, t);
    ScenarioPhases(sc, again, u);
    SetupReady(sc, t);
    SetupAgain(sc, u);
    UploadsThrough(sc.uploads, u);
    UploadsThrough(sc.uploads, Through(SetupCalls(sc), t));
    UploadsAgain(sc.uploads, i, Through(SetupCalls(sc), t));
  }

  lemma CommitKeepsRest(authority: Key, row: PublicationRow, t: Tables)
    ensures var u := Perform(CommitPublication(authority, row), t).0; u.control == t.control && u.storage == t.storage
  {
    CommitExact(authority, row, t);
    if Perform(CommitPublication(authority, row), t).1 == Ok(Outcome(ConflictQuarantined)) {
      var s0 := OnResults(PutQuarantine(ActionEntry, row.action, CONFLICT_REASON));
      assert [s0] == [s0] + [];
      ApplyFirst(s0, [], t);
    }
  }

  /** After a whole attempt that committed or found its own publication, one more under a fresh
      pin changes nothing. */
  lemma FinishedAgain(sc: Scenario, pin: nat, again: nat, t: Tables)
    requires Completes(Calls(sc, pin), t)
    ensures var u := Through(Calls(sc, pin), t);
      Completes(Calls(sc, again), u) && Through(Calls(sc, again), u) == u
  {
    var a := Through(SetupCalls(sc), t);
    var b := Uploaded(a, Rows(sc.uploads));
    var u := Through(Calls(sc, pin), t);
    ScenarioPhases(sc, pin, t);
    UploadsThrough(sc.uploads, a);
    SetupReady(sc, t);
    CommitKeepsRest(sc.key, sc.row.(pinId := pin), b);
    ScenarioPhases(sc, again, u);
    SetupAgain(sc, u);
    UploadsThrough(sc.uploads, u);
    assert sc.uploads[..|sc.uploads|] == sc.uploads;
    UploadsAgain(sc.uploads, |sc.uploads|, a);
    assert Uploaded(u, Rows(sc.uploads)).storage == Uploaded(b, Rows(sc.uploads)).storage;
    assert Uploaded(u, Rows(sc.uploads)) == u;
    CommitTwice(sc, pin, again, b);
  }

  lemma CommitTwice(sc: Scenario, pin: nat, again: nat, t: Tables)
    requires Perform(CommitCall(sc, pin), t).1.Ok?
    ensures var u := Perform(CommitCall(sc, pin), t).0;
      Perform(CommitCall(sc, again), u).1.Ok? && Perform(CommitCall(sc, again), u).0 == u
  {
    var r := Perform(CommitCall(sc, pin), t).1;
    CommitRerun(sc.key, sc.row.(pinId := pin), t);
    var p, q := sc.row.(pinId := pin), sc.row.(pinId := again);
    assert q.action == p.action && q.descriptor == p.descriptor;
    if r == Ok(Outcome(ConflictQuarantined)) {
      var u := Perform(CommitCall(sc, pin), t).0;
      CommitKeepsRest(sc.key, p, t);
      var s0 := OnResults(PutQuarantine(ActionEntry, p.action, CONFLICT_REASON));
      assert [s0] == [s0] + [];
      ApplyFirst(s0, [], t);
      ApplyFirst(s0, [], u);
      assert u.results.quarantines[(ActionEntry, p.action) := CONFLICT_REASON] == u.results.quarantines;
    }
  }

  /** The tables a killed attempt leaves, by how many of its calls had finished. */
  lemma KilledAfter(sc: Scenario, pin: nat, t: Tables, j: nat)
    requires j <= |Calls(sc, pin)| && Completes(Calls(sc, pin), t)
    ensures var u := Through(Calls(sc, pin)[..j], t); var n := |sc.uploads|;
      if j == 0 then u == t
      else if j == 1 then u == Ensured(SetupCalls(sc)[0], t).0
      else if j <= 2 + n then u == Uploaded(Through(SetupCalls(sc), t), Rows(sc.uploads[..j-2]))
      else u == Through(Calls(sc, pin), t)
  {
    var calls, n := Calls(sc, pin), |sc.uploads|;
    if j == 1 {
      assert calls[..1] == [SetupCalls(sc)[0]] && [SetupCalls(sc)[0]][1..] == [];
    } else if 1 < j <= 2 + n {
      assert calls[..j] == SetupCalls(sc) + UploadCalls(sc.uploads[..j-2]);
      assert calls == calls[..j] + calls[j..];
      ThroughSplit(calls[..j], calls[j..], t);
      ThroughSplit(SetupCalls(sc), UploadCalls(sc.uploads[..j-2]), t);
      UploadsThrough(sc.uploads[..j-2], Through(SetupCalls(sc), t));
    } else if j > 2 + n {
      assert calls[..j] == calls;
    }
  }

  /** The retry converges. Wherever an attempt is killed, the tables it leaves let the whole
      scenario run again under a fresh pin, and that run ends in the tables of an uninterrupted
      attempt: the first one if it had finished, otherwise the retry's own. */
  lemma RetryConverges(sc: Scenario, pin: nat, again: nat, t: Tables, j: nat)
    requires Completes(Calls(sc, pin), t) && Completes(Calls(sc, again), t) && j <= |Calls(sc, pin)|
    ensures var u := Through(Calls(sc, pin)[..j], t);
      && Completes(Calls(sc, again), u)
      && Through(Calls(sc, again), u) == Through(Calls(sc, if j == |Calls(sc, pin)| then pin else again), t)
  {
    KilledAfter(sc, pin, t, j);
    if j == 1 {
      ScenarioPhases(sc, pin, t);
      ScenarioPhases(sc, again, t);
      SetupResumed(sc, t);
      ScenarioPhases(sc, again, Ensured(SetupCalls(sc)[0], t).0);
    } else if 1 < j <= 2 + |sc.uploads| {
      ResumedFrom(sc, pin, again, t, j - 2, Through(Calls(sc, pin)[..j], t));
    } else if j > 2 + |sc.uploads| {
      FinishedAgain(sc, pin, again, t);
    }
  }

  /** Nothing of the result is visible until the last call: before it the published tables and the
      pins are the old ones. */
  lemma NothingExposed(sc: Scenario, pin: nat, t: Tables, j: nat)
    requires Completes(Calls(sc, pin), t) && j < |Calls(sc, pin)|
    ensures var u := Through(Calls(sc, pin)[..j], t); u.results == t.results && u.pins == t.pins
  {
    KilledAfter(sc, pin, t, j);
    ScenarioPhases(sc, pin, t);
    if j == 1 {
      TwoCalls(SetupCalls(sc)[0], SetupCalls(sc)[1], t);
      Acquired(sc, t);
    } else if j > 1 {
      SetupReady(sc, t);
    }
  }

  /** Where every retry ends, when the key was unpublished: the row as offered, pinned and
      unreleased under the attempt's own pin, with every upload located. */
  lemma ConvergedPublishes(sc: Scenario, pin: nat, t: Tables)
    requires Completes(Calls(sc, pin), t) && sc.row.action !in t.results.publications
    ensures var u := Through(Calls(sc, pin), t); var row := sc.row.(pinId := pin);
      && row.action in u.results.publications && u.results.publications[row.action] == PublicationOf(row)
      && pin in u.pins && !u.pins[pin].released && u.pins[pin].root == row.manifest
      && Keeps(Rows(sc.uploads), u.storage.locations)
  {
    var a := Through(SetupCalls(sc), t);
    var b := Uploaded(a, Rows(sc.uploads));
    ScenarioPhases(sc, pin, t);
    SetupReady(sc, t);
    UploadsThrough(sc.uploads, a);
    FirstCommit(sc.key, sc.row.(pinId := pin), b);
    CommitKeepsRest(sc.key, sc.row.(pinId := pin), b);
  }

  lemma FirstCommit(authority: Key, row: PublicationRow, t: Tables)
    requires row.action !in t.results.publications && Perform(CommitPublication(authority, row), t).1.Ok?
    ensures var u := Perform(CommitPublication(authority, row), t).0;
      && row.action in u.results.publications && u.results.publications[row.action] == PublicationOf(row)
      && row.pinId in u.pins && !u.pins[row.pinId].released && u.pins[row.pinId].root == row.manifest
  {
    CommitExact(authority, row, t);
    CommitFirst(authority, row, t);
  }

  lemma CommitFirst(authority: Key, row: PublicationRow, t: Tables)
    requires row.action !in t.results.publications && Perform(CommitPublication(authority, row), t).1.Ok?
    ensures Perform(CommitPublication(authority, row), t).1 == Ok(Outcome(Committed))
  {
  }

  lemma EnsuredSound(op: Op, t: Tables)
    requires Sound(t)
    ensures Sound(Ensured(op, t).0)
  {
    CallSound(op, t);
  }

  lemma {:induction false} ThroughSound(script: seq<Op>, t: Tables)
    requires Sound(t)
    ensures Sound(Through(script, t))
  {
    if script != [] {
      EnsuredSound(script[0], t);
      ThroughSound(script[1..], Ensured(script[0], t).0);
    }
  }

  // ---------------------------------------------------------------- the driver

  /** The first `done` calls of the script have run, within the budget. */
  ghost predicate RanTo(script: seq<Op>, done: nat, base: Tables, u: Tables, budget: Option<nat>) {
    && done <= |script| && u == Through(script[..done], base) && Completes(script[..done], base)
    && Enough(budget, Mutations(script[..done], base))
  }

  /** Why a script stopped before the call `done`. */
  ghost predicate Stopped(script: seq<Op>, done: nat, base: Tables, budget: Option<nat>, e: Error) {
    && done < |script|
    && var u, m := Through(script[..done], base), Mutations(script[..done], base);
       || Ensured(script[done], u).1.Err?
       || (e == Crash && Present(script[done], u) && budget == Some(m))
       || (e == Crash && !Present(script[done], u) && !Enough(budget, m + Boundaries(script[done], u)))
  }

  lemma RanOne(script: seq<Op>, done: nat, base: Tables, u: Tables, budget: Option<nat>)
    requires done < |script| && RanTo(script, done, base, u, budget)
    requires Ensured(script[done], u).1.Ok? && Enough(budget, Mutations(script[..done], base) + Cost(script[done], u))
    ensures RanTo(script, done + 1, base, Ensured(script[done], u).0, budget)
    ensures Mutations(script[..done+1], base) == Mutations(script[..done], base) + Cost(script[done], u)
  {
    assert script[..done+1] == script[..done] + [script[done]];
    ThroughSnoc(script[..done], script[done], base);
  }

  lemma SpendTwice(budget: Option<nat>, m: nat, c: nat)
    requires Enough(budget, m)
    ensures Enough(Spend(budget, m), c) <==> Enough(budget, m + c)
    ensures Enough(budget, m + c) ==> Spend(Spend(budget, m), c) == Spend(budget, m + c)
  {
  }

  /** What a failed step of a script shows, given what the step's contract says. */
  lemma StoppedAt(script: seq<Op>, done: nat, base: Tables, u: Tables, budget: Option<nat>, e: Error)
    requires done < |script| && RanTo(script, done, base, u, budget)
    requires var left := Spend(budget, Mutations(script[..done], base)); Ensured(script[done], u).1.Ok? ==>
      && e == Crash && left.Some?
      && if Present(script[done], u) then left == Some(0) else !Enough(left, Boundaries(script[done], u))
    ensures Stopped(script, done, base, budget, e)
    ensures budget.None? ==> !Completes(script, base)
  {
    SpendTwice(budget, Mutations(script[..done], base), Boundaries(script[done], u));
    NeedsNext(script, done, base);
  }

  /** Runs a script against a store, skipping what is already present, until the first failure. */
  method RunScript(store: SqlMetadataStore, script: seq<Op>) returns (done: nat, r: Result<Value, Error>)
    requires store.Valid()
    modifies store
    ensures store.Valid() && (r.Ok? <==> done == |script|)
    ensures RanTo(script, done, old(store.durable), store.durable, old(store.budget))
    ensures r.Err? ==> Stopped(script, done, old(store.durable), old(store.budget), r.error)
    ensures old(store.budget) == None && Completes(script, old(store.durable)) ==> r.Ok?
  {
    ghost var base, budget := store.durable, store.budget;
    done, r := 0, Ok(Unit);
    assert script[..0] == [];
    while done < |script|
      invariant 0 <= done <= |script| && store.Valid() && r.Ok?
      invariant RanTo(script, done, base, store.durable, budget)
      invariant store.budget == Spend(budget, Mutations(script[..done], base))
    {
      ghost var t := store.durable;
      r := EnsureCall(store, script[done]);
      if r.Err? {
        StoppedAt(script, done, base, t, budget, r.error);
        return;
      }
      SpendTwice(budget, Mutations(script[..done], base), Cost(script[done], t));
      RanOne(script, done, base, t, budget);
      done := done + 1;
    }
  }

  lemma NeedsNext(script: seq<Op>, i: nat, t: Tables)
    requires i < |script|
    ensures Completes(script, t) ==> Ensured(script[i], Through(script[..i], t)).1.Ok?
  {
    assert script == script[..i] + script[i..];
    ThroughSplit(script[..i], script[i..], t);
  }

  /** One step of a recovery-aware script: the presence query, then the call. */
  method EnsureCall(store: SqlMetadataStore, op: Op) returns (r: Result<Value, Error>)
    requires store.Valid()
    modifies store
    ensures store.Valid()
    ensures r.Ok? ==> store.durable == Ensured(op, old(store.durable)).0 && Ensured(op, old(store.durable)).1.Ok?
    ensures r.Ok? ==> var cost := Cost(op, old(store.durable));
      Enough(old(store.budget), cost) && store.budget == Spend(old(store.budget), cost)
    ensures r.Err? ==> store.durable == old(store.durable)
    ensures r.Err? && Ensured(op, old(store.durable)).1.Ok? ==>
      && r == Err(Crash) && old(store.budget).Some?
      && if Present(op, old(store.durable)) then old(store.budget) == Some(0)
         else !Enough(old(store.budget), Boundaries(op, old(store.durable)))
  {
    if op.CreateGeneration? {
      if store.budget == Some(0) {
        return Err(Crash);
      }
      if op.id in store.durable.control.generations {
        return Ok(Unit);
      }
    }
    r := store.Call(op);
  }

  lemma MutationsAt(script: seq<Op>, i: nat, t: Tables)
    requires i < |script|
    ensures var u := Through(script[..i], t);
      Mutations(script, t) ==
        Mutations(script[..i], t) + Cost(script[i], u) + Mutations(script[i+1..], Ensured(script[i], u).0)
  {
    assert script == script[..i] + script[i..] && script[i..][1..] == script[i+1..];
    ThroughSplit(script[..i], script[i..], t);
  }

  lemma {:induction false} LastCosts(script: seq<Op>, t: Tables)
    requires script != [] && !script[|script|-1].CreateGeneration?
    ensures Mutations(script, t) >= 2
  {
    if |script| > 1 { LastCosts(script[1..], Ensured(script[0], t).0); }
  }

  /** A script whose last call writes is killed exactly below its number of mutations. */
  lemma KilledBelow(script: seq<Op>, t: Tables, k: nat, done: nat)
    requires done < |script| && !script[|script|-1].CreateGeneration?
    requires var u, m := Through(script[..done], t), Mutations(script[..done], t);
      (Present(script[done], u) && k == m) || (!Present(script[done], u) && m <= k < m + Boundaries(script[done], u))
    ensures k < Mutations(script, t)
  {
    MutationsAt(script, done, t);
    if done < |script| - 1 {
      LastCosts(script[done+1..], Ensured(script[done], Through(script[..done], t)).0);
    }
  }

  /** One kill point: a fresh store is armed with `k` mutations, run, reopened cold and retried
      under a fresh pin. */
  method KillPoint(base: Tables, sc: Scenario, pin: nat, again: nat, k: nat)
    returns (armed: Result<Value, Error>, done: nat, reopened: Tables, retry: Result<Value, Error>, retried: Tables)
    ensures done <= |Calls(sc, pin)| && (armed.Ok? <==> done == |Calls(sc, pin)|)
    ensures reopened == Through(Calls(sc, pin)[..done], base) && (Sound(base) ==> Sound(reopened))
    ensures Completes(Calls(sc, pin), base) ==>
      && (armed.Ok? <==> Mutations(Calls(sc, pin), base) <= k)
      && (armed.Err? ==> armed == Err(Crash) && reopened.results == base.results && reopened.pins == base.pins)
    ensures Completes(Calls(sc, pin), base) && Completes(Calls(sc, again), base) ==>
      retry.Ok? && retried == Through(Calls(sc, if armed.Ok? then pin else again), base)
    ensures !Completes(Calls(sc, pin), base) ==> armed.Err?
    ensures k == 0 ==> armed.Err? && (retry.Ok? ==> Completes(Calls(sc, again), base))
  {
    ghost var calls := Calls(sc, pin);
    var store := new SqlMetadataStore(base);
    store.Arm(k);
    done, armed := RunScript(store, Calls(sc, pin));
    store.Reopen();
    reopened := store.durable;
    if Sound(base) { ThroughSound(calls[..done], base); }
    if done == |calls| {
      assert calls[..done] == calls;
    } else {
      KilledFacts(sc, pin, base, done, k, armed.error);
    }
    FirstNeedsBudget(sc, pin, base, done);
    var redone;
    redone, retry := RunScript(store, Calls(sc, again));
    retried := store.durable;
    assert redone == |Calls(sc, again)| ==> Calls(sc, again)[..redone] == Calls(sc, again);
    if Completes(calls, base) && Completes(Calls(sc, again), base) {
      RetryConverges(sc, pin, again, base, done);
    }
  }

  /** What a failed armed run says, given why the script stopped. */
  lemma KilledFacts(sc: Scenario, pin: nat, base: Tables, done: nat, k: nat, e: Error)
    requires Stopped(Calls(sc, pin), done, base, Some(k), e) && Mutations(Calls(sc, pin)[..done], base) <= k
    ensures Completes(Calls(sc, pin), base) ==>
      && k < Mutations(Calls(sc, pin), base) && e == Crash
      && Through(Calls(sc, pin)[..done], base).results == base.results
      && Through(Calls(sc, pin)[..done], base).pins == base.pins
  {
    if Completes(Calls(sc, pin), base) {
      NeedsNext(Calls(sc, pin), done, base);
      KilledBelow(Calls(sc, pin), base, k, done);
      NothingExposed(sc, pin, base, done);
    }
  }

  /** Without a budget the first call already fails, so nothing has happened. */
  lemma FirstNeedsBudget(sc: Scenario, pin: nat, base: Tables, done: nat)
    requires done <= |Calls(sc, pin)|
    ensures Mutations(Calls(sc, pin)[..done], base) == 0 ==> done == 0
  {
    if done > 0 {
      var calls := Calls(sc, pin)[..done];
      assert calls[0] == SetupCalls(sc)[0];
    }
  }

  /** The driver: it stops at the first budget the scenario survives, and reports nothing exactly
      when both attempts are accepted uninterrupted and fit below the cap. */
  method RunCrashMatrix(base: Tables, sc: Scenario, pin: nat, again: nat)
    returns (boundaries: Option<nat>, violations: seq<nat>)
    ensures violations == [] <==>
      && Completes(Calls(sc, pin), base) && Completes(Calls(sc, again), base)
      && Mutations(Calls(sc, pin), base) < KILL_POINT_CAP
    ensures violations == [] ==> boundaries == Some(Mutations(Calls(sc, pin), base))
  {
    boundaries, violations := None, [];
    var full, other := Through(Calls(sc, pin), base), Through(Calls(sc, again), base);
    ghost var fine := Completes(Calls(sc, pin), base) && Completes(Calls(sc, again), base);
    var k: nat := 0;
    while k < KILL_POINT_CAP
      invariant k <= KILL_POINT_CAP && boundaries == None
      invariant fine ==> violations == []
      invariant k > 0 && violations == [] ==> Completes(Calls(sc, again), base)
      invariant Completes(Calls(sc, pin), base) ==> k <= Mutations(Calls(sc, pin), base)
    {
      var armed, done, reopened, retry, retried := KillPoint(base, sc, pin, again, k);
      if armed.Err? && (armed.error != Crash || reopened.results != base.results || reopened.pins != base.pins) {
        violations := violations + [k];
      }
      if retry.Err? || retried != (if armed.Ok? then full else other) {
        violations := violations + [k];
      }
      if armed.Ok? {
        boundaries := Some(k);
        return;
      }
      k := k + 1;
    }
    violations := violations + [KILL_POINT_CAP];
  }

  // ---------------------------------------------------------------- any script

  lemma {:induction false} ScriptSound(script: seq<Op>, t: Tables)
    requires Sound(t)
    ensures Sound(After(script, t))
  {
    if script != [] {
      CallSound(script[0], t);
      ScriptSound(script[1..], Perform(script[0], t).0);
    }
  }

  lemma {:induction false} AfterSplit(a: seq<Op>, b: seq<Op>, t: Tables)
    ensures After(a + b, t) == After(b, After(a, t))
    decreases |a|
  {
    if a == [] {
      assert a + b == b;
    } else {
      assert (a + b)[1..] == a[1..] + b;
      AfterSplit(a[1..], b, Perform(a[0], t).0);
    }
  }

  /** Any script killed anywhere reopens to the tables of some whole number of its calls, which
      satisfy the store invariant; when the rest of the script is then accepted, the tables are
      those of an uninterrupted run. */
  method KillScript(script: seq<Op>, base: Tables, k: nat)
    returns (done: nat, reopened: Tables, resumed: Result<Value, Error>, finished: Tables)
    requires Sound(base)
    ensures done <= |script| && reopened == After(script[..done], base)
    ensures Sound(reopened)
    ensures resumed.Ok? ==> finished == After(script, base)
  {
    var store := new SqlMetadataStore(base);
    store.Arm(k);
    var r;
    done, r := store.CallAll(script);
    store.Reopen();
    reopened := store.durable;
    ScriptSound(script[..done], base);
    var more;
    more, resumed := store.CallAll(script[done..]);
    finished := store.durable;
    assert script == script[..done] + script[done..] && script[done..][..|script[done..]|] == script[done..];
    AfterSplit(script[..done], script[done..], base);
  }
}
