/** What every run of the blob store keeps, whatever staging names it reopens: names, winners and
    rows. Nothing here speaks of file contents. */
module BlobNames {
  import opened Prelude
  import opened Digests
  import opened BlobStore

  // ---------------------------------------------------------------- phases

  predicate Succeeded(p: Phase) {
    p == Done(Stored) || p == Done(IdempotentDuplicate)
  }

  predicate PastVerify(p: Phase) {
    (Live(p) && !p.Streaming?) || Succeeded(p)
  }

  predicate PastLink(p: Phase) {
    PastVerify(p) && !p.StagingWritten? && !p.StagingSynced?
  }

  /** Linked, and its staging name not yet removed. */
  predicate Linking(p: Phase) {
    p.Linked? || p.DirectorySynced? || p.ObjectRecorded? || p.MetadataRecorded?
  }

  predicate Located(p: Phase) {
    p.MetadataRecorded? || p.ExistingRecorded? || Succeeded(p)
  }

  predicate Incident(p: Phase) {
    || p.Mismatched? || p.IncomingPreserved? || p.IncidentRecorded?
    || p == Done(CollisionIncident) || p == Done(UnknownLocation)
  }

  /** Past the link and not in an incident: the path is taken, by this call or an earlier one. */
  predicate Settled(p: Phase) {
    PastLink(p) && !Incident(p)
  }

  /** Still holding its staging name: until the incident moves the file away. */
  predicate Holding(p: Phase) {
    Live(p) && !p.IncomingPreserved? && !p.IncidentRecorded?
  }

  // ---------------------------------------------------------------- what is kept

  ghost predicate LocationsPublished(d: Disk) {
    forall row :: row in d.locations ==> row.1 == Target(row.0) && row.1 in d.published
  }

  ghost predicate SameTarget(v: Writer, w: Writer) {
    Target(v.declared) == Target(w.declared)
  }

  ghost predicate OneWinner(writers: map<nat, Writer>) {
    forall i, j ::
      i in writers && j in writers && writers[i].won && writers[j].won && SameTarget(writers[i], writers[j]) ==> i == j
  }

  /** A live call belongs to a running process, below its counter, and shares its name with no
      other live call. */
  ghost predicate NamesSound(s: State) {
    && Counted(s)
    && (forall i, j :: i in s.writers && j in s.writers && BothHold(s.writers[i], s.writers[j]) ==> i == j)
  }

  /** Two live calls with the same staging name. */
  predicate BothHold(v: Writer, w: Writer) {
    Live(v.phase) && Live(w.phase) && v.name == w.name
  }

  /** Every live call belongs to a running process, below its counter. */
  ghost predicate Counted(s: State) {
    forall i :: i in s.writers && Live(s.writers[i].phase) ==>
      s.writers[i].name.pid in s.processes && s.writers[i].name.n < s.processes[s.writers[i].name.pid]
  }

  /** What the disk owes one call. */
  ghost predicate CallKept(d: Disk, w: Writer) {
    && (Holding(w.phase) ==> w.name in d.staging)
    && (w.won || Settled(w.phase) ==> Target(w.declared) in d.published)
    && (Linking(w.phase) || w.phase == Done(Stored) ==> w.won)
    && (Located(w.phase) ==> (w.declared, Target(w.declared)) in d.locations)
  }

  ghost predicate CallsKept(s: State) {
    forall id :: id in s.writers ==> CallKept(s.disk, s.writers[id])
  }

  /** Live calls have names of their own, each path has one winner at most, rows name published
      files, and every call finds what it has linked and recorded. */
  ghost predicate Registered(s: State) {
    NamesSound(s) && OneWinner(s.writers) && LocationsPublished(s.disk) && CallsKept(s)
  }

  // ---------------------------------------------------------------- turns

  lemma WonBefore(hash: Hash, d: Disk, w: Writer, chunk: nat)
    ensures var v := TakeTurn(hash, d, w, chunk).writer;
      && v.declared == w.declared && v.name == w.name
      && (v.won && !w.won ==> Target(w.declared) !in d.published)
      && (Live(v.phase) ==> Live(w.phase))
  {
  }

  /** A turn withdraws no published name, no row, and no staging name but the call's own. */
  ghost predicate NamesKept(d: Disk, e: Disk, own: Name) {
    && Keeps(d.published, e.published) && d.locations.Keys <= e.locations.Keys
    && (forall name :: name in d.staging && name != own ==> name in e.staging)
  }

  lemma ActKeepsNames(action: Action, d: Disk, w: Writer)
    ensures NamesKept(d, Act(action, d, w), w.name)
  {
  }

  /** Only a call past the link records a row, and only recording locates it. */
  lemma TurnRecords(hash: Hash, d: Disk, w: Writer, chunk: nat)
    ensures var turn := TakeTurn(hash, d, w, chunk);
      && (turn.action.RecordLocation? ==> Settled(w.phase))
      && (Located(turn.writer.phase) ==> Located(w.phase) || turn.action.RecordLocation?)
  {
  }

  lemma ActLocates(action: Action, d: Disk, w: Writer)
    requires LocationsPublished(d) && (action.RecordLocation? ==> Target(w.declared) in d.published)
    ensures LocationsPublished(Act(action, d, w))
  {
    ActKeepsNames(action, d, w);
  }

  lemma TurnLocates(hash: Hash, d: Disk, w: Writer, chunk: nat)
    requires LocationsPublished(d) && CallKept(d, w)
    ensures LocationsPublished(Act(TakeTurn(hash, d, w, chunk).action, d, w))
  {
    TurnRecords(hash, d, w, chunk);
    ActLocates(TakeTurn(hash, d, w, chunk).action, d, w);
  }

  lemma TurnHoldsName(hash: Hash, d: Disk, w: Writer, chunk: nat)
    requires Holding(w.phase) ==> w.name in d.staging
    ensures var turn := TakeTurn(hash, d, w, chunk);
      Holding(turn.writer.phase) ==> w.name in Act(turn.action, d, w).staging
  {
  }

  lemma TurnHoldsTarget(hash: Hash, d: Disk, w: Writer, chunk: nat)
    requires (Holding(w.phase) ==> w.name in d.staging)
    requires w.won || Settled(w.phase) ==> Target(w.declared) in d.published
    ensures var turn := TakeTurn(hash, d, w, chunk);
      turn.writer.won || Settled(turn.writer.phase) ==> Target(w.declared) in Act(turn.action, d, w).published
  {
  }

  lemma TurnHoldsWin(hash: Hash, d: Disk, w: Writer, chunk: nat)
    requires Linking(w.phase) || w.phase == Done(Stored) ==> w.won
    ensures var v := TakeTurn(hash, d, w, chunk).writer; Linking(v.phase) || v.phase == Done(Stored) ==> v.won
  {
  }

  lemma TurnHoldsRow(hash: Hash, d: Disk, w: Writer, chunk: nat)
    requires Located(w.phase) ==> (w.declared, Target(w.declared)) in d.locations
    ensures var turn := TakeTurn(hash, d, w, chunk);
      Located(turn.writer.phase) ==> (w.declared, Target(w.declared)) in Act(turn.action, d, w).locations
  {
    TurnRecords(hash, d, w, chunk);
    RowKept(TakeTurn(hash, d, w, chunk).action, d, w);
  }

  lemma RowKept(action: Action, d: Disk, w: Writer)
    ensures var row := (w.declared, Target(w.declared));
      row in d.locations || action.RecordLocation? ==> row in Act(action, d, w).locations
  {
  }

  lemma TurnHolds(hash: Hash, d: Disk, w: Writer, chunk: nat)
    requires CallKept(d, w)
    ensures var turn := TakeTurn(hash, d, w, chunk); CallKept(Act(turn.action, d, w), turn.writer)
  {
    WonBefore(hash, d, w, chunk);
    TurnHoldsName(hash, d, w, chunk);
    TurnHoldsTarget(hash, d, w, chunk);
    TurnHoldsWin(hash, d, w, chunk);
    TurnHoldsRow(hash, d, w, chunk);
  }

  lemma OtherKept(d: Disk, e: Disk, w: Writer, own: Name)
    requires CallKept(d, w) && NamesKept(d, e, own) && (Live(w.phase) ==> w.name != own)
    ensures CallKept(e, w)
  {
  }

  /** A link succeeds only on a free path, and winners' paths are taken. */
  lemma WinnerStep(hash: Hash, s: State, id: nat, chunk: nat)
    requires Registered(s) && id in s.writers
    ensures OneWinner(Step(hash, s, id, chunk).writers)
  {
    var w := s.writers[id];
    WonBefore(hash, s.disk, w, chunk);
    if Target(w.declared) !in s.disk.published {
      forall j | j in s.writers && s.writers[j].won ensures !SameTarget(s.writers[j], w) {
        assert CallKept(s.disk, s.writers[j]);
      }
    }
  }

  lemma NamesStep(hash: Hash, s: State, id: nat, chunk: nat)
    requires NamesSound(s) && id in s.writers
    ensures NamesSound(Step(hash, s, id, chunk))
  {
    var u := Step(hash, s, id, chunk);
    WonBefore(hash, s.disk, s.writers[id], chunk);
    forall i, j | i in u.writers && j in u.writers && BothHold(u.writers[i], u.writers[j]) ensures i == j {
      assert BothHold(s.writers[i], s.writers[j]);
    }
  }

  lemma IdleStep(hash: Hash, s: State, id: nat, chunk: nat)
    requires id in s.writers && !Live(s.writers[id].phase)
    ensures Step(hash, s, id, chunk) == s
  {
    assert s.writers[id := s.writers[id]] == s.writers;
  }

  lemma StepCalls(hash: Hash, s: State, id: nat, chunk: nat)
    requires Registered(s) && id in s.writers && Live(s.writers[id].phase)
    ensures CallsKept(Step(hash, s, id, chunk))
  {
    var w, u := s.writers[id], Step(hash, s, id, chunk);
    assert CallKept(s.disk, w);
    TurnHolds(hash, s.disk, w, chunk);
    ActKeepsNames(TakeTurn(hash, s.disk, w, chunk).action, s.disk, w);
    forall i | i in u.writers ensures CallKept(u.disk, u.writers[i]) {
      if i != id {
        assert CallKept(s.disk, s.writers[i]) && !BothHold(s.writers[i], w);
        OtherKept(s.disk, u.disk, s.writers[i], w.name);
      }
    }
  }

  lemma StepRegistered(hash: Hash, s: State, id: nat, chunk: nat)
    requires Registered(s) && id in s.writers
    ensures Registered(Step(hash, s, id, chunk))
  {
    if Live(s.writers[id].phase) {
      assert CallKept(s.disk, s.writers[id]);
      TurnLocates(hash, s.disk, s.writers[id], chunk);
      StepCalls(hash, s, id, chunk);
      WinnerStep(hash, s, id, chunk);
      NamesStep(hash, s, id, chunk);
    } else {
      IdleStep(hash, s, id, chunk);
    }
  }

  // ---------------------------------------------------------------- calls that begin and die

  /** A process's next name is held by no live call. */
  lemma NextNameFree(s: State, pid: nat, i: nat)
    requires NamesSound(s) && pid in s.processes && i in s.writers && Live(s.writers[i].phase)
    ensures s.writers[i].name != NextName(s, pid)
  {
  }

  lemma SpawnNames(hash: Hash, s: State, e: Event)
    requires NamesSound(s) && Spawns(s, e)
    ensures NamesSound(Apply(hash, s, e))
  {
    var u := Apply(hash, s, e);
    forall i, j | i in u.writers && j in u.writers && BothHold(u.writers[i], u.writers[j]) ensures i == j {
      if i != e.id && j != e.id {
        assert BothHold(s.writers[i], s.writers[j]);
      } else if i != e.id {
        NextNameFree(s, e.pid, i);
      } else if j != e.id {
        NextNameFree(s, e.pid, j);
      }
    }
  }

  lemma SpawnRegistered(hash: Hash, s: State, e: Event)
    requires Registered(s) && Spawns(s, e)
    ensures Registered(Apply(hash, s, e))
  {
    var u := Apply(hash, s, e);
    SpawnNames(hash, s, e);
    forall i | i in u.writers ensures CallKept(u.disk, u.writers[i]) {
      if i != e.id {
        assert CallKept(s.disk, s.writers[i]);
      }
    }
  }

  /** Some calls died, and nothing else happened to calls. */
  ghost predicate SomeKilled(s: State, u: State) {
    && u.disk == s.disk && u.writers.Keys == s.writers.Keys
    && forall id :: id in s.writers ==> u.writers[id] == s.writers[id] || u.writers[id] == KillWriter(s.writers[id])
  }

  lemma KilledNames(s: State, u: State)
    requires NamesSound(s) && SomeKilled(s, u) && Counted(u)
    ensures NamesSound(u)
  {
    forall i, j | i in u.writers && j in u.writers && BothHold(u.writers[i], u.writers[j]) ensures i == j {
      assert BothHold(s.writers[i], s.writers[j]);
    }
  }

  lemma KilledWinners(s: State, u: State)
    requires OneWinner(s.writers) && SomeKilled(s, u)
    ensures OneWinner(u.writers)
  {
    forall i, j | i in u.writers && j in u.writers && u.writers[i].won && u.writers[j].won
      && SameTarget(u.writers[i], u.writers[j]) ensures i == j
    {
      assert s.writers[i].won && s.writers[j].won && SameTarget(s.writers[i], s.writers[j]);
    }
  }

  lemma KilledRegistered(s: State, u: State)
    requires Registered(s) && SomeKilled(s, u) && Counted(u)
    ensures Registered(u)
  {
    KilledNames(s, u);
    KilledWinners(s, u);
    forall id | id in u.writers ensures CallKept(u.disk, u.writers[id]) {
      assert CallKept(s.disk, s.writers[id]);
    }
  }

  /** A crash, a kill and a start of a process only end calls. */
  lemma OnlyKills(hash: Hash, s: State, e: Event)
    requires NamesSound(s) && (e.Crash? || e.Kill? || e.Boot?)
    ensures SomeKilled(s, Apply(hash, s, e)) && Counted(Apply(hash, s, e))
  {
  }

  lemma EventRegistered(hash: Hash, s: State, e: Event)
    requires Registered(s)
    ensures Registered(Apply(hash, s, e))
  {
    if e.Advance? {
      if e.id in s.writers { StepRegistered(hash, s, e.id, e.chunk); }
    } else if e.Spawn? {
      if Spawns(s, e) { SpawnRegistered(hash, s, e); }
    } else {
      OnlyKills(hash, s, e);
      KilledRegistered(s, Apply(hash, s, e));
    }
  }

  // ---------------------------------------------------------------- whole runs

  lemma StartRegistered()
    ensures Registered(START)
  {
  }

  /** In every run of any number of processes and calls, each killed anywhere and whatever staging
      names they reopen: rows name published files, each path has at most one winner, and live
      calls never share a staging name. */
  lemma {:induction false} RunRegistered(hash: Hash, s: State, events: seq<Event>)
    requires Registered(s)
    ensures Registered(Run(hash, s, events))
    decreases |events|
  {
    if events != [] {
      EventRegistered(hash, s, events[0]);
      RunRegistered(hash, Apply(hash, s, events[0]), events[1..]);
    }
  }

  lemma EventKeepsNames(hash: Hash, s: State, e: Event)
    ensures Keeps(s.disk.published, Apply(hash, s, e).disk.published)
    ensures s.disk.locations.Keys <= Apply(hash, s, e).disk.locations.Keys
  {
    if e.Advance? && e.id in s.writers {
      ActKeepsNames(TakeTurn(hash, s.disk, s.writers[e.id], e.chunk).action, s.disk, s.writers[e.id]);
    }
  }

  /** From any state whatever, no run withdraws a published name, links it to another file, or
      removes a location row. */
  lemma {:induction false} PublishedNamesStay(hash: Hash, s: State, events: seq<Event>)
    ensures Keeps(s.disk.published, Run(hash, s, events).disk.published)
    ensures s.disk.locations.Keys <= Run(hash, s, events).disk.locations.Keys
    decreases |events|
  {
    if events != [] {
      EventKeepsNames(hash, s, events[0]);
      PublishedNamesStay(hash, Apply(hash, s, events[0]), events[1..]);
    }
  }

  /** Over every run from an empty store, at most one call per path reports Stored. */
  lemma StoredOnce(hash: Hash, events: seq<Event>, i: nat, j: nat)
    requires var ws := Run(hash, START, events).writers;
      i in ws && j in ws && ws[i].phase == Done(Stored) && ws[j].phase == Done(Stored) && SameTarget(ws[i], ws[j])
    ensures i == j
  {
    var s := Run(hash, START, events);
    StartRegistered();
    RunRegistered(hash, START, events);
    assert CallKept(s.disk, s.writers[i]) && CallKept(s.disk, s.writers[j]);
  }

  /** Over every run from an empty store, every location row names a published file, and every
      reported success has its row. */
  lemma RowsNamePublished(hash: Hash, events: seq<Event>)
    ensures var s := Run(hash, START, events);
      && LocationsPublished(s.disk)
      && forall id :: id in s.writers && Succeeded(s.writers[id].phase) ==>
           (s.writers[id].declared, Target(s.writers[id].declared)) in s.disk.locations
  {
    var s := Run(hash, START, events);
    StartRegistered();
    RunRegistered(hash, START, events);
    forall id | id in s.writers && Succeeded(s.writers[id].phase)
      ensures (s.writers[id].declared, Target(s.writers[id].declared)) in s.disk.locations
    {
      assert CallKept(s.disk, s.writers[id]);
    }
  }
}
