/** Contents: that published files stay complete and unchanged exactly when reopening staging names
    is harmless, and that honest calls then succeed. */
module BlobRuns {
  import opened Prelude
  import opened Digests
  import opened BlobStore
  import opened BlobNames

  // ---------------------------------------------------------------- the disk

  /** No published name is a link to this inode. */
  ghost predicate Private(d: Disk, ino: nat) {
    forall path :: path in d.published ==> d.published[path] != ino
  }

  /** Links lead to inodes, and no two staging names to the same one. */
  ghost predicate WellLinked(d: Disk) {
    && (forall path :: path in d.published ==> d.published[path] < |d.inodes|)
    && (forall name :: name in d.staging ==> d.staging[name] < |d.inodes|)
    && (forall m, n :: m in d.staging && n in d.staging && d.staging[m] == d.staging[n] ==> m == n)
  }

  /** Every file is complete: its bytes digest to the name it is published under. */
  ghost predicate FilesComplete(hash: Hash, d: Disk) {
    forall path :: path in d.published ==> path == Target(hash(Content(d, path)))
  }

  ghost predicate DiskSound(hash: Hash, d: Disk) {
    WellLinked(d) && FilesComplete(hash, d) && LocationsPublished(d)
  }

  /** Everything published stays published under the same inode with the same bytes. */
  ghost predicate PublishedKept(d: Disk, e: Disk) {
    && Keeps(d.published, e.published)
    && forall path :: path in d.published ==> Content(e, path) == Content(d, path)
  }

  // ---------------------------------------------------------------- calls

  /** The open file is the one the staging name links to, holds exactly what was read, and is not
      published while it is being written. */
  ghost predicate StagingSound(d: Disk, w: Writer) {
    && (w.phase.Streaming? ==> w.phase.read <= |w.input| && Private(d, w.fd))
    && (Live(w.phase) ==>
          && w.name in d.staging && d.staging[w.name] == w.fd && w.fd < |d.inodes|
          && d.inodes[w.fd] == if w.phase.Streaming? then w.input[..w.phase.read] else w.input)
  }

  ghost predicate TargetSound(d: Disk, w: Writer) {
    && (PastLink(w.phase) || w.won ==> Target(w.declared) in d.published)
    && (w.won ==> Content(d, Target(w.declared)) == w.input)
    && (Linking(w.phase) ==> d.published[Target(w.declared)] == w.fd)
    && (Located(w.phase) ==> (w.declared, Target(w.declared)) in d.locations)
  }

  ghost predicate PhaseSound(hash: Hash, w: Writer) {
    && (PastVerify(w.phase) ==> hash(w.input) == w.declared)
    && (Linking(w.phase) || w.phase == Done(Stored) ==> w.won)
    && (w.won ==> Linking(w.phase) || w.phase == Done(Stored) || w.phase.Killed?)
    && !Incident(w.phase)
  }

  ghost predicate WriterSound(hash: Hash, d: Disk, w: Writer) {
    PhaseSound(hash, w) && StagingSound(d, w) && TargetSound(d, w)
  }

  ghost predicate WritersSound(hash: Hash, s: State) {
    forall id :: id in s.writers ==> WriterSound(hash, s.disk, s.writers[id])
  }

  ghost predicate Sound(hash: Hash, s: State) {
    Registered(s) && DiskSound(hash, s.disk) && WritersSound(hash, s)
  }

  // ---------------------------------------------------------------- when opening is harmless

  /** The name is not still a link to a published file. */
  ghost predicate Clean(d: Disk, name: Name) {
    name in d.staging ==> Private(d, d.staging[name])
  }

  lemma OpenContent(d: Disk, name: Name, path: Bytes)
    requires WellLinked(d) && path in d.published
    ensures Content(Open(d, name), path) ==
      if name in d.staging && d.published[path] == d.staging[name] then [] else Content(d, path)
  {
  }

  /** Opening a staging name leaves every published file as it was exactly when the name is not
      still a link to a published file with bytes in it. */
  lemma OpenKeepsIff(d: Disk, name: Name)
    requires WellLinked(d)
    ensures PublishedKept(d, Open(d, name)) <==>
      Clean(d, name) || d.inodes[d.staging[name]] == []
  {
    forall path | path in d.published
      ensures Content(Open(d, name), path) ==
        if name in d.staging && d.published[path] == d.staging[name] then [] else Content(d, path)
    {
      OpenContent(d, name, path);
    }
  }

  lemma OpenWellLinked(d: Disk, name: Name)
    requires WellLinked(d)
    ensures WellLinked(Open(d, name))
  {
  }

  lemma OpenDiskSound(hash: Hash, d: Disk, name: Name)
    requires DiskSound(hash, d) && Clean(d, name)
    ensures DiskSound(hash, Open(d, name))
  {
    OpenWellLinked(d, name);
    OpenKeepsIff(d, name);
  }

  // ---------------------------------------------------------------- one call among the others

  /** What one call's step may do to the rest of the disk. */
  ghost predicate OnlyOwn(d: Disk, e: Disk, w: Writer) {
    && PublishedKept(d, e)
    && d.locations.Keys <= e.locations.Keys
    && d.staging - {w.name} == e.staging - {w.name}
    && |d.inodes| <= |e.inodes| && (forall i :: 0 <= i < |d.inodes| && i != w.fd ==> e.inodes[i] == d.inodes[i])
    && (forall path :: path in e.published ==> path in d.published || e.published[path] == w.fd)
  }

  lemma OtherSound(hash: Hash, d: Disk, e: Disk, w: Writer, v: Writer)
    requires WriterSound(hash, d, v) && OnlyOwn(d, e, w)
    requires Live(v.phase) ==> v.name != w.name && v.fd != w.fd
    ensures WriterSound(hash, e, v)
  {
    if Live(v.phase) {
      assert v.name in d.staging - {w.name};
      assert (e.staging - {w.name})[v.name] == (d.staging - {w.name})[v.name];
    }
  }

  // ---------------------------------------------------------------- what each action does to the disk

  lemma AppendDisk(hash: Hash, d: Disk, w: Writer, bytes: Bytes)
    requires DiskSound(hash, d) && Private(d, w.fd) && w.fd < |d.inodes|
    ensures var e := Act(Append(bytes), d, w); OnlyOwn(d, e, w) && DiskSound(hash, e)
  {
    var e := Act(Append(bytes), d, w);
    assert forall path :: path in d.published ==> Content(e, path) == Content(d, path);
  }

  lemma RemoveDisk(hash: Hash, d: Disk, w: Writer)
    requires DiskSound(hash, d)
    ensures var e := Act(RemoveStaging, d, w); OnlyOwn(d, e, w) && DiskSound(hash, e)
  {
    var e := Act(RemoveStaging, d, w);
    assert forall path :: path in d.published ==> Content(e, path) == Content(d, path);
  }

  lemma LinkDisk(hash: Hash, d: Disk, w: Writer)
    requires DiskSound(hash, d) && w.name in d.staging && d.staging[w.name] == w.fd < |d.inodes|
    requires d.inodes[w.fd] == w.input && hash(w.input) == w.declared && Target(w.declared) !in d.published
    ensures var e := Act(LinkStaging, d, w); OnlyOwn(d, e, w) && DiskSound(hash, e)
  {
    var e := Act(LinkStaging, d, w);
    assert Content(e, Target(w.declared)) == w.input;
    assert forall path :: path in d.published ==> Content(e, path) == Content(d, path);
  }

  lemma RowsDisk(hash: Hash, d: Disk, w: Writer, action: Action)
    requires DiskSound(hash, d) && Target(w.declared) in d.published
    requires action.Nothing? || action.RecordObject? || action.RecordLocation?
    ensures var e := Act(action, d, w); OnlyOwn(d, e, w) && DiskSound(hash, e)
  {
    var e := Act(action, d, w);
    assert forall path :: path in d.published ==> Content(e, path) == Content(d, path);
  }

  lemma NothingDisk(hash: Hash, d: Disk, w: Writer)
    requires DiskSound(hash, d)
    ensures OnlyOwn(d, Act(Nothing, d, w), w)
  {
  }

  // ---------------------------------------------------------------- one turn

  /** The digest of an existing file always matches: a collision needs a changed file. */
  lemma ExistingMatches(hash: Hash, d: Disk, declared: Bytes)
    requires Wide(hash) && FilesComplete(hash, d) && |declared| == 32 && Target(declared) in d.published
    ensures hash(Content(d, Target(declared))) == declared
  {
    var found := hash(Content(d, Target(declared)));
    assert Target(found) == Target(declared);
    PathInjective(found, RAW_PROFILE, found, declared, RAW_PROFILE, declared);
  }

  /** A turn keeps its own call sound, the disk sound, and the rest of the disk as it was. */
  ghost predicate TurnGood(hash: Hash, d: Disk, w: Writer, turn: Turn) {
    var e := Act(turn.action, d, w);
    && OnlyOwn(d, e, w) && DiskSound(hash, e) && WriterSound(hash, e, turn.writer)
    && turn.writer == w.(phase := turn.writer.phase, won := turn.writer.won)
  }

  lemma Assemble(hash: Hash, d: Disk, w: Writer, v: Writer, action: Action)
    requires var e := Act(action, d, w); OnlyOwn(d, e, w) && DiskSound(hash, e) && WriterSound(hash, e, v)
    requires v == w.(phase := v.phase, won := v.won)
    ensures TurnGood(hash, d, w, Turn(v, action))
  {
  }

  /** Reading on: the file grows by what was read. */
  lemma AppendWriter(hash: Hash, d: Disk, w: Writer, total: nat)
    requires WriterSound(hash, d, w) && w.phase.Streaming? && w.phase.read <= total <= |w.input|
    ensures WriterSound(hash, Act(Append(w.input[w.phase.read..total]), d, w), w.(phase := Streaming(total)))
  {
    assert w.input[..w.phase.read] + w.input[w.phase.read..total] == w.input[..total];
  }

  /** A call that ended without success claims nothing. */
  lemma EndedWriter(hash: Hash, e: Disk, w: Writer, outcome: Outcome)
    requires !w.won && outcome in {LogicalLimitExceeded, SizeMismatch, DeclaredDigestMismatch}
    ensures WriterSound(hash, e, w.(phase := Done(outcome)))
  {
  }

  lemma AppendGood(hash: Hash, d: Disk, w: Writer, total: nat)
    requires DiskSound(hash, d) && WriterSound(hash, d, w) && w.phase.Streaming? && w.phase.read <= total <= |w.input|
    ensures TurnGood(hash, d, w, Turn(w.(phase := Streaming(total)), Append(w.input[w.phase.read..total])))
  {
    AppendDisk(hash, d, w, w.input[w.phase.read..total]);
    AppendWriter(hash, d, w, total);
    Assemble(hash, d, w, w.(phase := Streaming(total)), Append(w.input[w.phase.read..total]));
  }

  lemma RefusedGood(hash: Hash, d: Disk, w: Writer, outcome: Outcome)
    requires DiskSound(hash, d) && !w.won && outcome in {LogicalLimitExceeded, SizeMismatch, DeclaredDigestMismatch}
    ensures TurnGood(hash, d, w, Turn(w.(phase := Done(outcome)), RemoveStaging))
  {
    RemoveDisk(hash, d, w);
    EndedWriter(hash, Act(RemoveStaging, d, w), w, outcome);
    Assemble(hash, d, w, w.(phase := Done(outcome)), RemoveStaging);
  }

  lemma VerifiedWriter(hash: Hash, d: Disk, w: Writer)
    requires WriterSound(hash, d, w) && w.phase == Streaming(|w.input|) && hash(w.input) == w.declared
    ensures WriterSound(hash, d, w.(phase := StagingWritten))
  {
    assert w.input[..|w.input|] == w.input;
  }

  lemma VerifiedGood(hash: Hash, d: Disk, w: Writer)
    requires DiskSound(hash, d) && WriterSound(hash, d, w)
    requires w.phase == Streaming(|w.input|) && hash(w.input) == w.declared
    ensures TurnGood(hash, d, w, Turn(w.(phase := StagingWritten), Nothing))
  {
    NothingDisk(hash, d, w);
    VerifiedWriter(hash, d, w);
    Assemble(hash, d, w, w.(phase := StagingWritten), Nothing);
  }

  /** The turns a streaming call may take. */
  ghost predicate StreamsTo(hash: Hash, w: Writer, t: Turn)
    requires w.phase.Streaming?
  {
    match t.writer.phase
    case Streaming(total) =>
      w.phase.read <= total <= |w.input|
      && t == Turn(w.(phase := Streaming(total)), Append(w.input[w.phase.read..total]))
    case StagingWritten =>
      w.phase.read >= |w.input| && hash(w.input) == w.declared && t == Turn(w.(phase := StagingWritten), Nothing)
    case Done(outcome) =>
      outcome in {LogicalLimitExceeded, SizeMismatch, DeclaredDigestMismatch}
      && t == Turn(w.(phase := Done(outcome)), RemoveStaging)
    case _ => false
  }

  lemma StreamShape(hash: Hash, w: Writer, chunk: nat)
    requires w.phase.Streaming? && w.phase.read <= |w.input|
    ensures StreamsTo(hash, w, StreamTurn(hash, w, w.phase.read, chunk))
  {
  }

  lemma StreamsGood(hash: Hash, d: Disk, w: Writer, t: Turn)
    requires DiskSound(hash, d) && WriterSound(hash, d, w) && w.phase.Streaming? && StreamsTo(hash, w, t)
    ensures TurnGood(hash, d, w, t)
  {
    match t.writer.phase
    case Streaming(total) => AppendGood(hash, d, w, total);
    case StagingWritten => VerifiedGood(hash, d, w);
    case Done(outcome) => RefusedGood(hash, d, w, outcome);
  }

  lemma StreamGood(hash: Hash, d: Disk, w: Writer, chunk: nat)
    requires DiskSound(hash, d) && WriterSound(hash, d, w) && w.phase.Streaming?
    ensures TurnGood(hash, d, w, StreamTurn(hash, w, w.phase.read, chunk))
  {
    StreamShape(hash, w, chunk);
    StreamsGood(hash, d, w, StreamTurn(hash, w, w.phase.read, chunk));
  }

  lemma SyncGood(hash: Hash, d: Disk, w: Writer, chunk: nat)
    requires DiskSound(hash, d) && WriterSound(hash, d, w) && w.phase.StagingWritten?
    ensures TurnGood(hash, d, w, TakeTurn(hash, d, w, chunk))
  {
    NothingDisk(hash, d, w);
  }

  lemma LinkGood(hash: Hash, d: Disk, w: Writer, chunk: nat)
    requires DiskSound(hash, d) && WriterSound(hash, d, w) && w.phase.StagingSynced?
    ensures TurnGood(hash, d, w, TakeTurn(hash, d, w, chunk))
  {
    if Target(w.declared) in d.published { NothingDisk(hash, d, w); } else { LinkDisk(hash, d, w); }
  }

  lemma ContendGood(hash: Hash, d: Disk, w: Writer, chunk: nat)
    requires Wide(hash) && DiskSound(hash, d) && WriterSound(hash, d, w) && w.phase.Contended?
    ensures TurnGood(hash, d, w, TakeTurn(hash, d, w, chunk))
  {
    ExistingMatches(hash, d, w.declared);
    NothingDisk(hash, d, w);
  }

  /** Rows were written and no file was touched. */
  ghost predicate SameFiles(d: Disk, e: Disk) {
    e.inodes == d.inodes && e.published == d.published && e.staging == d.staging && d.locations.Keys <= e.locations.Keys
  }

  lemma LinkingWriter(hash: Hash, d: Disk, e: Disk, w: Writer, p: Phase)
    requires WriterSound(hash, d, w) && SameFiles(d, e) && Linking(w.phase) && Linking(p)
    requires p.MetadataRecorded? ==> (w.declared, Target(w.declared)) in e.locations
    ensures WriterSound(hash, e, w.(phase := p))
  {
  }

  lemma ExistingWriter(hash: Hash, d: Disk, e: Disk, w: Writer, p: Phase)
    requires WriterSound(hash, d, w) && SameFiles(d, e)
    requires w.phase.ExistingVerified? || w.phase.ExistingObjectRecorded?
    requires p.ExistingObjectRecorded? || p.ExistingRecorded?
    requires p.ExistingRecorded? ==> (w.declared, Target(w.declared)) in e.locations
    ensures WriterSound(hash, e, w.(phase := p))
  {
  }

  lemma RowsGood(hash: Hash, d: Disk, w: Writer, v: Writer, action: Action)
    requires DiskSound(hash, d) && Target(w.declared) in d.published
    requires action.Nothing? || action.RecordObject? || action.RecordLocation?
    requires WriterSound(hash, Act(action, d, w), v) && v == w.(phase := v.phase)
    ensures TurnGood(hash, d, w, Turn(v, action))
  {
    RowsDisk(hash, d, w, action);
    Assemble(hash, d, w, v, action);
  }

  /** From the link to the location row. */
  lemma RecordGood(hash: Hash, d: Disk, w: Writer, p: Phase, action: Action)
    requires DiskSound(hash, d) && WriterSound(hash, d, w)
    requires || (w.phase.Linked? && p == DirectorySynced && action == Nothing)
             || (w.phase.DirectorySynced? && p == ObjectRecorded && action == RecordObject)
             || (w.phase.ObjectRecorded? && p == MetadataRecorded && action == RecordLocation)
    ensures TurnGood(hash, d, w, Turn(w.(phase := p), action))
  {
    LinkingWriter(hash, d, Act(action, d, w), w, p);
    RowsGood(hash, d, w, w.(phase := p), action);
  }

  /** From the verified existing file to its location row. */
  lemma ExistingGood(hash: Hash, d: Disk, w: Writer, p: Phase, action: Action)
    requires DiskSound(hash, d) && WriterSound(hash, d, w)
    requires || (w.phase.ExistingVerified? && p == ExistingObjectRecorded && action == RecordObject)
             || (w.phase.ExistingObjectRecorded? && p == ExistingRecorded && action == RecordLocation)
    ensures TurnGood(hash, d, w, Turn(w.(phase := p), action))
  {
    ExistingWriter(hash, d, Act(action, d, w), w, p);
    RowsGood(hash, d, w, w.(phase := p), action);
  }

  lemma CleanupWriter(hash: Hash, d: Disk, w: Writer, outcome: Outcome)
    requires WriterSound(hash, d, w)
    requires || (w.phase.MetadataRecorded? && outcome == Stored)
             || (w.phase.ExistingRecorded? && outcome == IdempotentDuplicate)
    ensures WriterSound(hash, Act(RemoveStaging, d, w), w.(phase := Done(outcome)))
  {
  }

  lemma CleanedGood(hash: Hash, d: Disk, w: Writer, outcome: Outcome)
    requires DiskSound(hash, d) && WriterSound(hash, d, w)
    requires || (w.phase.MetadataRecorded? && outcome == Stored)
             || (w.phase.ExistingRecorded? && outcome == IdempotentDuplicate)
    ensures TurnGood(hash, d, w, Turn(w.(phase := Done(outcome)), RemoveStaging))
  {
    RemoveDisk(hash, d, w);
    CleanupWriter(hash, d, w, outcome);
    Assemble(hash, d, w, w.(phase := Done(outcome)), RemoveStaging);
  }

  lemma TurnIsGood(hash: Hash, d: Disk, w: Writer, chunk: nat)
    requires Wide(hash) && DiskSound(hash, d) && WriterSound(hash, d, w)
    ensures TurnGood(hash, d, w, TakeTurn(hash, d, w, chunk))
  {
    match w.phase
    case Streaming(_) => StreamGood(hash, d, w, chunk);
    case StagingWritten => SyncGood(hash, d, w, chunk);
    case StagingSynced => LinkGood(hash, d, w, chunk);
    case Contended => ContendGood(hash, d, w, chunk);
    case Linked => RecordGood(hash, d, w, DirectorySynced, Nothing);
    case DirectorySynced => RecordGood(hash, d, w, ObjectRecorded, RecordObject);
    case ObjectRecorded => RecordGood(hash, d, w, MetadataRecorded, RecordLocation);
    case MetadataRecorded => CleanedGood(hash, d, w, Stored);
    case ExistingVerified => ExistingGood(hash, d, w, ExistingObjectRecorded, RecordObject);
    case ExistingObjectRecorded => ExistingGood(hash, d, w, ExistingRecorded, RecordLocation);
    case ExistingRecorded => CleanedGood(hash, d, w, IdempotentDuplicate);
    case Done(_) => NothingDisk(hash, d, w);
    case Killed => NothingDisk(hash, d, w);
  }

  // ---------------------------------------------------------------- one event

  /** Two live calls hold different files. */
  lemma FilesDiffer(hash: Hash, s: State, i: nat, j: nat)
    requires Sound(hash, s) && i in s.writers && j in s.writers && i != j
    requires Live(s.writers[i].phase) && Live(s.writers[j].phase)
    ensures s.writers[i].name != s.writers[j].name && s.writers[i].fd != s.writers[j].fd
  {
    assert !BothHold(s.writers[i], s.writers[j]);
    assert WriterSound(hash, s.disk, s.writers[i]) && WriterSound(hash, s.disk, s.writers[j]);
  }

  lemma StepWriters(hash: Hash, s: State, id: nat, chunk: nat)
    requires Wide(hash) && Sound(hash, s) && id in s.writers && Live(s.writers[id].phase)
    ensures WritersSound(hash, Step(hash, s, id, chunk))
  {
    var w, u := s.writers[id], Step(hash, s, id, chunk);
    assert WriterSound(hash, s.disk, w);
    TurnIsGood(hash, s.disk, w, chunk);
    forall i | i in u.writers ensures WriterSound(hash, u.disk, u.writers[i]) {
      if i != id {
        assert WriterSound(hash, s.disk, s.writers[i]);
        if Live(s.writers[i].phase) { FilesDiffer(hash, s, id, i); }
        OtherSound(hash, s.disk, u.disk, w, s.writers[i]);
      }
    }
  }

  lemma StepDisk(hash: Hash, s: State, id: nat, chunk: nat)
    requires Wide(hash) && Sound(hash, s) && id in s.writers
    ensures DiskSound(hash, Step(hash, s, id, chunk).disk) && PublishedKept(s.disk, Step(hash, s, id, chunk).disk)
  {
    assert WriterSound(hash, s.disk, s.writers[id]);
    TurnIsGood(hash, s.disk, s.writers[id], chunk);
  }

  lemma StepSound(hash: Hash, s: State, id: nat, chunk: nat)
    requires Wide(hash) && Sound(hash, s) && id in s.writers
    ensures Sound(hash, Step(hash, s, id, chunk))
  {
    StepRegistered(hash, s, id, chunk);
    if Live(s.writers[id].phase) {
      StepDisk(hash, s, id, chunk);
      StepWriters(hash, s, id, chunk);
    } else {
      IdleStep(hash, s, id, chunk);
    }
  }

  lemma KilledWriter(hash: Hash, d: Disk, w: Writer)
    requires WriterSound(hash, d, w)
    ensures WriterSound(hash, d, KillWriter(w))
  {
  }

  lemma OpenedWriter(hash: Hash, d: Disk, w: Writer)
    requires WellLinked(d) && Clean(d, w.name)
    requires w == Opened(d, w.name, w.declared, w.input, w.limits, w.full)
    ensures WriterSound(hash, Open(d, w.name), w)
  {
  }

  lemma OpenOwn(d: Disk, w: Writer)
    requires WellLinked(d) && Clean(d, w.name) && w.fd == OpenedInode(d, w.name)
    ensures OnlyOwn(d, Open(d, w.name), w)
  {
    OpenKeepsIff(d, w.name);
  }

  lemma SpawnWriters(hash: Hash, s: State, e: Event)
    requires Sound(hash, s) && Spawns(s, e) && Clean(s.disk, NextName(s, e.pid))
    ensures WritersSound(hash, Apply(hash, s, e))
  {
    var u := Apply(hash, s, e);
    var w := u.writers[e.id];
    OpenedWriter(hash, s.disk, w);
    OpenOwn(s.disk, w);
    forall i | i in u.writers ensures WriterSound(hash, u.disk, u.writers[i]) {
      if i != e.id {
        var v := s.writers[i];
        assert WriterSound(hash, s.disk, v);
        if Live(v.phase) { NextNameFree(s, e.pid, i); }
        OtherSound(hash, s.disk, u.disk, w, v);
      }
    }
  }

  lemma SpawnSound(hash: Hash, s: State, e: Event)
    requires Sound(hash, s) && Spawns(s, e) && Clean(s.disk, NextName(s, e.pid))
    ensures Sound(hash, Apply(hash, s, e))
  {
    OpenDiskSound(hash, s.disk, NextName(s, e.pid));
    SpawnWriters(hash, s, e);
    SpawnRegistered(hash, s, e);
  }

  lemma KilledWriters(hash: Hash, s: State, u: State)
    requires WritersSound(hash, s) && SomeKilled(s, u)
    ensures WritersSound(hash, u)
  {
    forall id | id in u.writers ensures WriterSound(hash, u.disk, u.writers[id]) {
      assert WriterSound(hash, s.disk, s.writers[id]);
      KilledWriter(hash, s.disk, s.writers[id]);
    }
  }

  lemma KilledSound(hash: Hash, s: State, e: Event)
    requires Sound(hash, s) && (e.Crash? || e.Kill? || e.Boot?)
    ensures Sound(hash, Apply(hash, s, e))
  {
    var u := Apply(hash, s, e);
    OnlyKills(hash, s, e);
    KilledRegistered(s, u);
    KilledWriters(hash, s, u);
  }

  /** No event opens a name that is still a link to a published file. */
  ghost predicate CleanEvent(s: State, e: Event) {
    Spawns(s, e) ==> Clean(s.disk, NextName(s, e.pid))
  }

  ghost predicate CleanRun(hash: Hash, s: State, events: seq<Event>)
    decreases |events|
  {
    events == [] || (CleanEvent(s, events[0]) && CleanRun(hash, Apply(hash, s, events[0]), events[1..]))
  }

  lemma EventSound(hash: Hash, s: State, e: Event)
    requires Wide(hash) && Sound(hash, s) && CleanEvent(s, e)
    ensures Sound(hash, Apply(hash, s, e))
  {
    if e.Advance? {
      if e.id in s.writers { StepSound(hash, s, e.id, e.chunk); }
    } else if e.Spawn? {
      if Spawns(s, e) { SpawnSound(hash, s, e); }
    } else {
      KilledSound(hash, s, e);
    }
  }

  // ---------------------------------------------------------------- whole runs

  /** In every run of any number of processes and calls, each possibly killed anywhere, that never
      opens a staging name still linked to a published file: published files are complete and
      digest to their names, location rows name published files, each path has at most one winner,
      live calls never share a file, and no call meets a collision. */
  lemma {:induction false} RunSound(hash: Hash, s: State, events: seq<Event>)
    requires Wide(hash) && Sound(hash, s) && CleanRun(hash, s, events)
    ensures Sound(hash, Run(hash, s, events))
    decreases |events|
  {
    if events != [] {
      EventSound(hash, s, events[0]);
      RunSound(hash, Apply(hash, s, events[0]), events[1..]);
    }
  }

  lemma StartSound(hash: Hash)
    ensures Sound(hash, START)
  {
  }

  lemma EventKeepsPublished(hash: Hash, s: State, e: Event)
    requires Wide(hash) && Sound(hash, s) && CleanEvent(s, e)
    ensures PublishedKept(s.disk, Apply(hash, s, e).disk)
  {
    if e.Advance? && e.id in s.writers {
      StepDisk(hash, s, e.id, e.chunk);
    } else if Spawns(s, e) {
      OpenKeepsIff(s.disk, NextName(s, e.pid));
    }
  }

  /** In every such run published bytes never change and are never unpublished by writers. */
  lemma {:induction false} PublishedNeverChanges(hash: Hash, s: State, events: seq<Event>)
    requires Wide(hash) && Sound(hash, s) && CleanRun(hash, s, events)
    ensures PublishedKept(s.disk, Run(hash, s, events).disk)
    decreases |events|
  {
    if events != [] {
      EventKeepsPublished(hash, s, events[0]);
      EventSound(hash, s, events[0]);
      PublishedNeverChanges(hash, Apply(hash, s, events[0]), events[1..]);
    }
  }

  // ---------------------------------------------------------------- the exact condition

  /** The event truncates a published file that has bytes in it. */
  ghost predicate Truncates(s: State, e: Event) {
    && Spawns(s, e) && !Clean(s.disk, NextName(s, e.pid))
    && s.disk.staging[NextName(s, e.pid)] < |s.disk.inodes| && s.disk.inodes[s.disk.staging[NextName(s, e.pid)]] != []
  }

  /** From any sound state, one event leaves everything published as it was exactly when it does
      not open a staging name that is still a link to a published file with bytes in it. */
  lemma EventKeepsIff(hash: Hash, s: State, e: Event)
    requires Wide(hash) && Sound(hash, s)
    ensures PublishedKept(s.disk, Apply(hash, s, e).disk) <==> !Truncates(s, e)
  {
    if Spawns(s, e) {
      OpenKeepsIff(s.disk, NextName(s, e.pid));
    } else {
      EventKeepsPublished(hash, s, e);
    }
  }

  lemma UncleanUnsound(hash: Hash, s: State, e: Event)
    requires Spawns(s, e) && !Clean(s.disk, NextName(s, e.pid))
    ensures !Sound(hash, Apply(hash, s, e))
  {
    var u := Apply(hash, s, e);
    assert !WriterSound(hash, u.disk, u.writers[e.id]);
  }

  /** Sound at every moment of the run. */
  ghost predicate AlwaysSound(hash: Hash, s: State, events: seq<Event>)
    decreases |events|
  {
    Sound(hash, s) && (events == [] || AlwaysSound(hash, Apply(hash, s, events[0]), events[1..]))
  }

  /** A run keeps the store sound at every moment exactly when it never opens a staging name that
      is still a link to a published file. */
  lemma {:induction false} RunSoundIff(hash: Hash, s: State, events: seq<Event>)
    requires Wide(hash) && Sound(hash, s)
    ensures AlwaysSound(hash, s, events) <==> CleanRun(hash, s, events)
    decreases |events|
  {
    if events != [] {
      if CleanEvent(s, events[0]) {
        EventSound(hash, s, events[0]);
        RunSoundIff(hash, Apply(hash, s, events[0]), events[1..]);
      } else {
        UncleanUnsound(hash, s, events[0]);
      }
    }
  }

  // ---------------------------------------------------------------- what is reported

  /** A reported success has its location row and its published file. A Stored call's file is
      exactly the bytes that call was given; a duplicate's digests the same, so it is the same
      bytes or the two are a hash collision. */
  lemma SuccessIsTrue(hash: Hash, events: seq<Event>, id: nat)
    requires Wide(hash) && CleanRun(hash, START, events)
    requires var ws := Run(hash, START, events).writers; id in ws && Succeeded(ws[id].phase)
    ensures var s := Run(hash, START, events); var w := s.writers[id]; var path := Target(w.declared);
      && (w.declared, path) in s.disk.locations && path in s.disk.published
      && hash(Content(s.disk, path)) == w.declared == hash(w.input)
      && (w.phase == Done(Stored) ==> Content(s.disk, path) == w.input)
  {
    var s := Run(hash, START, events);
    StartSound(hash);
    RunSound(hash, START, events);
    assert WriterSound(hash, s.disk, s.writers[id]);
    ExistingMatches(hash, s.disk, s.writers[id].declared);
  }

  // ---------------------------------------------------------------- progress

  /** The bytes are what was declared and fit the limits. */
  ghost predicate Honest(hash: Hash, w: Writer) {
    && hash(w.input) == w.declared
    && (w.limits.maxLogical.Some? ==> |w.input| <= w.limits.maxLogical.value)
    && (w.limits.expected.Some? ==> |w.input| == w.limits.expected.value)
  }

  /** Steps left, counting one byte a read. */
  function Rank(w: Writer): nat {
    match w.phase
    case Streaming(read) => (if read <= |w.input| then |w.input| - read else 0) + 9
    case StagingWritten => 8
    case StagingSynced => 7
    case Contended => 6
    case Linked => 5
    case DirectorySynced => 4
    case ObjectRecorded => 3
    case MetadataRecorded => 1
    case ExistingVerified => 3
    case ExistingObjectRecorded => 2
    case ExistingRecorded => 1
    case Mismatched => 3
    case IncomingPreserved => 2
    case IncidentRecorded => 1
    case Done(_) => 0
    case Killed => 0
  }

  ghost predicate OnCourse(hash: Hash, w: Writer) {
    Honest(hash, w) && ((Live(w.phase) && !Incident(w.phase)) || Succeeded(w.phase))
  }

  /** A turn takes a call on course one step further on course. */
  ghost predicate Progress(hash: Hash, w: Writer, v: Writer) {
    && v.declared == w.declared && v.name == w.name && OnCourse(hash, v)
    && (if Rank(w) > 0 then Rank(v) < Rank(w) else v == w)
  }

  lemma StreamProgress(hash: Hash, d: Disk, w: Writer, chunk: nat)
    requires PhaseSound(hash, w) && StagingSound(d, w) && OnCourse(hash, w) && chunk > 0 && w.phase.Streaming?
    ensures Progress(hash, w, TakeTurn(hash, d, w, chunk).writer)
  {
  }

  lemma ContendProgress(hash: Hash, d: Disk, w: Writer, chunk: nat)
    requires Wide(hash) && FilesComplete(hash, d) && WriterSound(hash, d, w) && OnCourse(hash, w) && w.phase.Contended?
    ensures Progress(hash, w, TakeTurn(hash, d, w, chunk).writer)
  {
    ContendedTarget(hash, d, w);
    ExistingMatches(hash, d, w.declared);
    assert TakeTurn(hash, d, w, chunk).writer == w.(phase := ExistingVerified);
  }

  lemma ContendedTarget(hash: Hash, d: Disk, w: Writer)
    requires Wide(hash) && WriterSound(hash, d, w) && OnCourse(hash, w) && w.phase.Contended?
    ensures |w.declared| == 32 && Target(w.declared) in d.published
  {
  }

  lemma RecordRank(hash: Hash, d: Disk, w: Writer, chunk: nat)
    requires Live(w.phase) && !w.phase.Streaming?
    ensures Rank(TakeTurn(hash, d, w, chunk).writer) < Rank(w)
  {
  }

  lemma RecordCourse(hash: Hash, d: Disk, w: Writer, chunk: nat)
    requires OnCourse(hash, w) && !w.phase.Streaming? && !w.phase.Contended?
    ensures var v := TakeTurn(hash, d, w, chunk).writer;
      OnCourse(hash, v) && v.declared == w.declared && v.name == w.name
  {
  }

  lemma RecordProgress(hash: Hash, d: Disk, w: Writer, chunk: nat)
    requires OnCourse(hash, w) && !w.phase.Streaming? && !w.phase.Contended?
    ensures Progress(hash, w, TakeTurn(hash, d, w, chunk).writer)
  {
    RecordCourse(hash, d, w, chunk);
    if Live(w.phase) { RecordRank(hash, d, w, chunk); }
  }

  lemma TurnProgress(hash: Hash, d: Disk, w: Writer, chunk: nat)
    requires Wide(hash) && FilesComplete(hash, d) && WriterSound(hash, d, w) && OnCourse(hash, w) && chunk > 0
    ensures Progress(hash, w, TakeTurn(hash, d, w, chunk).writer)
  {
    if w.phase.Streaming? {
      StreamProgress(hash, d, w, chunk);
    } else if w.phase.Contended? {
      ContendProgress(hash, d, w, chunk);
    } else {
      RecordProgress(hash, d, w, chunk);
    }
  }

  predicate OwnTurn(e: Event, id: nat) {
    e.Advance? && e.id == id
  }

  /** Turns given to one call. */
  function Turns(events: seq<Event>, id: nat): nat {
    if events == [] then 0
    else (if OwnTurn(events[0], id) then 1 else 0) + Turns(events[1..], id)
  }

  /** The event neither kills the call nor its process, and its turns read at least a byte. */
  predicate Undisturbed(e: Event, id: nat, pid: nat) {
    && (e.Kill? ==> e.id != id)
    && (e.Crash? ==> e.pid != pid)
    && (OwnTurn(e, id) ==> e.chunk > 0)
  }

  /** What happens elsewhere leaves a call as it is. */
  lemma ElsewhereKeeps(hash: Hash, s: State, e: Event, id: nat)
    requires id in s.writers && Undisturbed(e, id, s.writers[id].name.pid) && !OwnTurn(e, id)
    ensures id in Apply(hash, s, e).writers && Apply(hash, s, e).writers[id] == s.writers[id]
  {
  }

  /** Every event leaves a call on course, and its own turns take it further. */
  lemma EventProgress(hash: Hash, s: State, e: Event, id: nat)
    requires Wide(hash) && Sound(hash, s) && id in s.writers && OnCourse(hash, s.writers[id])
    requires Undisturbed(e, id, s.writers[id].name.pid)
    ensures id in Apply(hash, s, e).writers
    ensures var v := Apply(hash, s, e).writers[id]; var w := s.writers[id];
      if OwnTurn(e, id) then Progress(hash, w, v) else v == w
  {
    if OwnTurn(e, id) {
      assert WriterSound(hash, s.disk, s.writers[id]);
      TurnProgress(hash, s.disk, s.writers[id], e.chunk);
    } else {
      ElsewhereKeeps(hash, s, e, id);
    }
  }

  lemma TurnsStep(hash: Hash, events: seq<Event>, id: nat, w: Writer, v: Writer)
    requires events != [] && OnCourse(hash, w) && Turns(events, id) >= Rank(w)
    requires if OwnTurn(events[0], id) then Progress(hash, w, v) else v == w
    ensures OnCourse(hash, v) && Turns(events[1..], id) >= Rank(v) && v.name == w.name && v.declared == w.declared
  {
  }

  lemma FairStep(hash: Hash, s: State, events: seq<Event>, id: nat)
    requires Wide(hash) && Sound(hash, s) && events != []
    requires id in s.writers && OnCourse(hash, s.writers[id])
    requires Undisturbed(events[0], id, s.writers[id].name.pid) && Turns(events, id) >= Rank(s.writers[id])
    ensures id in Apply(hash, s, events[0]).writers
    ensures var v := Apply(hash, s, events[0]).writers[id]; var w := s.writers[id];
      OnCourse(hash, v) && Turns(events[1..], id) >= Rank(v) && v.name == w.name && v.declared == w.declared
  {
    EventProgress(hash, s, events[0], id);
    TurnsStep(hash, events, id, s.writers[id], Apply(hash, s, events[0]).writers[id]);
  }

  /** The call is done, and its row is in place. */
  ghost predicate Landed(u: State, id: nat, declared: Bytes) {
    && id in u.writers && Succeeded(u.writers[id].phase) && u.writers[id].declared == declared
    && (declared, Target(declared)) in u.disk.locations
  }

  lemma CourseEnds(hash: Hash, s: State, id: nat)
    requires Sound(hash, s) && id in s.writers && OnCourse(hash, s.writers[id]) && Rank(s.writers[id]) == 0
    ensures Landed(s, id, s.writers[id].declared)
  {
    assert WriterSound(hash, s.disk, s.writers[id]);
  }

  /** From any state of a clean run, a call with honest bytes that is not killed and gets enough
      turns ends Stored or IdempotentDuplicate with its location recorded, whatever the other
      calls do and wherever earlier ones died. */
  lemma {:induction false} FairWriterSucceeds(hash: Hash, s: State, events: seq<Event>, id: nat)
    requires Wide(hash) && Sound(hash, s) && CleanRun(hash, s, events)
    requires id in s.writers && OnCourse(hash, s.writers[id])
    requires forall e :: e in events ==> Undisturbed(e, id, s.writers[id].name.pid)
    requires Turns(events, id) >= Rank(s.writers[id])
    ensures Landed(Run(hash, s, events), id, s.writers[id].declared)
    decreases |events|
  {
    if events == [] {
      CourseEnds(hash, s, id);
    } else {
      var u := Apply(hash, s, events[0]);
      EventSound(hash, s, events[0]);
      FairStep(hash, s, events, id);
      assert forall x :: x in events[1..] ==> x in events;
      FairWriterSucceeds(hash, u, events[1..], id);
    }
  }

  /** A new call whose bytes digest to what it declares and fit its own limits. */
  ghost predicate Offers(hash: Hash, e: Event) {
    && e.Spawn? && e.declared == hash(e.input)
    && (e.limits.maxLogical.Some? ==> |e.input| <= e.limits.maxLogical.value)
    && (e.limits.expected.Some? ==> |e.input| == e.limits.expected.value)
  }

  lemma SpawnOnCourse(hash: Hash, s: State, retry: Event)
    requires Spawns(s, retry) && Offers(hash, retry)
    ensures var u := Apply(hash, s, retry);
      && retry.id in u.writers && OnCourse(hash, u.writers[retry.id]) && u.writers[retry.id].name.pid == retry.pid
      && u.writers[retry.id].declared == retry.declared && Rank(u.writers[retry.id]) == |retry.input| + 9
  {
  }

  /** The retry itself: after any clean run whatever, kills included, a new call of a running
      process with bytes that digest to what it declares, on a name that is no longer linked,
      succeeds once it has had its turns. */
  lemma RetrySucceeds(hash: Hash, before: seq<Event>, retry: Event, after: seq<Event>)
    requires Wide(hash) && CleanRun(hash, START, before)
    requires var s := Run(hash, START, before);
      Spawns(s, retry) && CleanEvent(s, retry) && CleanRun(hash, Apply(hash, s, retry), after)
    requires Offers(hash, retry)
    requires forall e :: e in after ==> Undisturbed(e, retry.id, retry.pid)
    requires Turns(after, retry.id) >= |retry.input| + 9
    ensures Landed(Run(hash, Apply(hash, Run(hash, START, before), retry), after), retry.id, retry.declared)
  {
    var s := Run(hash, START, before);
    StartSound(hash);
    RunSound(hash, START, before);
    EventSound(hash, s, retry);
    SpawnOnCourse(hash, s, retry);
    FairWriterSucceeds(hash, Apply(hash, s, retry), after, retry.id);
  }
}
