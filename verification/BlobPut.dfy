/** `put_if_absent` as one process performs it, step by step and up to its fault point; every step
    it takes is a turn of the concurrent machine. */
module BlobPut {
  import opened Prelude
  import opened Digests
  import opened BlobStore
  import opened BlobRuns

  datatype FaultPoint = AtStagingWritten | AtStagingSynced | AtLinked | AtDirectorySynced | AtMetadataRecorded

  datatype PutResult = Finished(outcome: Outcome) | CrashInjected(at: FaultPoint)

  // ---------------------------------------------------------------- turns of one call

  /** The machine with one call in it, under the process that made it. */
  function Alone(d: Disk, w: Writer): State {
    State(d, map[w.name.pid := w.name.n + 1], map[0 := w])
  }

  function Advances(chunk: nat, n: nat): seq<Event> {
    if n == 0 then [] else Advances(chunk, n - 1) + [Advance(0, chunk)]
  }

  /** Reached from `d` and `w` by a run of turns of that call alone. */
  ghost predicate ByTurns(hash: Hash, chunk: nat, d: Disk, w: Writer, e: Disk, v: Writer) {
    && v.declared == w.declared && v.name == w.name
    && exists n: nat :: Run(hash, Alone(d, w), Advances(chunk, n)) == Alone(e, v)
  }

  lemma NoTurns(hash: Hash, chunk: nat, d: Disk, w: Writer)
    ensures ByTurns(hash, chunk, d, w, d, w)
  {
    assert Run(hash, Alone(d, w), Advances(chunk, 0)) == Alone(d, w);
  }

  lemma TurnKeepsNames(hash: Hash, d: Disk, w: Writer, chunk: nat)
    ensures var v := TakeTurn(hash, d, w, chunk).writer; v.declared == w.declared && v.name == w.name
  {
  }

  lemma AdvanceIsTurn(hash: Hash, chunk: nat, d: Disk, w: Writer)
    ensures var turn := TakeTurn(hash, d, w, chunk);
      Apply(hash, Alone(d, w), Advance(0, chunk)) == Alone(Act(turn.action, d, w), turn.writer)
  {
    TurnKeepsNames(hash, d, w, chunk);
    var v := TakeTurn(hash, d, w, chunk).writer;
    assert map[0 := w][0 := v] == map[0 := v];
  }

  lemma OneMoreTurn(hash: Hash, chunk: nat, d: Disk, w: Writer, e: Disk, v: Writer)
    requires ByTurns(hash, chunk, d, w, e, v)
    ensures var turn := TakeTurn(hash, e, v, chunk); ByTurns(hash, chunk, d, w, Act(turn.action, e, v), turn.writer)
  {
    var n: nat :| Run(hash, Alone(d, w), Advances(chunk, n)) == Alone(e, v);
    RunSnoc(hash, Alone(d, w), Advances(chunk, n), Advance(0, chunk));
    AdvanceIsTurn(hash, chunk, e, v);
    TurnKeepsNames(hash, e, v, chunk);
    assert Advances(chunk, n + 1) == Advances(chunk, n) + [Advance(0, chunk)];
  }

  /** The turn that reads one buffer, or finds it past the cap. */
  lemma ReadTurn(hash: Hash, chunk: nat, d: Disk, w: Writer, e: Disk, v: Writer, read: nat, total: nat)
    requires ByTurns(hash, chunk, d, w, e, v) && v.phase == Streaming(read) && read < |v.input| && v.fd < |e.inodes|
    requires total == if read + chunk < |v.input| then read + chunk else |v.input|
    ensures if v.limits.maxLogical.Some? && total > v.limits.maxLogical.value
      then ByTurns(hash, chunk, d, w, e.(staging := e.staging - {v.name}), v.(phase := Done(LogicalLimitExceeded)))
      else ByTurns(hash, chunk, d, w, e.(inodes := e.inodes[v.fd := e.inodes[v.fd] + v.input[read..total]]),
                   v.(phase := Streaming(total)))
  {
    OneMoreTurn(hash, chunk, d, w, e, v);
  }

  /** The turn that records the object row. */
  lemma ObjectTurn(hash: Hash, chunk: nat, d: Disk, w: Writer, e: Disk, v: Writer)
    requires ByTurns(hash, chunk, d, w, e, v) && (v.phase.DirectorySynced? || v.phase.ExistingVerified?)
    ensures ByTurns(hash, chunk, d, w, e.(objects := e.objects[v.declared := |v.input|]),
      v.(phase := if v.phase.DirectorySynced? then ObjectRecorded else ExistingObjectRecorded))
  {
    OneMoreTurn(hash, chunk, d, w, e, v);
  }

  /** The turn that records the location row. */
  lemma LocationTurn(hash: Hash, chunk: nat, d: Disk, w: Writer, e: Disk, v: Writer)
    requires ByTurns(hash, chunk, d, w, e, v) && (v.phase.ObjectRecorded? || v.phase.ExistingObjectRecorded?)
    ensures ByTurns(hash, chunk, d, w,
      e.(locations := e.locations[(v.declared, Target(v.declared)) := Row(v.full, false)]),
      v.(phase := if v.phase.ObjectRecorded? then MetadataRecorded else ExistingRecorded))
  {
    OneMoreTurn(hash, chunk, d, w, e, v);
  }

  /** The turn that removes the staging name and reports. */
  lemma CleanupTurn(hash: Hash, chunk: nat, d: Disk, w: Writer, e: Disk, v: Writer)
    requires ByTurns(hash, chunk, d, w, e, v) && (v.phase.MetadataRecorded? || v.phase.ExistingRecorded?)
    ensures ByTurns(hash, chunk, d, w, e.(staging := e.staging - {v.name}),
      v.(phase := Done(if v.phase.MetadataRecorded? then Stored else IdempotentDuplicate)))
  {
    OneMoreTurn(hash, chunk, d, w, e, v);
  }

  lemma SyncTurn(hash: Hash, chunk: nat, d: Disk, w: Writer, e: Disk, v: Writer)
    requires ByTurns(hash, chunk, d, w, e, v) && v.phase.Linked?
    ensures ByTurns(hash, chunk, d, w, e, v.(phase := DirectorySynced))
  {
    OneMoreTurn(hash, chunk, d, w, e, v);
  }

  lemma ContendTurn(hash: Hash, chunk: nat, d: Disk, w: Writer, e: Disk, v: Writer)
    requires ByTurns(hash, chunk, d, w, e, v) && v.phase.Contended?
    ensures ByTurns(hash, chunk, d, w, e,
      v.(phase := if hash(Content(e, Target(v.declared))) == v.declared then ExistingVerified else Mismatched))
  {
    OneMoreTurn(hash, chunk, d, w, e, v);
  }

  lemma PreserveTurn(hash: Hash, chunk: nat, d: Disk, w: Writer, e: Disk, v: Writer)
    requires ByTurns(hash, chunk, d, w, e, v) && v.phase.Mismatched? && v.name in e.staging
    ensures ByTurns(hash, chunk, d, w,
      e.(quarantined := e.quarantined[v.name := e.staging[v.name]], staging := e.staging - {v.name}),
      v.(phase := IncomingPreserved))
  {
    OneMoreTurn(hash, chunk, d, w, e, v);
  }

  lemma IncidentTurn(hash: Hash, chunk: nat, d: Disk, w: Writer, e: Disk, v: Writer)
    requires ByTurns(hash, chunk, d, w, e, v) && v.phase.IncomingPreserved?
    ensures ByTurns(hash, chunk, d, w, e.(incidents := e.incidents + {v.declared}), v.(phase := IncidentRecorded))
  {
    OneMoreTurn(hash, chunk, d, w, e, v);
  }

  /** The turn that flags the existing copy's location. */
  lemma FlagTurn(hash: Hash, chunk: nat, d: Disk, w: Writer, e: Disk, v: Writer)
    requires ByTurns(hash, chunk, d, w, e, v) && v.phase.IncidentRecorded?
    requires (v.declared, Target(v.declared)) in e.locations
    ensures var key := (v.declared, Target(v.declared));
      ByTurns(hash, chunk, d, w, e.(locations := e.locations[key := e.locations[key].(quarantined := true)]),
        v.(phase := Done(CollisionIncident)))
  {
    OneMoreTurn(hash, chunk, d, w, e, v);
  }

  lemma UnknownTurn(hash: Hash, chunk: nat, d: Disk, w: Writer, e: Disk, v: Writer)
    requires ByTurns(hash, chunk, d, w, e, v) && v.phase.IncidentRecorded?
    requires (v.declared, Target(v.declared)) !in e.locations
    ensures ByTurns(hash, chunk, d, w, e, v.(phase := Done(UnknownLocation)))
  {
    OneMoreTurn(hash, chunk, d, w, e, v);
  }

  lemma {:induction false} AdvancesOnly(chunk: nat, n: nat)
    ensures forall e :: e in Advances(chunk, n) ==> e.Advance?
  {
    if n > 0 { AdvancesOnly(chunk, n - 1); }
  }

  lemma {:induction false} AdvancesClean(hash: Hash, s: State, events: seq<Event>)
    requires forall e :: e in events ==> e.Advance?
    ensures CleanRun(hash, s, events)
    decreases |events|
  {
    if events != [] {
      assert events[0] in events;
      AdvancesClean(hash, Apply(hash, s, events[0]), events[1..]);
    }
  }

  /** The process about to make the call. */
  function Before(d: Disk, name: Name): State {
    State(d, map[name.pid := name.n], map[])
  }

  function SpawnOf(w: Writer): Event {
    Spawn(0, w.name.pid, w.declared, w.input, w.limits, w.full)
  }

  lemma SpawnAlone(hash: Hash, d: Disk, w: Writer)
    requires w == Opened(d, w.name, w.declared, w.input, w.limits, w.full)
    ensures Spawns(Before(d, w.name), SpawnOf(w)) && NextName(Before(d, w.name), w.name.pid) == w.name
    ensures Apply(hash, Before(d, w.name), SpawnOf(w)) == Alone(Open(d, w.name), w)
  {
    assert map[w.name.pid := w.name.n][w.name.pid := w.name.n + 1] == map[w.name.pid := w.name.n + 1];
  }

  lemma OpenedSound(hash: Hash, d: Disk, w: Writer)
    requires Wide(hash) && DiskSound(hash, d) && Clean(d, w.name)
    requires w == Opened(d, w.name, w.declared, w.input, w.limits, w.full)
    ensures Sound(hash, Alone(Open(d, w.name), w)) && PublishedKept(d, Open(d, w.name))
  {
    SpawnAlone(hash, d, w);
    assert Sound(hash, Before(d, w.name));
    EventSound(hash, Before(d, w.name), SpawnOf(w));
    OpenKeepsIff(d, w.name);
  }

  lemma KeptTransitive(a: Disk, b: Disk, c: Disk)
    requires PublishedKept(a, b) && PublishedKept(b, c)
    ensures PublishedKept(a, c)
  {
  }

  lemma AdvancesKeep(hash: Hash, chunk: nat, s: State, n: nat)
    requires Wide(hash) && Sound(hash, s)
    ensures var u := Run(hash, s, Advances(chunk, n)); Sound(hash, u) && PublishedKept(s.disk, u.disk)
  {
    AdvancesOnly(chunk, n);
    AdvancesClean(hash, s, Advances(chunk, n));
    RunSound(hash, s, Advances(chunk, n));
    PublishedNeverChanges(hash, s, Advances(chunk, n));
  }

  /** Whatever turns a call takes, from opening a clean name on a sound disk, leave the disk sound
      and everything published as it was, wherever the call stops. */
  lemma TurnsKeepDisk(hash: Hash, chunk: nat, d: Disk, w: Writer, e: Disk, v: Writer)
    requires Wide(hash) && DiskSound(hash, d) && Clean(d, w.name)
    requires w == Opened(d, w.name, w.declared, w.input, w.limits, w.full)
    requires ByTurns(hash, chunk, Open(d, w.name), w, e, v)
    ensures DiskSound(hash, e) && PublishedKept(d, e) && v.declared == w.declared && WriterSound(hash, e, v)
  {
    var first := Alone(Open(d, w.name), w);
    var n: nat :| Run(hash, first, Advances(chunk, n)) == Alone(e, v);
    OpenedSound(hash, d, w);
    AdvancesKeep(hash, chunk, first, n);
    KeptTransitive(d, Open(d, w.name), e);
    assert WriterSound(hash, e, Alone(e, v).writers[0]);
  }

  // ---------------------------------------------------------------- the process

  /** The machine's phase at a fault point. */
  function PhaseAt(at: FaultPoint): Phase {
    match at
    case AtStagingWritten => StagingWritten
    case AtStagingSynced => StagingSynced
    case AtLinked => Linked
    case AtDirectorySynced => DirectorySynced
    case AtMetadataRecorded => MetadataRecorded
  }

  ghost predicate Ended(r: PutResult, v: Writer) {
    match r
    case Finished(outcome) => v.phase == Done(outcome)
    case CrashInjected(at) => v.phase == PhaseAt(at)
  }

  // ---------------------------------------------------------------- what the disk shows afterwards

  /** The file behind one inode grows by these bytes. */
  function Appended(inodes: seq<Bytes>, fd: nat, bytes: Bytes): seq<Bytes>
    requires fd < |inodes|
  {
    inodes[fd := inodes[fd] + bytes]
  }

  lemma AppendMore(inodes: seq<Bytes>, fd: nat, input: Bytes, read: nat, total: nat)
    requires fd < |inodes| && read <= total <= |input|
    ensures var m := Appended(inodes, fd, input[..read]);
      m[fd := m[fd] + input[read..total]] == Appended(inodes, fd, input[..total])
  {
    assert input[..read] + input[read..total] == input[..total];
    assert inodes[fd] + input[..read] + input[read..total] == inodes[fd] + input[..total];
  }

  /** Only file contents and the one staging name differ. */
  ghost predicate OnlyStaging(d: Disk, e: Disk, name: Name) {
    && e == d.(inodes := e.inodes, staging := e.staging)
    && e.staging - {name} == d.staging - {name}
    && |d.inodes| <= |e.inodes|
    && forall i :: 0 <= i < |d.inodes| && i != OpenedInode(d, name) ==> e.inodes[i] == d.inodes[i]
  }

  lemma StagingOnly(d: Disk, m: Disk, e: Disk, name: Name)
    requires OnlyStaging(d, m, name) && e == m.(inodes := e.inodes, staging := e.staging)
    requires e.staging == m.staging || e.staging == m.staging - {name}
    requires var fd := OpenedInode(d, name); fd < |m.inodes| == |e.inodes| && e.inodes == m.inodes[fd := e.inodes[fd]]
    ensures OnlyStaging(d, e, name)
  {
    assert m.staging - {name} - {name} == m.staging - {name};
  }

  /** The whole input is in the staging file, and nothing else has changed. */
  ghost predicate Staged(d: Disk, e: Disk, name: Name, input: Bytes) {
    && OnlyStaging(d, e, name)
    && name in e.staging && e.staging[name] == OpenedInode(d, name) < |e.inodes|
    && e.inodes[e.staging[name]] == input
  }

  /** A refusal leaves no staging name and nothing else behind. */
  ghost predicate RefusedOn(d: Disk, e: Disk, name: Name) {
    OnlyStaging(d, e, name) && name !in e.staging
  }

  /** The path is newly a link to the staged file; rows and the staging name as given. */
  ghost predicate LinkedOn(m: Disk, e: Disk, name: Name, declared: Bytes) {
    && name in m.staging && Target(declared) !in m.published
    && e == m.(published := m.published[Target(declared) := m.staging[name]], objects := e.objects,
               locations := e.locations, staging := e.staging)
  }

  ghost predicate RowsOn(m: Disk, e: Disk, declared: Bytes, size: nat, full: bool) {
    && e.objects == m.objects[declared := size]
    && e.locations == m.locations[(declared, Target(declared)) := Row(full, false)]
  }

  /** A file already published under the path, and left alone, has the declared digest. */
  ghost predicate ConcededOn(hash: Hash, m: Disk, e: Disk, name: Name, declared: Bytes, size: nat, full: bool) {
    && Target(declared) in m.published && hash(Content(m, Target(declared))) == declared
    && e == m.(objects := e.objects, locations := e.locations, staging := m.staging - {name})
    && RowsOn(m, e, declared, size, full)
  }

  /** It does not: both files are kept, the incoming one in quarantine, and the incident recorded;
      the location is flagged if there is one. */
  ghost predicate IncidentOn(hash: Hash, m: Disk, e: Disk, name: Name, declared: Bytes, flagged: bool) {
    var key := (declared, Target(declared));
    && Target(declared) in m.published && hash(Content(m, Target(declared))) != declared
    && name in m.staging && flagged == (key in m.locations)
    && e == m.(quarantined := m.quarantined[name := m.staging[name]], staging := m.staging - {name},
               incidents := m.incidents + {declared}, locations := e.locations)
    && e.locations == if flagged then m.locations[key := m.locations[key].(quarantined := true)] else m.locations
  }

  /** What publishing a staged file leaves, answer by answer. */
  ghost predicate PublishMeans(hash: Hash, m: Disk, e: Disk, name: Name, declared: Bytes, size: nat, full: bool,
                               r: PutResult)
  {
    match r
    case Finished(Stored) =>
      LinkedOn(m, e, name, declared) && RowsOn(m, e, declared, size, full) && e.staging == m.staging - {name}
    case Finished(IdempotentDuplicate) => ConcededOn(hash, m, e, name, declared, size, full)
    case Finished(CollisionIncident) => IncidentOn(hash, m, e, name, declared, true)
    case Finished(UnknownLocation) => IncidentOn(hash, m, e, name, declared, false)
    case Finished(_) => false
    case CrashInjected(AtStagingWritten) => e == m
    case CrashInjected(AtStagingSynced) => e == m
    case CrashInjected(AtMetadataRecorded) =>
      LinkedOn(m, e, name, declared) && RowsOn(m, e, declared, size, full) && e.staging == m.staging
    case CrashInjected(_) =>
      && LinkedOn(m, e, name, declared)
      && e.objects == m.objects && e.locations == m.locations && e.staging == m.staging
  }

  class Directory {
    const hash: Hash
    var disk: Disk

    constructor (hash: Hash, disk: Disk)
      ensures this.hash == hash && this.disk == disk
    {
      this.hash := hash;
      this.disk := disk;
    }

    /** `File::create` on the staging name. */
    method CreateStaging(name: Name) returns (fd: nat)
      modifies this`disk
      ensures disk == Open(old(disk), name) && fd == OpenedInode(old(disk), name)
      ensures name in disk.staging
      ensures OnlyStaging(old(disk), disk, name) && disk.staging[name] == fd
      ensures (name in old(disk).staging ==> fd < |old(disk).inodes|) ==> fd < |disk.inodes| && disk.inodes[fd] == []
    {
      if name in disk.staging {
        fd := disk.staging[name];
        if fd < |disk.inodes| { disk := disk.(inodes := disk.inodes[fd := []]); }
      } else {
        fd := |disk.inodes|;
        disk := disk.(inodes := disk.inodes + [[]], staging := disk.staging[name := fd]);
      }
    }

    /** The reading loop: every buffer is counted against the cap before it is written. */
    method StreamToStaging(name: Name, fd: nat, input: Bytes, limits: Limits, chunk: nat,
                           ghost d0: Disk, ghost w0: Writer, ghost w: Writer)
      returns (r: Option<Outcome>, ghost v: Writer)
      requires chunk > 0 && w.name == name && w.fd == fd && w.input == input && w.limits == limits
      requires w.phase == Streaming(0)
      requires name in disk.staging && fd < |disk.inodes| && ByTurns(hash, chunk, d0, w0, disk, w)
      modifies this`disk
      ensures ByTurns(hash, chunk, d0, w0, disk, v) && v == w.(phase := v.phase)
      ensures v.phase == if r.Some? then Done(r.value) else Streaming(|input|)
      ensures r ==
        if limits.maxLogical.Some? && |input| > limits.maxLogical.value then Some(LogicalLimitExceeded) else None
      ensures disk == old(disk).(inodes := disk.inodes, staging := disk.staging)
      ensures |disk.inodes| == |old(disk).inodes| && disk.inodes == old(disk).inodes[fd := disk.inodes[fd]]
      ensures r.Some? ==> disk.staging == old(disk).staging - {name}
      ensures r.None? ==> disk.staging == old(disk).staging && disk.inodes[fd] == old(disk).inodes[fd] + input
    {
      var read: nat := 0;
      v := w;
      assert disk.inodes[fd] + input[..0] == disk.inodes[fd];
      while read < |input|
        invariant read <= |input| && v == w.(phase := Streaming(read)) && name in disk.staging && fd < |disk.inodes|
        invariant ByTurns(hash, chunk, d0, w0, disk, v)
        invariant limits.maxLogical.Some? ==> read <= limits.maxLogical.value
        invariant |disk.inodes| == |old(disk).inodes|
        invariant disk == old(disk).(inodes := disk.inodes)
        invariant disk.inodes == Appended(old(disk).inodes, fd, input[..read])
      {
        var total := if read + chunk < |input| then read + chunk else |input|;
        ReadTurn(hash, chunk, d0, w0, disk, v, read, total);
        if limits.maxLogical.Some? && total > limits.maxLogical.value {
          disk := disk.(staging := disk.staging - {name});
          return Some(LogicalLimitExceeded), w.(phase := Done(LogicalLimitExceeded));
        }
        AppendMore(old(disk).inodes, fd, input, read, total);
        disk := disk.(inodes := disk.inodes[fd := disk.inodes[fd] + input[read..total]]);
        read := total;
        v := w.(phase := Streaming(read));
      }
      assert input[..|input|] == input;
      r := None;
    }

    /** Size and digest of what was staged. */
    method VerifyStaged(name: Name, declared: Bytes, input: Bytes, limits: Limits, chunk: nat,
                        ghost d0: Disk, ghost w0: Writer, ghost w: Writer)
      returns (r: Option<Outcome>, ghost v: Writer)
      requires w.name == name && w.declared == declared && w.input == input && w.limits == limits
      requires w.phase == Streaming(|input|) && name in disk.staging && ByTurns(hash, chunk, d0, w0, disk, w)
      modifies this`disk
      ensures ByTurns(hash, chunk, d0, w0, disk, v) && v == w.(phase := v.phase)
      ensures v.phase == if r.Some? then Done(r.value) else StagingWritten
      ensures r ==
        if limits.expected.Some? && limits.expected.value != |input| then Some(SizeMismatch)
        else if hash(input) != declared then Some(DeclaredDigestMismatch)
        else None
      ensures disk == if r.Some? then old(disk).(staging := old(disk).staging - {name}) else old(disk)
    {
      OneMoreTurn(hash, chunk, d0, w0, disk, w);
      if limits.expected.Some? && limits.expected.value != |input| {
        disk := disk.(staging := disk.staging - {name});
        return Some(SizeMismatch), w.(phase := Done(SizeMismatch));
      }
      if hash(input) != declared {
        disk := disk.(staging := disk.staging - {name});
        return Some(DeclaredDigestMismatch), w.(phase := Done(DeclaredDigestMismatch));
      }
      return None, w.(phase := StagingWritten);
    }

    /** The incoming file is preserved, the object quarantined and the existing copy flagged. */
    method OpenIncident(name: Name, declared: Bytes, chunk: nat, ghost d0: Disk, ghost w0: Writer, ghost w: Writer)
      returns (outcome: Outcome, ghost v: Writer)
      requires w.name == name && w.declared == declared && w.phase == Mismatched
      requires name in disk.staging && ByTurns(hash, chunk, d0, w0, disk, w)
      modifies this`disk
      ensures ByTurns(hash, chunk, d0, w0, disk, v) && v == w.(phase := Done(outcome))
      ensures outcome == CollisionIncident || outcome == UnknownLocation
      ensures Target(declared) in old(disk).published && hash(Content(old(disk), Target(declared))) != declared ==>
        IncidentOn(hash, old(disk), disk, name, declared, outcome == CollisionIncident)
    {
      PreserveTurn(hash, chunk, d0, w0, disk, w);
      disk := disk.(quarantined := disk.quarantined[name := disk.staging[name]], staging := disk.staging - {name});
      v := w.(phase := IncomingPreserved);
      IncidentTurn(hash, chunk, d0, w0, disk, v);
      disk := disk.(incidents := disk.incidents + {declared});
      v := w.(phase := IncidentRecorded);
      var key := (declared, Target(declared));
      if key !in disk.locations {
        UnknownTurn(hash, chunk, d0, w0, disk, v);
        return UnknownLocation, w.(phase := Done(UnknownLocation));
      }
      FlagTurn(hash, chunk, d0, w0, disk, v);
      disk := disk.(locations := disk.locations[key := disk.locations[key].(quarantined := true)]);
      return CollisionIncident, w.(phase := Done(CollisionIncident));
    }

    /** The object row, then the location row. */
    method WriteRows(declared: Bytes, size: nat, full: bool, chunk: nat,
                     ghost d0: Disk, ghost w0: Writer, ghost w: Writer)
      returns (ghost v: Writer)
      requires w.declared == declared && |w.input| == size && w.full == full
      requires w.phase.DirectorySynced? || w.phase.ExistingVerified?
      requires ByTurns(hash, chunk, d0, w0, disk, w)
      modifies this`disk
      ensures ByTurns(hash, chunk, d0, w0, disk, v)
      ensures v == w.(phase := if w.phase.DirectorySynced? then MetadataRecorded else ExistingRecorded)
      ensures disk == old(disk).(objects := disk.objects, locations := disk.locations)
      ensures RowsOn(old(disk), disk, declared, size, full)
    {
      ObjectTurn(hash, chunk, d0, w0, disk, w);
      disk := disk.(objects := disk.objects[declared := size]);
      v := w.(phase := if w.phase.DirectorySynced? then ObjectRecorded else ExistingObjectRecorded);
      LocationTurn(hash, chunk, d0, w0, disk, v);
      disk := disk.(locations := disk.locations[(declared, Target(declared)) := Row(full, false)]);
      v := w.(phase := if w.phase.DirectorySynced? then MetadataRecorded else ExistingRecorded);
    }

    /** The link was refused: verify the existing file before conceding. */
    method HandleExisting(name: Name, declared: Bytes, size: nat, full: bool, chunk: nat,
                          ghost d0: Disk, ghost w0: Writer, ghost w: Writer)
      returns (outcome: Outcome, ghost v: Writer)
      requires w.name == name && w.declared == declared && |w.input| == size && w.full == full && w.phase == Contended
      requires name in disk.staging && Target(declared) in disk.published && ByTurns(hash, chunk, d0, w0, disk, w)
      modifies this`disk
      ensures ByTurns(hash, chunk, d0, w0, disk, v) && v == w.(phase := Done(outcome))
      ensures outcome != Stored && PublishMeans(hash, old(disk), disk, name, declared, size, full, Finished(outcome))
    {
      ContendTurn(hash, chunk, d0, w0, disk, w);
      if hash(Content(disk, Target(declared))) != declared {
        v := w.(phase := Mismatched);
        outcome, v := OpenIncident(name, declared, chunk, d0, w0, v);
        return;
      }
      v := w.(phase := ExistingVerified);
      v := WriteRows(declared, size, full, chunk, d0, w0, v);
      CleanupTurn(hash, chunk, d0, w0, disk, v);
      disk := disk.(staging := disk.staging - {name});
      return IdempotentDuplicate, w.(phase := Done(IdempotentDuplicate));
    }

    /** The staging name goes, and the call reports. */
    method RemoveStaging(name: Name, chunk: nat, ghost d0: Disk, ghost w0: Writer, ghost w: Writer)
      requires w.name == name && w.phase == MetadataRecorded && ByTurns(hash, chunk, d0, w0, disk, w)
      modifies this`disk
      ensures disk == old(disk).(staging := old(disk).staging - {name})
      ensures ByTurns(hash, chunk, d0, w0, disk, w.(phase := Done(Stored)))
    {
      CleanupTurn(hash, chunk, d0, w0, disk, w);
      disk := disk.(staging := disk.staging - {name});
    }

    /** After the link: directory sync, rows, cleanup. */
    method RecordPublished(name: Name, declared: Bytes, size: nat, full: bool, chunk: nat, fault: Option<FaultPoint>,
                           ghost d0: Disk, ghost w0: Writer, ghost w: Writer)
      returns (r: PutResult, ghost v: Writer)
      requires w.name == name && w.declared == declared && |w.input| == size && w.full == full && w.phase == Linked
      requires ByTurns(hash, chunk, d0, w0, disk, w)
      modifies this`disk
      ensures ByTurns(hash, chunk, d0, w0, disk, v) && Ended(r, v)
      ensures disk == old(disk).(objects := disk.objects, locations := disk.locations, staging := disk.staging)
      ensures r.CrashInjected? ==> fault == Some(r.at)
      ensures match fault
        case Some(AtLinked) => r == CrashInjected(AtLinked) && disk == old(disk)
        case Some(AtDirectorySynced) => r == CrashInjected(AtDirectorySynced) && disk == old(disk)
        case Some(AtMetadataRecorded) =>
          && r == CrashInjected(AtMetadataRecorded)
          && RowsOn(old(disk), disk, declared, size, full) && disk.staging == old(disk).staging
        case _ =>
          && r == Finished(Stored)
          && RowsOn(old(disk), disk, declared, size, full) && disk.staging == old(disk).staging - {name}
    {
      v := w;
      if fault == Some(AtLinked) { return CrashInjected(AtLinked), v; }
      SyncTurn(hash, chunk, d0, w0, disk, v);
      v := w.(phase := DirectorySynced);
      if fault == Some(AtDirectorySynced) { return CrashInjected(AtDirectorySynced), v; }
      v := WriteRows(declared, size, full, chunk, d0, w0, v);
      if fault == Some(AtMetadataRecorded) { return CrashInjected(AtMetadataRecorded), v; }
      RemoveStaging(name, chunk, d0, w0, v);
      return Finished(Stored), w.(phase := Done(Stored));
    }

    /** `publish_staged_inner`: the link gives the staged inode its published name and never
        overwrites. */
    method PublishStaged(name: Name, declared: Bytes, size: nat, full: bool, chunk: nat, fault: Option<FaultPoint>,
                         ghost d0: Disk, ghost w0: Writer, ghost w: Writer)
      returns (r: PutResult, ghost v: Writer)
      requires w.name == name && w.declared == declared && |w.input| == size && w.full == full
      requires w.phase == StagingWritten
      requires name in disk.staging && ByTurns(hash, chunk, d0, w0, disk, w)
      modifies this`disk
      ensures ByTurns(hash, chunk, d0, w0, disk, v) && Ended(r, v)
      ensures PublishMeans(hash, old(disk), disk, name, declared, size, full, r)
      ensures r.CrashInjected? ==> fault == Some(r.at)
      ensures fault == Some(AtStagingSynced) ==> r == CrashInjected(AtStagingSynced)
      ensures Target(declared) !in old(disk).published && fault.Some? && fault.value != AtStagingWritten ==>
        r == CrashInjected(fault.value)
    {
      OneMoreTurn(hash, chunk, d0, w0, disk, w);
      v := w.(phase := StagingSynced);
      if fault == Some(AtStagingSynced) { return CrashInjected(AtStagingSynced), v; }
      OneMoreTurn(hash, chunk, d0, w0, disk, v);
      if Target(declared) in disk.published {
        v := w.(phase := Contended);
        var outcome;
        outcome, v := HandleExisting(name, declared, size, full, chunk, d0, w0, v);
        return Finished(outcome), v;
      }
      disk := disk.(published := disk.published[Target(declared) := disk.staging[name]]);
      v := w.(phase := Linked, won := true);
      r, v := RecordPublished(name, declared, size, full, chunk, fault, d0, w0, v);
    }

    /** The first half of a put: the input is staged and verified, or refused for what it is. */
    method StageInput(name: Name, declared: Bytes, input: Bytes, limits: Limits, chunk: nat,
                      ghost w: Writer)
      returns (refused: Option<Outcome>, ghost v: Writer)
      requires chunk > 0 && (name in disk.staging ==> disk.staging[name] < |disk.inodes|)
      requires w == Opened(disk, name, declared, input, limits, w.full)
      modifies this`disk
      ensures ByTurns(hash, chunk, Open(old(disk), name), w, disk, v) && v == w.(phase := v.phase)
      ensures v.phase == if refused.Some? then Done(refused.value) else StagingWritten
      ensures refused ==
        if limits.maxLogical.Some? && |input| > limits.maxLogical.value then Some(LogicalLimitExceeded)
        else if limits.expected.Some? && |input| != limits.expected.value then Some(SizeMismatch)
        else if hash(input) != declared then Some(DeclaredDigestMismatch)
        else None
      ensures if refused.Some? then RefusedOn(old(disk), disk, name) else Staged(old(disk), disk, name, input)
    {
      var fd := CreateStaging(name);
      ghost var d0 := disk;
      NoTurns(hash, chunk, d0, w);
      refused, v := StreamToStaging(name, fd, input, limits, chunk, d0, w, w);
      assert [] + input == input;
      StagingOnly(old(disk), d0, disk, name);
      if refused.Some? { return; }
      refused, v := VerifyStaged(name, declared, input, limits, chunk, d0, w, v);
    }

    /** `put_if_absent_with_fault` on whatever staging name the process has come to: whatever its
        fault point, the call is a run of turns of one call of the machine, ending in the reported
        outcome or at the fault point's phase. Which refusal it gives is decided by the input alone
        and leaves nothing behind; every other answer is what publishing the staged input left. */
    method PutIfAbsent(name: Name, declared: Bytes, input: Bytes, limits: Limits, full: bool, chunk: nat,
                       fault: Option<FaultPoint>)
      returns (r: PutResult, ghost v: Writer, ghost staged: Disk)
      requires chunk > 0 && (name in disk.staging ==> disk.staging[name] < |disk.inodes|)
      modifies this`disk
      ensures ByTurns(
        hash, chunk, Open(old(disk), name), Opened(old(disk), name, declared, input, limits, full), disk, v)
      ensures Ended(r, v) && (r.CrashInjected? ==> fault == Some(r.at))
      ensures
        if limits.maxLogical.Some? && |input| > limits.maxLogical.value then
          r == Finished(LogicalLimitExceeded) && RefusedOn(old(disk), disk, name)
        else if limits.expected.Some? && |input| != limits.expected.value then
          r == Finished(SizeMismatch) && RefusedOn(old(disk), disk, name)
        else if hash(input) != declared then
          r == Finished(DeclaredDigestMismatch) && RefusedOn(old(disk), disk, name)
        else
          && Staged(old(disk), staged, name, input)
          && PublishMeans(hash, staged, disk, name, declared, |input|, full, r)
          && (fault in {Some(AtStagingWritten), Some(AtStagingSynced)} ==> r == CrashInjected(fault.value))
          && (fault.Some? && Target(declared) !in old(disk).published ==> r == CrashInjected(fault.value))
    {
      ghost var w0 := Opened(disk, name, declared, input, limits, full);
      ghost var d0 := Open(disk, name);
      var refused;
      refused, v := StageInput(name, declared, input, limits, chunk, w0);
      staged := disk;
      if refused.Some? { return Finished(refused.value), v, staged; }
      if fault == Some(AtStagingWritten) { return CrashInjected(AtStagingWritten), v, staged; }
      r, v := PublishStaged(name, declared, |input|, full, chunk, fault, d0, w0, v);
    }

    /** A put on a sound disk, killed at any fault point or not, on any staging name: if the name is
        not still a link to a published file, files stay complete, rows name published files,
        nothing published changes, and a reported success is recorded. */
    method PutSoundly(name: Name, declared: Bytes, input: Bytes, limits: Limits, full: bool, chunk: nat,
                      fault: Option<FaultPoint>)
      returns (r: PutResult)
      requires chunk > 0 && Wide(hash) && DiskSound(hash, disk)
      modifies this`disk
      ensures Clean(old(disk), name) ==> DiskSound(hash, disk) && PublishedKept(old(disk), disk)
      ensures Clean(old(disk), name) && (r == Finished(Stored) || r == Finished(IdempotentDuplicate)) ==>
        (declared, Target(declared)) in disk.locations && Target(declared) in disk.published
    {
      ghost var before := disk;
      ghost var v, staged;
      r, v, staged := PutIfAbsent(name, declared, input, limits, full, chunk, fault);
      if Clean(before, name) {
        TurnsKeepDisk(hash, chunk, before, Opened(before, name, declared, input, limits, full), disk, v);
      }
    }
  }
}
