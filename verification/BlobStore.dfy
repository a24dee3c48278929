/** Atomic `put_if_absent` as a machine of any number of processes and concurrent calls over one
    file system, each call advancing one pipeline step at a time, calls and processes killed at
    any moment. File names are links to inodes, so a published file and the staging file it was
    linked from are one file until the staging name is removed. The content hash is a parameter. */
module BlobStore {
  import opened Prelude
  import opened Digests

  // ---------------------------------------------------------------- the published namespace

  /** "raw-v1". */
  const RAW_PROFILE: Bytes := [114, 97, 119, 45, 118, 49]

  const SLASH: byte := 47
  const DOT: byte := 46

  /** The pathname of a representation: fan-out directory, then logical id, profile and encoded
      digest, in hex. */
  function PublishedPath(logical: Bytes, profile: Bytes, encoded: Bytes): Bytes
    requires |logical| > 0
  {
    Hex(logical)[..2] + [SLASH] + Hex(logical) + [DOT] + profile + [DOT] + Hex(encoded)
  }

  /** Different representations never share a pathname. */
  lemma PathInjective(l: Bytes, p: Bytes, e: Bytes, m: Bytes, q: Bytes, f: Bytes)
    requires |l| == |m| == 32 && |e| == |f| == 32
    requires PublishedPath(l, p, e) == PublishedPath(m, q, f)
    ensures l == m && p == q && e == f
  {
    var s, t := PublishedPath(l, p, e), PublishedPath(m, q, f);
    assert s[3..67] == Hex(l) && t[3..67] == Hex(m);
    HexInjective(l, m);
    assert |s| == 3 + 64 + 1 + |p| + 1 + 64 && |t| == 3 + 64 + 1 + |q| + 1 + 64;
    assert s[|s|-64..] == Hex(e) && t[|t|-64..] == Hex(f);
    HexInjective(e, f);
    assert s[68..68+|p|] == p && t[68..68+|q|] == q;
  }

  /** `ab/abcd….raw-v1.abcd…`. */
  lemma PathText(logical: Bytes, encoded: Bytes)
    requires |logical| > 0
    ensures PublishedPath(logical, RAW_PROFILE, encoded) ==
      Hex(logical)[..2] + Ascii("/") + Hex(logical) + Ascii(".raw-v1.") + Hex(encoded)
  {
    ProfileText();
    var l := Hex(logical);
    Dotted(l[..2] + [SLASH] + l, RAW_PROFILE, Hex(encoded));
  }

  lemma ProfileText()
    ensures [SLASH] == Ascii("/") && [DOT] + RAW_PROFILE + [DOT] == Ascii(".raw-v1.")
  {
  }

  lemma Dotted(front: Bytes, profile: Bytes, back: Bytes)
    ensures front + [DOT] + profile + [DOT] + back == front + ([DOT] + profile + [DOT]) + back
  {
  }

  // ---------------------------------------------------------------- state

  datatype Limits = Limits(maxLogical: Option<nat>, expected: Option<nat>)

  datatype Outcome =
    | Stored | IdempotentDuplicate
    | LogicalLimitExceeded | SizeMismatch | DeclaredDigestMismatch | CollisionIncident | UnknownLocation

  /** Where a call stands between two pipeline steps. */
  datatype Phase =
    | Streaming(read: nat)
    | StagingWritten
    | StagingSynced
    | Linked
    | DirectorySynced
    | ObjectRecorded
    | MetadataRecorded
    | Contended
    | ExistingVerified
    | ExistingObjectRecorded
    | ExistingRecorded
    | Mismatched
    | IncomingPreserved
    | IncidentRecorded
    | Done(outcome: Outcome)
    | Killed

  /** `put-{pid}-{n}.tmp`: the process and its own count of calls. */
  datatype Name = Name(pid: nat, n: nat)

  /** One call. `fd` is the inode its open staging file is; `won` remembers that its link created
      the published file. */
  datatype Writer = Writer(
    declared: Bytes, input: Bytes, limits: Limits, full: bool, name: Name, fd: nat, phase: Phase, won: bool)

  datatype Row = Row(durable: bool, quarantined: bool)

  /** What outlives a process. An inode is an index into `inodes`; published, staging and
      quarantine names are links to inodes. */
  datatype Disk = Disk(
    inodes: seq<Bytes>,
    published: map<Bytes, nat>,
    staging: map<Name, nat>,
    quarantined: map<Name, nat>,
    objects: map<Bytes, nat>,
    incidents: set<Bytes>,
    locations: map<(Bytes, Bytes), Row>)

  /** `processes` maps each running process to the next value of its call counter. */
  datatype State = State(disk: Disk, processes: map<nat, nat>, writers: map<nat, Writer>)

  const EMPTY_DISK := Disk([], map[], map[], map[], map[], {}, map[])
  const START := State(EMPTY_DISK, map[], map[])

  datatype Event =
    | Boot(pid: nat)
    | Crash(pid: nat)
    | Spawn(id: nat, pid: nat, declared: Bytes, input: Bytes, limits: Limits, full: bool)
    | Advance(id: nat, chunk: nat)
    | Kill(id: nat)

  /** The raw-profile target of a declared object; a digest of the wrong width never verifies. */
  function Target(declared: Bytes): Bytes {
    if |declared| == 32 then PublishedPath(declared, RAW_PROFILE, declared) else []
  }

  /** What reading a published path returns. */
  function Content(d: Disk, path: Bytes): Bytes {
    if path in d.published && d.published[path] < |d.inodes| then d.inodes[d.published[path]] else []
  }

  // ---------------------------------------------------------------- opening a staging file

  function OpenedInode(d: Disk, name: Name): nat {
    if name in d.staging then d.staging[name] else |d.inodes|
  }

  /** `File::create`: a new empty file, or the truncation of the inode the name already links to. */
  function Open(d: Disk, name: Name): Disk {
    if name in d.staging then
      (if d.staging[name] < |d.inodes| then d.(inodes := d.inodes[d.staging[name] := []]) else d)
    else d.(inodes := d.inodes + [[]], staging := d.staging[name := |d.inodes|])
  }

  // ---------------------------------------------------------------- one step of one call

  /** The one effect a pipeline step has outside its own process. */
  datatype Action =
    | Nothing
    | Append(bytes: Bytes)
    | RemoveStaging
    | LinkStaging
    | RecordObject
    | RecordLocation
    | PreserveIncoming
    | RecordIncident
    | FlagLocation

  function Act(action: Action, d: Disk, w: Writer): Disk {
    match action
    case Nothing => d
    case Append(bytes) =>
      if w.fd < |d.inodes| then d.(inodes := d.inodes[w.fd := d.inodes[w.fd] + bytes]) else d
    case RemoveStaging => d.(staging := d.staging - {w.name})
    case LinkStaging =>
      if Target(w.declared) in d.published || w.name !in d.staging then d
      else d.(published := d.published[Target(w.declared) := d.staging[w.name]])
    case RecordObject => d.(objects := d.objects[w.declared := |w.input|])
    case RecordLocation => d.(locations := d.locations[(w.declared, Target(w.declared)) := Row(w.full, false)])
    case PreserveIncoming =>
      if w.name !in d.staging then d
      else d.(quarantined := d.quarantined[w.name := d.staging[w.name]], staging := d.staging - {w.name})
    case RecordIncident => d.(incidents := d.incidents + {w.declared})
    case FlagLocation =>
      var key := (w.declared, Target(w.declared));
      if key !in d.locations then d
      else d.(locations := d.locations[key := d.locations[key].(quarantined := true)])
  }

  datatype Turn = Turn(writer: Writer, action: Action)

  /** Reads at most `chunk` more bytes into the staging file, or finishes the stream and verifies
      size and identity. A refusal removes the staging name. */
  function StreamTurn(hash: Hash, w: Writer, read: nat, chunk: nat): Turn {
    if read < |w.input| then
      var total := if read + chunk < |w.input| then read + chunk else |w.input|;
      if w.limits.maxLogical.Some? && total > w.limits.maxLogical.value
      then Turn(w.(phase := Done(LogicalLimitExceeded)), RemoveStaging)
      else Turn(w.(phase := Streaming(total)), Append(w.input[read..total]))
    else if w.limits.expected.Some? && w.limits.expected.value != |w.input|
    then Turn(w.(phase := Done(SizeMismatch)), RemoveStaging)
    else if hash(w.input) != w.declared then Turn(w.(phase := Done(DeclaredDigestMismatch)), RemoveStaging)
    else Turn(w.(phase := StagingWritten), Nothing)
  }

  function TakeTurn(hash: Hash, d: Disk, w: Writer, chunk: nat): Turn {
    match w.phase
    case Streaming(read) => StreamTurn(hash, w, read, chunk)
    case StagingWritten => Turn(w.(phase := StagingSynced), Nothing)
    case StagingSynced =>
      // Create-exclusive: the link never overwrites.
      if Target(w.declared) in d.published then Turn(w.(phase := Contended), Nothing)
      else Turn(w.(phase := Linked, won := true), LinkStaging)
    case Linked => Turn(w.(phase := DirectorySynced), Nothing)
    case DirectorySynced => Turn(w.(phase := ObjectRecorded), RecordObject)
    case ObjectRecorded => Turn(w.(phase := MetadataRecorded), RecordLocation)
    case MetadataRecorded => Turn(w.(phase := Done(Stored)), RemoveStaging)
    case Contended =>
      if hash(Content(d, Target(w.declared))) == w.declared then Turn(w.(phase := ExistingVerified), Nothing)
      else Turn(w.(phase := Mismatched), Nothing)
    case ExistingVerified => Turn(w.(phase := ExistingObjectRecorded), RecordObject)
    case ExistingObjectRecorded => Turn(w.(phase := ExistingRecorded), RecordLocation)
    case ExistingRecorded => Turn(w.(phase := Done(IdempotentDuplicate)), RemoveStaging)
    case Mismatched => Turn(w.(phase := IncomingPreserved), PreserveIncoming)
    case IncomingPreserved => Turn(w.(phase := IncidentRecorded), RecordIncident)
    case IncidentRecorded =>
      if (w.declared, Target(w.declared)) in d.locations then Turn(w.(phase := Done(CollisionIncident)), FlagLocation)
      else Turn(w.(phase := Done(UnknownLocation)), Nothing)
    case Done(_) => Turn(w, Nothing)
    case Killed => Turn(w, Nothing)
  }

  // ---------------------------------------------------------------- runs

  /** Still running: it may act again. */
  predicate Live(p: Phase) {
    !p.Done? && !p.Killed?
  }

  function Step(hash: Hash, s: State, id: nat, chunk: nat): State
    requires id in s.writers
  {
    var turn := TakeTurn(hash, s.disk, s.writers[id], chunk);
    s.(disk := Act(turn.action, s.disk, s.writers[id]), writers := s.writers[id := turn.writer])
  }

  function KillWriter(w: Writer): Writer {
    if Live(w.phase) then w.(phase := Killed) else w
  }

  /** The name the next call of a process opens. */
  function NextName(s: State, pid: nat): Name {
    Name(pid, if pid in s.processes then s.processes[pid] else 0)
  }

  function Opened(d: Disk, name: Name, declared: Bytes, input: Bytes, limits: Limits, full: bool): Writer {
    Writer(declared, input, limits, full, name, OpenedInode(d, name), Streaming(0), false)
  }

  /** A new call of a running process; the call identity `id` is new. */
  predicate Spawns(s: State, e: Event) {
    e.Spawn? && e.pid in s.processes && e.id !in s.writers
  }

  function Apply(hash: Hash, s: State, e: Event): State {
    match e
    case Boot(pid) => if pid in s.processes then s else s.(processes := s.processes[pid := 0])
    case Crash(pid) =>
      s.(processes := s.processes - {pid},
         writers := map id | id in s.writers ::
           if s.writers[id].name.pid == pid then KillWriter(s.writers[id]) else s.writers[id])
    case Spawn(id, pid, declared, input, limits, full) =>
      if !Spawns(s, e) then s
      else
        var name := NextName(s, pid);
        State(Open(s.disk, name), s.processes[pid := s.processes[pid] + 1],
              s.writers[id := Opened(s.disk, name, declared, input, limits, full)])
    case Advance(id, chunk) => if id in s.writers then Step(hash, s, id, chunk) else s
    case Kill(id) => if id in s.writers then s.(writers := s.writers[id := KillWriter(s.writers[id])]) else s
  }

  function Run(hash: Hash, s: State, events: seq<Event>): State
    decreases |events|
  {
    if events == [] then s else Run(hash, Apply(hash, s, events[0]), events[1..])
  }

  lemma {:induction false} RunSnoc(hash: Hash, s: State, events: seq<Event>, e: Event)
    ensures Run(hash, s, events + [e]) == Apply(hash, Run(hash, s, events), e)
    decreases |events|
  {
    if events == [] {
      assert events + [e] == [e] && [e][1..] == [];
    } else {
      assert (events + [e])[1..] == events[1..] + [e];
      RunSnoc(hash, Apply(hash, s, events[0]), events[1..], e);
    }
  }
}
