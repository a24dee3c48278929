/** Out-of-order transfer of one object with crash recovery: data is durable before its range is
    journalled, and a resume trusts only what the journal still shows and the file still holds. */
module SparseTransfer {
  import opened Prelude
  import opened Digests
  import opened Ranges
  import opened RangeRecords
  import Journal

  /** What a transfer is opened with, and the two hashes it uses: the journal's and the object's. */
  datatype Job = Job(blake: Hash, digest: Hash, declared: Bytes, total: u64)

  /** One attempt on disk: the sparse file, whether the published name is a link to it, the bytes
      of the range journal, and what the published name holds. */
  datatype Dir = Dir(file: Option<Bytes>, linked: bool, journal: Bytes, published: Option<Bytes>)

  const EMPTY_DIR: Dir := Dir(None, false, [], None)

  datatype Ack = Committed | DuplicateIdempotent

  datatype Outcome = Stored | IdempotentDuplicate

  datatype SparseError =
    | ZeroLengthRange
    | RangeOutOfBounds
    | RangeOverlap
    | Incomplete(missing: seq<Range>)
    | RangeVerificationFailed(range: Range)
    | DeclaredDigestMismatch
    | CollisionIncident
    | Interrupted

  /** Where a process dies inside a range write: part of the data written, or all of it and the
      first bytes of the record's frame. */
  datatype Fault = DuringData(written: nat) | DuringAppend(appended: nat)

  /** Where a process dies inside `finish`: before the link, after it, or with the staged name
      gone and the directory not yet swept. */
  datatype FinishFault = BeforeLink | BeforeRemoval | BeforeSweep

  function Head(b: Bytes, n: nat): Bytes {
    if n < |b| then b[..n] else b
  }

  function FrameSum(blake: Hash): Journal.Checksum {
    (p: Bytes) => Head(blake(p), 4)
  }

  /** `range_checksum`: the first sixteen hash bytes, in hexadecimal. */
  function RangeSum(blake: Hash, b: Bytes): Bytes {
    Hex(Head(blake(b), 16))
  }

  function Slice(b: Bytes, r: Range): Bytes
    requires End(r) <= |b|
  {
    b[r.offset..End(r)]
  }

  function Splice(file: Bytes, offset: nat, bytes: Bytes): (r: Bytes)
    requires offset + |bytes| <= |file|
    ensures |r| == |file|
    ensures forall i :: 0 <= i < |file| ==>
      r[i] == if offset <= i < offset + |bytes| then bytes[i - offset] else file[i]
  {
    file[..offset] + bytes + file[offset+|bytes|..]
  }

  /** The validation a range write starts with. */
  function Verdict(recorded: seq<Range>, total: nat, r: Range): Result<Ack, SparseError> {
    if r.length == 0 then Err(ZeroLengthRange)
    else if End(r) > total then Err(RangeOutOfBounds)
    else if r in recorded then Ok(DuplicateIdempotent)
    else if exists i :: 0 <= i < |recorded| && Overlap(r, recorded[i]) then Err(RangeOverlap)
    else Ok(Committed)
  }

  ghost predicate Sized(job: Job, d: Dir) {
    d.file.Some? ==> |d.file.value| == job.total
  }

  /** Bytes written through the staged name also reach a published link to it. */
  function Written(d: Dir, offset: nat, bytes: Bytes): Dir
    requires d.file.Some? && offset + |bytes| <= |d.file.value|
  {
    var file := Splice(d.file.value, offset, bytes);
    d.(file := Some(file), published := if d.linked then Some(file) else d.published)
  }

  function RecordOf(job: Job, offset: nat, bytes: Bytes): Record {
    Record(Range(offset, |bytes|), RangeSum(job.blake, bytes))
  }

  function RecordFrame(job: Job, offset: nat, bytes: Bytes): Bytes {
    Journal.Frame(FrameSum(job.blake), Encode(RecordOf(job, offset, bytes)))
  }

  /** What a range write adds to the journal. */
  function Appended(job: Job, offset: nat, bytes: Bytes, fault: Option<Fault>): Bytes {
    match fault
    case None => RecordFrame(job, offset, bytes)
    case Some(DuringData(_)) => []
    case Some(DuringAppend(n)) => Head(RecordFrame(job, offset, bytes), n)
  }

  /** The directory after a range write, run to completion or killed. */
  function AfterWrite(job: Job, d: Dir, offset: nat, bytes: Bytes, fault: Option<Fault>): Dir
    requires d.file.Some? && offset + |bytes| <= |d.file.value|
  {
    var data := if fault.Some? && fault.value.DuringData? then Head(bytes, fault.value.written) else bytes;
    Written(d, offset, data).(journal := d.journal + Appended(job, offset, bytes, fault))
  }

  /** Replayed records checked against the file, and whether an undecodable or out-of-bounds
      record cut the replay short. */
  function Verify(job: Job, payloads: seq<Bytes>, file: Bytes): Result<(seq<Range>, bool), SparseError>
    requires |file| == job.total
  {
    if payloads == [] then Ok(([], false))
    else
      match Decode(payloads[0])
      case None => Ok(([], true))
      case Some(rec) =>
        if End(rec.range) > job.total then Ok(([], true))
        else if RangeSum(job.blake, Slice(file, rec.range)) != rec.sum then Err(RangeVerificationFailed(rec.range))
        else
          match Verify(job, payloads[1..], file)
          case Err(e) => Err(e)
          case Ok((rest, cut)) => Ok(([rec.range] + rest, cut))
  }

  function Replayed(job: Job, d: Dir): (seq<Bytes>, bool) {
    Journal.Replay(FrameSum(job.blake), d.journal)
  }

  function Zeros(n: nat): Bytes {
    seq(n, _ => 0)
  }

  /** `begin`: the file is created or truncated and then sized, through whatever links it has; a
      journal already there is left alone. */
  function Begun(job: Job, d: Dir): Dir {
    var zeros := Zeros(job.total);
    d.(file := Some(zeros), published := if d.linked then Some(zeros) else d.published)
  }

  /** `resume`: a missing file begins again over whatever journal is there. */
  function Resumed(job: Job, d: Dir): Result<(seq<Range>, bool), SparseError>
    requires d.file.Some? && |d.file.value| == job.total
  {
    match Verify(job, Replayed(job, d).0, d.file.value)
    case Err(e) => Err(e)
    case Ok((ranges, cut)) => Ok((ranges, cut || Replayed(job, d).1))
  }

  /** Coverage, then identity. */
  function Refusal(job: Job, d: Dir, recorded: seq<Range>): Option<SparseError>
    requires d.file.Some?
  {
    if Missing(recorded, job.total) != [] then Some(Incomplete(Missing(recorded, job.total)))
    else if job.digest(d.file.value) != job.declared then Some(DeclaredDigestMismatch)
    else None
  }

  /** The exclusive link: an existing published file is never replaced. */
  function Linked(d: Dir): Dir {
    if d.published.Some? then d else d.(published := d.file, linked := true)
  }

  function Removed(d: Dir): Dir {
    d.(file := None, linked := false)
  }

  /** Something else is published under the declared identity. */
  predicate Collides(job: Job, d: Dir) {
    d.published.Some? && job.digest(d.published.value) != job.declared
  }

  /** The directory after `finish` has passed both checks, run to completion or killed. A collision
      moves the staged file to quarantine and is an error, so the directory is not swept. */
  function AfterFinish(job: Job, d: Dir, fault: Option<FinishFault>): Dir {
    match fault
    case Some(BeforeLink) => d
    case Some(BeforeRemoval) => Linked(d)
    case Some(BeforeSweep) => Removed(Linked(d))
    case None => if Collides(job, d) then Removed(d) else Removed(Linked(d)).(journal := [])
  }

  function ResultOf(job: Job, d: Dir): Result<Outcome, SparseError> {
    if d.published.None? then Ok(Stored)
    else if Collides(job, d) then Err(CollisionIncident)
    else Ok(IdempotentDuplicate)
  }

  // ---------------------------------------------------------------- the machine

  /** A transfer inside a process, or between processes. */
  datatype Life = Up(dir: Dir, recorded: seq<Range>) | Down(dir: Dir)

  datatype Event =
    | Write(offset: nat, bytes: Bytes, fault: Option<Fault>)
    | Finish(stop: Option<FinishFault>)
    | Kill
    | Restart
    | BeginOver

  ghost predicate Fits(job: Job, life: Life) {
    Sized(job, life.dir) && (life.Up? ==> life.dir.file.Some?)
  }

  function NextWrite(job: Job, d: Dir, recorded: seq<Range>, offset: nat, bytes: Bytes, fault: Option<Fault>): (r: Life)
    requires d.file.Some? && |d.file.value| == job.total
    ensures Fits(job, r)
  {
    if Verdict(recorded, job.total, Range(offset, |bytes|)) != Ok(Committed) then Up(d, recorded)
    else if fault.Some? then Down(AfterWrite(job, d, offset, bytes, fault))
    else Up(AfterWrite(job, d, offset, bytes, None), recorded + [Range(offset, |bytes|)])
  }

  function Next(job: Job, life: Life, e: Event): (r: Life)
    requires Fits(job, life)
    ensures Fits(job, r)
  {
    match life
    case Down(d) =>
      if e.BeginOver? then Up(Begun(job, d), [])
      else if !e.Restart? then life
      else if d.file.None? then Up(Begun(job, d), [])
      else
        (match Resumed(job, d)
         case Err(_) => life
         case Ok((ranges, _)) => Up(d, ranges))
    case Up(d, recorded) =>
      match e
      case Kill => Down(d)
      case Restart => life
      case BeginOver => life
      case Finish(stop) => Down(if Refusal(job, d, recorded).Some? then d else AfterFinish(job, d, stop))
      case Write(offset, bytes, fault) => NextWrite(job, d, recorded, offset, bytes, fault)
  }

  function Run(job: Job, life: Life, events: seq<Event>): (r: Life)
    requires Fits(job, life)
    ensures Fits(job, r)
    decreases |events|
  {
    if events == [] then life else Run(job, Next(job, life, events[0]), events[1..])
  }

  /** Ranges already adopted, then the verdict on the rest. */
  function Joined(done: seq<Range>, rest: Result<(seq<Range>, bool), SparseError>)
    : Result<(seq<Range>, bool), SparseError>
  {
    match rest
    case Err(e) => Err(e)
    case Ok((ranges, cut)) => Ok((done + ranges, cut))
  }

  lemma JoinOne(done: seq<Range>, r: Range, rest: Result<(seq<Range>, bool), SparseError>)
    ensures Joined(done, Joined([r], rest)) == Joined(done + [r], rest)
  {
    if rest.Ok? { assert done + ([r] + rest.value.0) == done + [r] + rest.value.0; }
  }

  lemma VerifyOne(job: Job, payloads: seq<Bytes>, file: Bytes, rec: Record)
    requires |file| == job.total && payloads != [] && Decode(payloads[0]) == Some(rec) && End(rec.range) <= job.total
    requires RangeSum(job.blake, Slice(file, rec.range)) == rec.sum
    ensures Verify(job, payloads, file) == Joined([rec.range], Verify(job, payloads[1..], file))
  {
  }

  /** The loop of `resume` over the replayed payloads. */
  method VerifyAll(job: Job, payloads: seq<Bytes>, file: Bytes) returns (r: Result<(seq<Range>, bool), SparseError>)
    requires |file| == job.total
    ensures r == Verify(job, payloads, file)
  {
    var recorded: seq<Range>, i := [], 0;
    assert payloads[0..] == payloads;
    assert forall rest: seq<Range> :: [] + rest == rest;
    while i < |payloads|
      invariant 0 <= i <= |payloads|
      invariant Verify(job, payloads, file) == Joined(recorded, Verify(job, payloads[i..], file))
    {
      assert payloads[i..][1..] == payloads[i+1..];
      var decoded := Decode(payloads[i]);
      if decoded.None? || End(decoded.value.range) > job.total {
        assert recorded + [] == recorded;
        return Ok((recorded, true));
      }
      var rec := decoded.value;
      if RangeSum(job.blake, Slice(file, rec.range)) != rec.sum {
        return Err(RangeVerificationFailed(rec.range));
      }
      VerifyOne(job, payloads[i..], file, rec);
      JoinOne(recorded, rec.range, Verify(job, payloads[i+1..], file));
      recorded, i := recorded + [rec.range], i + 1;
    }
    assert payloads[i..] == [];
    assert recorded + [] == recorded;
    return Ok((recorded, false));
  }

  // ---------------------------------------------------------------- the transfer object

  class Transfer {
    const job: Job
    var dir: Dir
    var recorded: seq<Range>

    ghost predicate Valid()
      reads this
    {
      dir.file.Some? && |dir.file.value| == job.total
    }

    /** `begin`: the file is created and sized; a journal already there is left alone. */
    constructor Begin(job: Job, dir: Dir)
      ensures Valid() && this.job == job
      ensures this.dir == Begun(job, dir) && recorded == []
    {
      this.job := job;
      this.dir, recorded := Begun(job, dir), [];
    }

    /** A process that has just opened an existing attempt directory. */
    constructor Reopen(job: Job, dir: Dir)
      requires dir.file.Some? && |dir.file.value| == job.total
      ensures Valid() && this.job == job
      ensures this.dir == dir && recorded == []
    {
      this.job := job;
      this.dir, recorded := dir, [];
    }

    /** The rest of `resume` once the file is open: replay, check every record against the file,
        adopt the ranges. */
    method Adopt() returns (r: Result<bool, SparseError>)
      requires Valid() && recorded == []
      modifies this`recorded
      ensures match Resumed(job, dir)
        case Err(e) => r == Err(e)
        case Ok((ranges, torn)) => r == Ok(torn) && recorded == ranges
    {
      var payloads, torn := Journal.ReplayFramed(FrameSum(job.blake), dir.journal);
      var verified := VerifyAll(job, payloads, dir.file.value);
      if verified.Err? {
        return Err(verified.error);
      }
      recorded := verified.value.0;
      return Ok(verified.value.1 || torn);
    }

    /** `missing`. */
    method MissingNow() returns (gaps: seq<Range>)
      ensures gaps == Missing(recorded, job.total)
    {
      gaps := MissingRanges(recorded, job.total);
    }

    /** `write_range`: validate, then data, then journal. Refusals touch nothing. */
    method WriteRange(offset: nat, bytes: Bytes, fault: Option<Fault>) returns (r: Result<Ack, SparseError>)
      requires Valid()
      modifies this`dir, this`recorded
      ensures Valid()
      ensures var v := Verdict(old(recorded), job.total, Range(offset, |bytes|));
        if v != Ok(Committed) then
          r == v && dir == old(dir) && recorded == old(recorded)
        else if fault.Some? then
          r == Err(Interrupted) && dir == AfterWrite(job, old(dir), offset, bytes, fault)
        else
          r == v && dir == AfterWrite(job, old(dir), offset, bytes, None)
          && recorded == old(recorded) + [Range(offset, |bytes|)]
      ensures Next(job, Up(old(dir), old(recorded)), Write(offset, bytes, fault)) ==
        if r == Err(Interrupted) then Down(dir) else Up(dir, recorded)
    {
      var length := |bytes|;
      if length == 0 {
        return Err(ZeroLengthRange);
      }
      if offset + length > job.total {
        return Err(RangeOutOfBounds);
      }
      var range := Range(offset, length);
      if range in recorded {
        return Ok(DuplicateIdempotent);
      }
      for i := 0 to |recorded|
        invariant forall j :: 0 <= j < i ==> !Overlap(range, recorded[j])
      {
        if Overlap(range, recorded[i]) {
          return Err(RangeOverlap);
        }
      }
      if fault.Some? && fault.value.DuringData? {
        dir := Written(dir, offset, Head(bytes, fault.value.written));
        assert dir.journal + [] == dir.journal;
        return Err(Interrupted);
      }
      dir := Written(dir, offset, bytes);
      var frame := RecordFrame(job, offset, bytes);
      if fault.Some? {
        dir := dir.(journal := dir.journal + Head(frame, fault.value.appended));
        return Err(Interrupted);
      }
      dir := dir.(journal := dir.journal + frame);
      recorded := recorded + [range];
      return Ok(Committed);
    }

    /** The part of `finish` past its checks: the exclusive link, then the staged name and the
        directory go. */
    method Publish(stop: Option<FinishFault>) returns (r: Result<Outcome, SparseError>)
      requires dir.file.Some?
      modifies this`dir
      ensures dir == AfterFinish(job, old(dir), stop)
      ensures r == if stop.Some? then Err(Interrupted) else ResultOf(job, old(dir))
    {
      var result := ResultOf(job, dir);
      if stop == Some(BeforeLink) {
        return Err(Interrupted);
      }
      if dir.published.None? {
        dir := dir.(published := dir.file, linked := true);
      }
      if stop == Some(BeforeRemoval) {
        return Err(Interrupted);
      }
      dir := dir.(file := None, linked := false);
      if stop == Some(BeforeSweep) {
        return Err(Interrupted);
      }
      if result.Ok? {
        dir := dir.(journal := []);
      }
      return result;
    }

    /** `finish`: exact coverage, whole-object identity, publication. The object is consumed. */
    method Finish(stop: Option<FinishFault>) returns (r: Result<Outcome, SparseError>)
      requires Valid()
      modifies this`dir
      ensures match Refusal(job, old(dir), recorded)
        case Some(e) => r == Err(e) && dir == old(dir)
        case None =>
          dir == AfterFinish(job, old(dir), stop)
          && r == if stop.Some? then Err(Interrupted) else ResultOf(job, old(dir))
      ensures Disjoint(recorded, job.total) ==>
        (r == Err(DeclaredDigestMismatch) <==>
          && (forall b :: 0 <= b < job.total ==> Covered(recorded, b))
          && job.digest(old(dir).file.value) != job.declared)
      ensures r == Err(DeclaredDigestMismatch) || (r.Err? && r.error.Incomplete?) ==> dir == old(dir)
      ensures old(dir).published.None? && dir.published.Some? ==>
        dir.published == old(dir).file && job.digest(dir.published.value) == job.declared
    {
      var gaps := MissingNow();
      if Disjoint(recorded, job.total) {
        CompleteIff(recorded, job.total);
      }
      if gaps != [] {
        return Err(Incomplete(gaps));
      }
      if job.digest(dir.file.value) != job.declared {
        return Err(DeclaredDigestMismatch);
      }
      r := Publish(stop);
    }

    /** `finish` is one step of the machine. */
    method DoFinish(stop: Option<FinishFault>) returns (r: Result<Outcome, SparseError>)
      requires Valid()
      modifies this`dir
      ensures Next(job, Up(old(dir), recorded), Event.Finish(stop)) == Down(dir)
      ensures r.Ok? ==> r == ResultOf(job, old(dir))
      ensures old(dir).published.None? && dir.published.Some? ==>
        dir.published == old(dir).file && job.digest(dir.published.value) == job.declared
    {
      r := Finish(stop);
    }
  }

  /** `begin`, on whatever an earlier process left. */
  method DoBegin(job: Job, dir: Dir) returns (t: Transfer)
    requires Sized(job, dir)
    ensures fresh(t) && t.Valid() && t.job == job
    ensures Next(job, Down(dir), BeginOver) == Up(t.dir, t.recorded)
  {
    t := new Transfer.Begin(job, dir);
  }

  /** `resume`, from whatever an earlier process left. */
  method Resume(job: Job, dir: Dir) returns (r: Result<Transfer, SparseError>, torn: bool)
    requires Sized(job, dir)
    ensures r.Ok? ==> fresh(r.value) && r.value.Valid() && r.value.job == job
    ensures Next(job, Down(dir), Restart) == if r.Ok? then Up(r.value.dir, r.value.recorded) else Down(dir)
    ensures dir.file.Some? ==> match Resumed(job, dir)
      case Err(e) => r == Err(e)
      case Ok((_, t)) => r.Ok? && torn == t
  {
    torn := false;
    if dir.file.None? {
      var begun := new Transfer.Begin(job, dir);
      return Ok(begun), false;
    }
    var transfer := new Transfer.Reopen(job, dir);
    var adopted := transfer.Adopt();
    if adopted.Err? {
      return Err(adopted.error), false;
    }
    return Ok(transfer), adopted.value;
  }
}
