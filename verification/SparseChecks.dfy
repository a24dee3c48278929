/** The checks of a sparse transfer, said in bytes and digests: which writes are refused and why,
    what `finish` answers, and what a newly published name can hold, whatever bytes were sent. */
module SparseChecks {
  import opened Prelude
  import Sorting
  import opened Ranges
  import opened RangeRecords
  import opened SparseTransfer
  import opened SparseRuns

  // ---------------------------------------------------------------- write_range

  ghost predicate SharesByte(recorded: seq<Range>, r: Range) {
    exists b :: Covered(recorded, b) && Holds(r, b)
  }

  lemma OverlapIsSharing(r: Range, q: Range)
    requires r.length > 0 && q.length > 0
    ensures Overlap(r, q) <==> exists b :: Holds(r, b) && Holds(q, b)
  {
    if Overlap(r, q) {
      var b := if r.offset < q.offset then q.offset else r.offset;
      assert Holds(r, b) && Holds(q, b);
    }
  }

  lemma SharesIffOverlaps(recorded: seq<Range>, total: nat, r: Range)
    requires Disjoint(recorded, total) && r.length > 0
    ensures SharesByte(recorded, r) <==> exists i :: 0 <= i < |recorded| && Overlap(r, recorded[i])
  {
    if SharesByte(recorded, r) {
      var b :| Covered(recorded, b) && Holds(r, b);
      var i :| 0 <= i < |recorded| && Holds(recorded[i], b);
      OverlapIsSharing(r, recorded[i]);
    }
    if i :| 0 <= i < |recorded| && Overlap(r, recorded[i]) {
      OverlapIsSharing(r, recorded[i]);
      var b :| Holds(r, b) && Holds(recorded[i], b);
      assert Covered(recorded, b);
    }
  }

  /** Over any disjoint record, every answer of `write_range` and its exact condition: empty, past
      the object, already recorded as this very range, sharing a byte with what is recorded, and
      otherwise committed. */
  lemma VerdictExact(recorded: seq<Range>, total: nat, r: Range)
    requires Disjoint(recorded, total)
    ensures var v := Verdict(recorded, total, r);
      if r.length == 0 then v == Err(ZeroLengthRange)
      else if r.offset + r.length > total then v == Err(RangeOutOfBounds)
      else if exists i :: 0 <= i < |recorded| && recorded[i] == r then v == Ok(DuplicateIdempotent)
      else if SharesByte(recorded, r) then v == Err(RangeOverlap)
      else v == Ok(Committed)
  {
    if r.length > 0 {
      SharesIffOverlaps(recorded, total, r);
    }
  }

  // ---------------------------------------------------------------- resume

  /** A record `resume` adopts: it decodes and stays inside the object. */
  predicate Usable(job: Job, payload: Bytes) {
    match Decode(payload)
    case None => false
    case Some(rec) => rec.range.offset + rec.range.length <= job.total
  }

  ghost predicate Agrees(job: Job, payload: Bytes, file: Bytes)
    requires |file| == job.total && Usable(job, payload)
  {
    RangeSum(job.blake, file[RangeOf(payload).offset..End(RangeOf(payload))]) == Decode(payload).value.sum
  }

  /** The records before the first one that cannot be used. */
  function Leading(job: Job, payloads: seq<Bytes>): (r: seq<Bytes>)
    ensures |r| <= |payloads| && r == payloads[..|r|]
    ensures forall i :: 0 <= i < |r| ==> Usable(job, r[i])
    ensures |r| < |payloads| ==> !Usable(job, payloads[|r|])
  {
    if payloads == [] || !Usable(job, payloads[0]) then []
    else
      var rest := Leading(job, payloads[1..]);
      assert forall i :: 0 <= i < |rest| ==> rest[i] == payloads[i+1];
      [payloads[0]] + rest
  }

  ghost predicate AllAgree(job: Job, payloads: seq<Bytes>, file: Bytes)
    requires |file| == job.total
    requires forall i :: 0 <= i < |payloads| ==> Usable(job, payloads[i])
  {
    forall i :: 0 <= i < |payloads| ==> Agrees(job, payloads[i], file)
  }

  lemma LeadingOne(job: Job, payloads: seq<Bytes>)
    requires payloads != [] && Usable(job, payloads[0])
    ensures Leading(job, payloads) == [payloads[0]] + Leading(job, payloads[1..])
  {
  }

  lemma AgreeSplit(job: Job, p: Bytes, rest: seq<Bytes>, file: Bytes)
    requires |file| == job.total && Usable(job, p)
    requires forall i :: 0 <= i < |rest| ==> Usable(job, rest[i])
    ensures forall i :: 0 <= i < |[p] + rest| ==> Usable(job, ([p] + rest)[i])
    ensures AllAgree(job, [p] + rest, file) <==> Agrees(job, p, file) && AllAgree(job, rest, file)
  {
    var all := [p] + rest;
    assert all[0] == p;
    assert forall i :: 0 <= i < |rest| ==> all[i + 1] == rest[i];
    assert forall i :: 0 < i < |all| ==> all[i] == rest[i - 1];
  }

  lemma {:induction false} VerifyExact(job: Job, payloads: seq<Bytes>, file: Bytes)
    requires |file| == job.total
    ensures var used := Leading(job, payloads);
      if AllAgree(job, used, file) then Verify(job, payloads, file) == Ok((RangesOf(used), |used| < |payloads|))
      else Verify(job, payloads, file).Err? && Verify(job, payloads, file).error.RangeVerificationFailed?
  {
    if payloads != [] && Usable(job, payloads[0]) {
      var rest := payloads[1..];
      VerifyExact(job, rest, file);
      LeadingOne(job, payloads);
      AgreeSplit(job, payloads[0], Leading(job, rest), file);
      RangesConcat([payloads[0]], Leading(job, rest));
      OneRange(payloads[0]);
    }
  }

  /** What `resume` makes of any file and any journal bytes. It reads the whole records up to the
      first that does not decode or leaves the object; it fails exactly when the file contradicts
      one of those; otherwise it adopts their ranges in order, and reports a torn journal exactly
      when bytes or records were left over. */
  lemma ResumeExact(job: Job, d: Dir)
    requires d.file.Some? && |d.file.value| == job.total
    ensures var used := Leading(job, Intact(job, d));
      if AllAgree(job, used, d.file.value) then
        Resumed(job, d) == Ok((RangesOf(used), |used| < |Intact(job, d)| || Replayed(job, d).1))
      else Resumed(job, d).Err? && Resumed(job, d).error.RangeVerificationFailed?
  {
    VerifyExact(job, Intact(job, d), d.file.value);
  }

  // ---------------------------------------------------------------- finish

  ghost predicate AllRecorded(recorded: seq<Range>, total: nat) {
    forall b :: 0 <= b < total ==> Covered(recorded, b)
  }

  /** What `finish` answers to a transfer whose ranges are disjoint, as writes keep them. It refuses
      as incomplete exactly when some byte was never recorded; as the wrong object exactly when
      every byte was and the file's digest is not the declared one; and goes on to publish exactly
      when every byte was and it is. */
  lemma FinishVerdict(job: Job, d: Dir, recorded: seq<Range>)
    requires d.file.Some? && Disjoint(recorded, job.total)
    ensures var refused := Refusal(job, d, recorded);
      && ((refused.Some? && refused.value.Incomplete?) <==> !AllRecorded(recorded, job.total))
      && (refused == Some(DeclaredDigestMismatch) <==>
            AllRecorded(recorded, job.total) && job.digest(d.file.value) != job.declared)
      && (refused.None? <==> AllRecorded(recorded, job.total) && job.digest(d.file.value) == job.declared)
  {
    CompleteIff(recorded, job.total);
  }

  /** The same for any record at all, overlapping ranges included: coverage is judged by whether
      the ranges, in order of offset, link up from zero to the end. */
  lemma FinishVerdictAny(job: Job, d: Dir, recorded: seq<Range>)
    requires d.file.Some?
    ensures var s := Sorting.Sort(recorded, StartsNoLater); var refused := Refusal(job, d, recorded);
      && (refused == Some(DeclaredDigestMismatch) <==>
            LinksUp(s) && job.total <= LeftOff(s, |s|) && job.digest(d.file.value) != job.declared)
      && (refused.None? <==>
            LinksUp(s) && job.total <= LeftOff(s, |s|) && job.digest(d.file.value) == job.declared)
  {
    MissingNothingIff(recorded, job.total);
  }

  /** Whatever was recorded, disjoint or not, and whatever bytes were sent: a `finish` that is not
      refused has every byte recorded and a file of the declared digest. */
  lemma UnrefusedIsDeclared(job: Job, d: Dir, recorded: seq<Range>)
    requires d.file.Some? && Refusal(job, d, recorded).None?
    ensures AllRecorded(recorded, job.total) && job.digest(d.file.value) == job.declared
  {
    forall b: nat | b < job.total ensures Covered(recorded, b) {
      NoHiddenGap(recorded, job.total, b);
    }
  }

  /** A `finish` of any running transfer, by cases. Incomplete or of the wrong digest, it changes
      nothing on disk. Otherwise, uninterrupted: nothing published before means the file is, its
      staged name and journal gone; the declared object already there is left as it is; anything
      else already there is left too, the staged file goes to quarantine and the journal stays. */
  lemma FinishExact(job: Job, life: Life)
    requires Fits(job, life) && life.Up? && Disjoint(life.recorded, job.total)
    ensures var (d, u) := (life.dir, Next(job, life, Finish(None)).dir);
      if !AllRecorded(life.recorded, job.total) || job.digest(d.file.value) != job.declared then u == d
      else if d.published.None? then u == Dir(None, false, [], d.file) && ResultOf(job, d) == Ok(Stored)
      else if job.digest(d.published.value) == job.declared then
        u == Dir(None, false, [], d.published) && ResultOf(job, d) == Ok(IdempotentDuplicate)
      else u == Dir(None, false, d.journal, d.published) && ResultOf(job, d) == Err(CollisionIncident)
  {
    FinishVerdict(job, life.dir, life.recorded);
  }

  // ---------------------------------------------------------------- whatever was sent

  /** In any state, after any event, with any bytes: a name that was not published and now is holds
      bytes whose digest is the declared one, all of them recorded. */
  lemma NewlyPublished(job: Job, life: Life, e: Event)
    requires Fits(job, life) && !life.dir.linked
    requires life.dir.published.None? && Next(job, life, e).dir.published.Some?
    ensures life.Up? && e.Finish? && AllRecorded(life.recorded, job.total)
    ensures Next(job, life, e).dir.published == life.dir.file
    ensures job.digest(Next(job, life, e).dir.published.value) == job.declared
  {
    if life.Up? && e.Finish? && Refusal(job, life.dir, life.recorded).None? {
      UnrefusedIsDeclared(job, life.dir, life.recorded);
    }
  }

  /** The published name holds the declared object or nothing, and is the staged file while linked. */
  ghost predicate PublishesDeclared(job: Job, d: Dir) {
    && (d.published.Some? ==> job.digest(d.published.value) == job.declared)
    && (d.linked ==> d.file.Some? && d.published == d.file)
  }

  /** An event that writes or begins through a staged name that is still a link to the published
      object. */
  predicate WritesThrough(job: Job, life: Life, e: Event) {
    life.dir.linked && (Accepted(job, life, e) || (life.Down? && e.BeginOver?))
  }

  lemma FinishPublishesDeclared(job: Job, d: Dir, recorded: seq<Range>, stop: Option<FinishFault>)
    requires d.file.Some? && Refusal(job, d, recorded).None? && PublishesDeclared(job, d)
    ensures PublishesDeclared(job, AfterFinish(job, d, stop))
  {
    UnrefusedIsDeclared(job, d, recorded);
  }

  lemma WritePublishesDeclared(job: Job, d: Dir, offset: nat, bytes: Bytes, fault: Option<Fault>)
    requires d.file.Some? && offset + |bytes| <= |d.file.value| && !d.linked && PublishesDeclared(job, d)
    ensures PublishesDeclared(job, AfterWrite(job, d, offset, bytes, fault))
  {
  }

  lemma DownPublishesDeclared(job: Job, d: Dir, e: Event)
    requires Fits(job, Down(d)) && PublishesDeclared(job, d) && !WritesThrough(job, Down(d), e)
    ensures PublishesDeclared(job, Next(job, Down(d), e).dir)
  {
  }

  lemma EventPublishesDeclared(job: Job, life: Life, e: Event)
    requires Fits(job, life) && PublishesDeclared(job, life.dir) && !WritesThrough(job, life, e)
    ensures PublishesDeclared(job, Next(job, life, e).dir)
  {
    if life.Down? {
      DownPublishesDeclared(job, life.dir, e);
    } else if e.Finish? {
      if Refusal(job, life.dir, life.recorded).None? {
        FinishPublishesDeclared(job, life.dir, life.recorded, e.stop);
      }
    } else if Accepted(job, life, e) {
      WritePublishesDeclared(job, life.dir, e.offset, e.bytes, e.fault);
    }
  }

  predicate NeverWritesThrough(job: Job, life: Life, events: seq<Event>)
    requires Fits(job, life)
    decreases |events|
  {
    events != [] ==>
      && !WritesThrough(job, life, events[0])
      && NeverWritesThrough(job, Next(job, life, events[0]), events[1..])
  }

  /** Every run from an empty directory, of any bytes at all, with kills anywhere and journals in
      any state: what is published has the declared digest. Only writing again through the staged
      name of an object already linked could change it. */
  lemma {:induction false} RunPublishesDeclared(job: Job, life: Life, events: seq<Event>)
    requires Fits(job, life) && PublishesDeclared(job, life.dir) && NeverWritesThrough(job, life, events)
    ensures PublishesDeclared(job, Run(job, life, events).dir)
    decreases |events|
  {
    if events != [] {
      EventPublishesDeclared(job, life, events[0]);
      RunPublishesDeclared(job, Next(job, life, events[0]), events[1..]);
    }
  }
}
