/** What every run of a sparse transfer keeps: range writes, kills at any byte of them, restarts
    that replay the journal bytes left behind, and `finish` killed at any point. */
module SparseRuns {
  import opened Prelude
  import opened Digests
  import opened Ranges
  import opened RangeRecords
  import opened SparseTransfer
  import Journal

  // ---------------------------------------------------------------- what is kept

  /** Whatever range is sent, its bytes are the object's. */
  ghost predicate OfObject(obj: Bytes, e: Event) {
    e.Write? && e.offset + |e.bytes| <= |obj| ==> e.bytes == Slice(obj, Range(e.offset, |e.bytes|))
  }

  ghost predicate Matches(obj: Bytes, file: Bytes, r: Range) {
    End(r) <= |obj| && |file| == |obj| && forall b :: r.offset <= b < End(r) ==> file[b] == obj[b]
  }

  ghost predicate AllMatch(obj: Bytes, file: Bytes, rs: seq<Range>) {
    forall i :: 0 <= i < |rs| ==> Matches(obj, file, rs[i])
  }

  ghost predicate JobFor(job: Job, obj: Bytes) {
    Wide(job.blake) && job.total == |obj|
  }

  function RangeOf(payload: Bytes): Range {
    match Decode(payload) case None => Range(0, 0) case Some(rec) => rec.range
  }

  function RangesOf(payloads: seq<Bytes>): (r: seq<Range>)
    ensures |r| == |payloads|
    ensures forall i :: 0 <= i < |payloads| ==> r[i] == RangeOf(payloads[i])
  {
    Map(RangeOf, payloads)
  }

  /** The payload records a range of the object with the checksum of the object's bytes. */
  ghost predicate TrueRecord(job: Job, obj: Bytes, payload: Bytes) {
    match Decode(payload)
    case None => false
    case Some(rec) => End(rec.range) <= |obj| && rec.sum == RangeSum(job.blake, Slice(obj, rec.range))
  }

  ghost predicate TrueRecords(job: Job, obj: Bytes, payloads: seq<Bytes>) {
    forall i :: 0 <= i < |payloads| ==> TrueRecord(job, obj, payloads[i])
  }

  function Intact(job: Job, d: Dir): seq<Bytes> {
    Replayed(job, d).0
  }

  /** The journal bytes replay stops at. */
  function Tail(job: Job, d: Dir): Bytes {
    Journal.Rest(FrameSum(job.blake), d.journal)
  }

  /** The published name holds the object or nothing, and is the staged file while linked. */
  ghost predicate PublishedSound(obj: Bytes, d: Dir) {
    && (d.published.Some? ==> d.published.value == obj)
    && (d.linked ==> d.file.Some? && d.published == d.file)
  }

  /** Journalled ranges are the object's, in bounds and disjoint, and really in the file. */
  ghost predicate DirSound(job: Job, obj: Bytes, d: Dir) {
    && PublishedSound(obj, d)
    && TrueRecords(job, obj, Intact(job, d))
    && (d.file.Some? ==>
          && |d.file.value| == |obj|
          && Disjoint(RangesOf(Intact(job, d)), |obj|)
          && AllMatch(obj, d.file.value, RangesOf(Intact(job, d))))
  }

  ghost predicate UpSound(obj: Bytes, life: Life) {
    && life.Up? && life.dir.file.Some? && |life.dir.file.value| == |obj|
    && Disjoint(life.recorded, |obj|) && AllMatch(obj, life.dir.file.value, life.recorded)
    && PublishedSound(obj, life.dir)
  }

  /** Over a journal that ends whole, what is in memory is what it would replay. */
  ghost predicate Journalled(job: Job, life: Life)
    requires life.Up?
  {
    Tail(job, life.dir) == [] ==> RangesOf(Intact(job, life.dir)) == life.recorded
  }

  ghost predicate Sound(job: Job, obj: Bytes, life: Life) {
    DirSound(job, obj, life.dir) && (life.Up? ==> UpSound(obj, life) && Journalled(job, life))
  }

  /** The write goes through validation. */
  predicate Accepted(job: Job, life: Life, e: Event) {
    life.Up? && e.Write? && Verdict(life.recorded, job.total, Range(e.offset, |e.bytes|)) == Ok(Committed)
  }

  /** The bytes appended complete the torn tail to a true record, really in the file and disjoint
      from the others; after a kill inside a checksum it is the one that was cut. */
  ghost predicate Restores(job: Job, obj: Bytes, d: Dir, more: Bytes) {
    && d.file.Some? && Journal.Mends(FrameSum(job.blake), d.journal, more)
    && var p := Journal.FirstFrame(FrameSum(job.blake), Tail(job, d) + more).value;
       && TrueRecord(job, obj, p) && Matches(obj, d.file.value, RangeOf(p))
       && Disjoint(RangesOf(Intact(job, d)) + [RangeOf(p)], |obj|)
  }

  /** Two things an event must not do: complete a torn tail into another record than the one cut,
      and begin over a journal or a published link that an earlier life left. */
  ghost predicate CleanEvent(job: Job, obj: Bytes, life: Life, e: Event) {
    && (Accepted(job, life, e) ==> var more := Appended(job, e.offset, e.bytes, e.fault);
          Journal.Sealed(FrameSum(job.blake), life.dir.journal, more) || Restores(job, obj, life.dir, more))
    && (life.Down? && e.Restart? ==> life.dir.file.Some? || life.dir.journal == [])
    && (life.Down? && e.BeginOver? ==> life.dir.journal == [] && !life.dir.linked)
  }

  ghost predicate CleanRun(job: Job, obj: Bytes, life: Life, events: seq<Event>)
    requires Fits(job, life)
    decreases |events|
  {
    events != [] ==>
      && OfObject(obj, events[0]) && CleanEvent(job, obj, life, events[0])
      && CleanRun(job, obj, Next(job, life, events[0]), events[1..])
  }

  // ---------------------------------------------------------------- records

  lemma {:induction false} HexPlain(b: Bytes)
    ensures PlainText(Hex(b))
  {
    if b != [] { HexPlain(b[1..]); }
  }

  lemma FrameSums(blake: Hash)
    requires Wide(blake)
    ensures Journal.FourBytes(FrameSum(blake))
  {
  }

  lemma RecordFits(job: Job, offset: nat, bytes: Bytes)
    requires offset + |bytes| <= job.total
    ensures |Encode(RecordOf(job, offset, bytes))| < U32_LIMIT
    ensures Decode(Encode(RecordOf(job, offset, bytes))) == Some(RecordOf(job, offset, bytes))
  {
    HexPlain(Head(job.blake(bytes), 16));
    RecordShort(RecordOf(job, offset, bytes));
    RecordRoundTrip(RecordOf(job, offset, bytes));
  }

  /** The frame is on disk whole, behind a journal that ends whole. */
  predicate Lands(job: Job, d: Dir, offset: nat, bytes: Bytes, fault: Option<Fault>) {
    Tail(job, d) == [] && Appended(job, offset, bytes, fault) == RecordFrame(job, offset, bytes)
  }

  /** The records a range write, whole or killed, adds to what replay can read. */
  function Gained(job: Job, d: Dir, offset: nat, bytes: Bytes, fault: Option<Fault>): seq<Bytes> {
    if Lands(job, d, offset, bytes, fault) then [Encode(RecordOf(job, offset, bytes))]
    else if Tail(job, d) == [] then []
    else
      match Journal.FirstFrame(FrameSum(job.blake), Tail(job, d) + Appended(job, offset, bytes, fault))
      case None => []
      case Some(p) => [p]
  }

  lemma AppendPart(job: Job, d: Dir, offset: nat, bytes: Bytes, c: Bytes, u: Dir)
    requires Wide(job.blake) && offset + |bytes| <= job.total && Tail(job, d) == []
    requires |c| < |RecordFrame(job, offset, bytes)| && c == RecordFrame(job, offset, bytes)[..|c|]
    requires u.journal == d.journal + c
    ensures Intact(job, u) == Intact(job, d)
  {
    FrameSums(job.blake);
    RecordFits(job, offset, bytes);
    Journal.AppendPart(FrameSum(job.blake), d.journal, Encode(RecordOf(job, offset, bytes)), |c|);
  }

  lemma AppendWhole(job: Job, d: Dir, offset: nat, bytes: Bytes, fault: Option<Fault>, u: Dir)
    requires Wide(job.blake) && offset + |bytes| <= job.total && Tail(job, d) == []
    requires u.journal == d.journal + Appended(job, offset, bytes, fault)
    ensures Intact(job, u) == Intact(job, d) + Gained(job, d, offset, bytes, fault)
    ensures Lands(job, d, offset, bytes, fault) ==> Tail(job, u) == []
  {
    assert Intact(job, d) + [] == Intact(job, d);
    if Lands(job, d, offset, bytes, fault) {
      FrameSums(job.blake);
      RecordFits(job, offset, bytes);
      Journal.AppendWhole(FrameSum(job.blake), d.journal, Encode(RecordOf(job, offset, bytes)));
    } else {
      FrameNotEmpty(job, offset, bytes);
      AppendPart(job, d, offset, bytes, Appended(job, offset, bytes, fault), u);
    }
  }

  lemma AppendBehind(job: Job, d: Dir, offset: nat, bytes: Bytes, fault: Option<Fault>, u: Dir)
    requires Wide(job.blake) && Tail(job, d) != []
    requires u.journal == d.journal + Appended(job, offset, bytes, fault)
    requires || Journal.Sealed(FrameSum(job.blake), d.journal, Appended(job, offset, bytes, fault))
             || Journal.Mends(FrameSum(job.blake), d.journal, Appended(job, offset, bytes, fault))
    ensures Intact(job, u) == Intact(job, d) + Gained(job, d, offset, bytes, fault)
    ensures fault.None? ==> Tail(job, u) != []
  {
    var sum, c := FrameSum(job.blake), Appended(job, offset, bytes, fault);
    assert Intact(job, d) + [] == Intact(job, d);
    if Journal.Sealed(sum, d.journal, c) {
      Journal.AppendTorn(sum, d.journal, c);
    } else {
      Journal.AppendMends(sum, d.journal, c);
      FrameSums(job.blake);
      FrameLong(job, offset, bytes);
    }
  }

  lemma FrameLong(job: Job, offset: nat, bytes: Bytes)
    requires Journal.FourBytes(FrameSum(job.blake))
    ensures |RecordFrame(job, offset, bytes)| > 8
  {
  }

  /** What a range write, whole or killed, does to the records replay can read. */
  lemma AppendCases(job: Job, d: Dir, offset: nat, bytes: Bytes, fault: Option<Fault>, u: Dir)
    requires Wide(job.blake) && offset + |bytes| <= job.total
    requires u.journal == d.journal + Appended(job, offset, bytes, fault)
    requires || Journal.Sealed(FrameSum(job.blake), d.journal, Appended(job, offset, bytes, fault))
             || Journal.Mends(FrameSum(job.blake), d.journal, Appended(job, offset, bytes, fault))
    ensures Intact(job, u) == Intact(job, d) + Gained(job, d, offset, bytes, fault)
    ensures Lands(job, d, offset, bytes, fault) ==> Tail(job, u) == []
    ensures fault.None? && Tail(job, d) != [] ==> Tail(job, u) != []
  {
    if Tail(job, d) == [] {
      AppendWhole(job, d, offset, bytes, fault, u);
    } else {
      AppendBehind(job, d, offset, bytes, fault, u);
    }
  }

  lemma SentRecordTrue(job: Job, obj: Bytes, offset: nat, bytes: Bytes)
    requires JobFor(job, obj) && offset + |bytes| <= |obj| && bytes == Slice(obj, Range(offset, |bytes|))
    ensures TrueRecord(job, obj, Encode(RecordOf(job, offset, bytes)))
    ensures RangeOf(Encode(RecordOf(job, offset, bytes))) == Range(offset, |bytes|)
  {
    RecordFits(job, offset, bytes);
  }

  // ---------------------------------------------------------------- files

  lemma MatchSlice(obj: Bytes, file: Bytes, r: Range)
    requires Matches(obj, file, r)
    ensures Slice(file, r) == Slice(obj, r)
  {
  }

  lemma SpliceKeeps(obj: Bytes, file: Bytes, rs: seq<Range>, offset: nat, bytes: Bytes)
    requires |file| == |obj| && offset + |bytes| <= |obj| && AllMatch(obj, file, rs)
    requires bytes == Slice(obj, Range(offset, |bytes|))
    ensures AllMatch(obj, Splice(file, offset, bytes), rs)
  {
    forall i | 0 <= i < |rs| ensures Matches(obj, Splice(file, offset, bytes), rs[i]) {
      assert Matches(obj, file, rs[i]);
    }
  }

  lemma SpliceMatches(obj: Bytes, file: Bytes, offset: nat, bytes: Bytes)
    requires |file| == |obj| && offset + |bytes| <= |obj| && bytes == Slice(obj, Range(offset, |bytes|))
    ensures Matches(obj, Splice(file, offset, bytes), Range(offset, |bytes|))
    ensures file == obj ==> Splice(file, offset, bytes) == obj
  {
  }

  lemma HeadOfSlice(obj: Bytes, offset: nat, bytes: Bytes, n: nat)
    requires offset + |bytes| <= |obj| && bytes == Slice(obj, Range(offset, |bytes|))
    ensures var h := Head(bytes, n); |h| <= |bytes| && h == Slice(obj, Range(offset, |h|))
  {
  }

  /** The object's bytes, or any first part of them, written to the file leave what matched
      matching, and a published link holding the object. */
  lemma WrittenSound(obj: Bytes, d: Dir, rs: seq<Range>, offset: nat, bytes: Bytes)
    requires d.file.Some? && |d.file.value| == |obj| && offset + |bytes| <= |obj| && PublishedSound(obj, d)
    requires bytes == Slice(obj, Range(offset, |bytes|)) && AllMatch(obj, d.file.value, rs)
    ensures var u := Written(d, offset, bytes); PublishedSound(obj, u) && AllMatch(obj, u.file.value, rs)
    ensures Matches(obj, Written(d, offset, bytes).file.value, Range(offset, |bytes|))
  {
    SpliceKeeps(obj, d.file.value, rs, offset, bytes);
    SpliceMatches(obj, d.file.value, offset, bytes);
  }

  lemma AllMatchAppend(obj: Bytes, file: Bytes, rs: seq<Range>, r: Range)
    requires AllMatch(obj, file, rs) && Matches(obj, file, r)
    ensures AllMatch(obj, file, rs + [r])
  {
    forall i | 0 <= i < |rs + [r]| ensures Matches(obj, file, (rs + [r])[i]) {
      if i < |rs| { assert Matches(obj, file, rs[i]); }
    }
  }

  lemma VerdictMeans(recorded: seq<Range>, total: nat, r: Range)
    requires Verdict(recorded, total, r) == Ok(Committed) && Disjoint(recorded, total)
    ensures r.length > 0 && End(r) <= total
    ensures Disjoint(recorded + [r], total)
  {
  }

  // ---------------------------------------------------------------- steps

  /** The running transfer after an acknowledged write. */
  lemma CommitUp(job: Job, obj: Bytes, life: Life, e: Event)
    requires JobFor(job, obj) && UpSound(obj, life) && Accepted(job, life, e) && e.fault.None? && OfObject(obj, e)
    ensures UpSound(obj, Next(job, life, e))
    ensures Next(job, life, e).recorded == life.recorded + [Range(e.offset, |e.bytes|)]
  {
    var r := Range(e.offset, |e.bytes|);
    VerdictMeans(life.recorded, |obj|, r);
    WrittenSound(obj, life.dir, life.recorded, e.offset, e.bytes);
    AllMatchAppend(obj, Written(life.dir, e.offset, e.bytes).file.value, life.recorded, r);
  }

  lemma RangesAppend(ps: seq<Bytes>, p: Bytes)
    ensures RangesOf(ps + [p]) == RangesOf(ps) + [RangeOf(p)]
  {
  }

  lemma TrueAppend(job: Job, obj: Bytes, ps: seq<Bytes>, p: Bytes)
    requires TrueRecords(job, obj, ps) && TrueRecord(job, obj, p)
    ensures TrueRecords(job, obj, ps + [p])
  {
  }

  /** The ranges a write adds to what replay can read: its own, or the one that was cut. */
  function GainedRanges(job: Job, d: Dir, e: Event): seq<Range>
    requires e.Write?
  {
    RangesOf(Gained(job, d, e.offset, e.bytes, e.fault))
  }

  lemma OneRange(p: Bytes)
    ensures RangesOf([p]) == [RangeOf(p)] && RangesOf([]) == []
  {
  }

  lemma RangesConcat(a: seq<Bytes>, b: seq<Bytes>)
    ensures RangesOf(a + b) == RangesOf(a) + RangesOf(b)
  {
  }

  /** What a write adds is true of the object and disjoint from what is there; it is the written
      range, or it is already in the file. */
  ghost predicate GoodGain(job: Job, obj: Bytes, d: Dir, e: Event, gained: seq<Bytes>)
    requires e.Write? && d.file.Some?
  {
    && TrueRecords(job, obj, gained) && Disjoint(RangesOf(Intact(job, d)) + RangesOf(gained), |obj|)
    && if Lands(job, d, e.offset, e.bytes, e.fault) then RangesOf(gained) == [Range(e.offset, |e.bytes|)]
       else AllMatch(obj, d.file.value, RangesOf(gained))
  }

  lemma LandedGain(job: Job, obj: Bytes, life: Life, e: Event)
    requires JobFor(job, obj) && Sound(job, obj, life) && Accepted(job, life, e) && OfObject(obj, e)
    requires Lands(job, life.dir, e.offset, e.bytes, e.fault)
    ensures GoodGain(job, obj, life.dir, e, [Encode(RecordOf(job, e.offset, e.bytes))])
  {
    VerdictMeans(life.recorded, |obj|, Range(e.offset, |e.bytes|));
    SentRecordTrue(job, obj, e.offset, e.bytes);
    OneRange(Encode(RecordOf(job, e.offset, e.bytes)));
  }

  lemma NoGain(job: Job, obj: Bytes, d: Dir, e: Event)
    requires DirSound(job, obj, d) && d.file.Some? && e.Write? && !Lands(job, d, e.offset, e.bytes, e.fault)
    ensures GoodGain(job, obj, d, e, [])
  {
    OneRange([]);
    assert RangesOf(Intact(job, d)) + [] == RangesOf(Intact(job, d));
  }

  lemma RestoredGain(job: Job, obj: Bytes, d: Dir, e: Event, p: Bytes)
    requires d.file.Some? && e.Write? && !Lands(job, d, e.offset, e.bytes, e.fault)
    requires TrueRecord(job, obj, p) && Matches(obj, d.file.value, RangeOf(p))
    requires Disjoint(RangesOf(Intact(job, d)) + [RangeOf(p)], |obj|)
    ensures GoodGain(job, obj, d, e, [p])
  {
    OneRange(p);
  }

  lemma WriteGains(job: Job, obj: Bytes, life: Life, e: Event)
    requires JobFor(job, obj) && Sound(job, obj, life) && Accepted(job, life, e) && OfObject(obj, e)
    requires CleanEvent(job, obj, life, e)
    ensures GoodGain(job, obj, life.dir, e, Gained(job, life.dir, e.offset, e.bytes, e.fault))
  {
    var more := Appended(job, e.offset, e.bytes, e.fault);
    if Lands(job, life.dir, e.offset, e.bytes, e.fault) {
      LandedGain(job, obj, life, e);
    } else if Gained(job, life.dir, e.offset, e.bytes, e.fault) == [] {
      NoGain(job, obj, life.dir, e);
    } else {
      RestoredGain(job, obj, life.dir, e, Journal.FirstFrame(FrameSum(job.blake), Tail(job, life.dir) + more).value);
    }
  }

  lemma WriteRecords(job: Job, obj: Bytes, life: Life, e: Event, u: Dir)
    requires JobFor(job, obj) && Sound(job, obj, life) && Accepted(job, life, e) && OfObject(obj, e)
    requires CleanEvent(job, obj, life, e) && u.journal == life.dir.journal + Appended(job, e.offset, e.bytes, e.fault)
    ensures TrueRecords(job, obj, Intact(job, u))
    ensures RangesOf(Intact(job, u)) == RangesOf(Intact(job, life.dir)) + GainedRanges(job, life.dir, e)
    ensures Lands(job, life.dir, e.offset, e.bytes, e.fault) ==> Tail(job, u) == []
    ensures e.fault.None? && Tail(job, life.dir) != [] ==> Tail(job, u) != []
  {
    VerdictMeans(life.recorded, |obj|, Range(e.offset, |e.bytes|));
    WriteGains(job, obj, life, e);
    AppendCases(job, life.dir, e.offset, e.bytes, e.fault, u);
    RangesConcat(Intact(job, life.dir), Gained(job, life.dir, e.offset, e.bytes, e.fault));
  }

  /** The bytes that reach the file. */
  function Data(e: Event): Bytes
    requires e.Write?
  {
    if e.fault.Some? && e.fault.value.DuringData? then Head(e.bytes, e.fault.value.written) else e.bytes
  }

  /** The directory after a clean write, whole or killed anywhere, is sound: a kill costs only the
      range being written. */
  lemma WriteDir(job: Job, obj: Bytes, life: Life, e: Event)
    requires JobFor(job, obj) && Sound(job, obj, life) && Accepted(job, life, e) && OfObject(obj, e)
    requires CleanEvent(job, obj, life, e)
    ensures DirSound(job, obj, AfterWrite(job, life.dir, e.offset, e.bytes, e.fault))
  {
    var d, u := life.dir, AfterWrite(job, life.dir, e.offset, e.bytes, e.fault);
    var before, gained := RangesOf(Intact(job, d)), GainedRanges(job, d, e);
    VerdictMeans(life.recorded, |obj|, Range(e.offset, |e.bytes|));
    WriteGains(job, obj, life, e);
    WriteRecords(job, obj, life, e, u);
    DataOfObject(obj, e);
    WrittenSound(obj, d, before, e.offset, Data(e));
    GainedMatch(job, obj, life, e, u.file.value);
    AllMatchConcat(obj, u.file.value, before, gained);
  }

  lemma DataOfObject(obj: Bytes, e: Event)
    requires e.Write? && e.offset + |e.bytes| <= |obj| && OfObject(obj, e)
    ensures |Data(e)| <= |e.bytes| && Data(e) == Slice(obj, Range(e.offset, |Data(e)|))
  {
    if e.fault.Some? && e.fault.value.DuringData? {
      HeadOfSlice(obj, e.offset, e.bytes, e.fault.value.written);
    }
  }

  lemma GainedMatch(job: Job, obj: Bytes, life: Life, e: Event, file: Bytes)
    requires JobFor(job, obj) && Sound(job, obj, life) && Accepted(job, life, e) && OfObject(obj, e)
    requires CleanEvent(job, obj, life, e) && e.offset + |Data(e)| <= |obj|
    requires file == Splice(life.dir.file.value, e.offset, Data(e))
    ensures AllMatch(obj, file, GainedRanges(job, life.dir, e))
  {
    WriteGains(job, obj, life, e);
    DataOfObject(obj, e);
    if Lands(job, life.dir, e.offset, e.bytes, e.fault) {
      FrameNotEmpty(job, e.offset, e.bytes);
      SpliceMatches(obj, life.dir.file.value, e.offset, e.bytes);
    } else {
      SpliceKeeps(obj, life.dir.file.value, GainedRanges(job, life.dir, e), e.offset, Data(e));
    }
  }

  lemma AllMatchConcat(obj: Bytes, file: Bytes, a: seq<Range>, b: seq<Range>)
    requires AllMatch(obj, file, a) && AllMatch(obj, file, b)
    ensures AllMatch(obj, file, a + b)
  {
    forall i | 0 <= i < |a + b| ensures Matches(obj, file, (a + b)[i]) {
      if i < |a| { assert Matches(obj, file, a[i]); } else { assert Matches(obj, file, b[i-|a|]); }
    }
  }

  lemma FrameNotEmpty(job: Job, offset: nat, bytes: Bytes)
    ensures RecordFrame(job, offset, bytes) != []
  {
  }

  lemma CommitSound(job: Job, obj: Bytes, life: Life, e: Event)
    requires JobFor(job, obj) && Sound(job, obj, life) && Accepted(job, life, e) && OfObject(obj, e)
    requires CleanEvent(job, obj, life, e) && e.fault.None?
    ensures Sound(job, obj, Next(job, life, e))
  {
    var after := Next(job, life, e);
    CommitUp(job, obj, life, e);
    WriteDir(job, obj, life, e);
    WriteRecords(job, obj, life, e, after.dir);
    WriteGains(job, obj, life, e);
  }

  lemma FaultSound(job: Job, obj: Bytes, life: Life, e: Event)
    requires JobFor(job, obj) && Sound(job, obj, life) && Accepted(job, life, e) && OfObject(obj, e)
    requires CleanEvent(job, obj, life, e) && e.fault.Some?
    ensures Sound(job, obj, Next(job, life, e))
  {
    WriteDir(job, obj, life, e);
  }

  /** Records that hold of the object, whose ranges match the file, are all adopted. */
  lemma {:induction false} VerifySound(job: Job, obj: Bytes, ps: seq<Bytes>, file: Bytes)
    requires JobFor(job, obj) && |file| == |obj| && TrueRecords(job, obj, ps) && AllMatch(obj, file, RangesOf(ps))
    ensures Verify(job, ps, file) == Ok((RangesOf(ps), false))
  {
    if ps == [] {
      assert RangesOf(ps) == [];
    } else {
      var rec := Decode(ps[0]).value;
      assert TrueRecord(job, obj, ps[0]);
      assert Matches(obj, file, RangesOf(ps)[0]);
      MatchSlice(obj, file, rec.range);
      assert RangesOf(ps)[1..] == RangesOf(ps[1..]);
      forall i | 0 <= i < |ps[1..]|
        ensures TrueRecord(job, obj, ps[1..][i]) && Matches(obj, file, RangesOf(ps[1..])[i])
      {
        assert ps[1..][i] == ps[i+1] && RangesOf(ps[1..])[i] == RangesOf(ps)[i+1];
      }
      VerifySound(job, obj, ps[1..], file);
      assert RangesOf(ps) == [rec.range] + RangesOf(ps[1..]);
    }
  }

  /** After any run, restarting a killed transfer succeeds: with exactly the ranges whose records
      the journal bytes still hold, or with none over an empty directory. */
  lemma RestartSucceeds(job: Job, obj: Bytes, life: Life)
    requires JobFor(job, obj) && Sound(job, obj, life) && life.Down? && CleanEvent(job, obj, life, Restart)
    ensures Next(job, life, Restart) ==
      if life.dir.file.Some? then Up(life.dir, RangesOf(Intact(job, life.dir))) else Up(Begun(job, life.dir), [])
  {
    if life.dir.file.Some? {
      VerifySound(job, obj, Intact(job, life.dir), life.dir.file.value);
    }
  }

  lemma RestartSound(job: Job, obj: Bytes, life: Life)
    requires JobFor(job, obj) && Sound(job, obj, life) && life.Down? && CleanEvent(job, obj, life, Restart)
    ensures Sound(job, obj, Next(job, life, Restart))
  {
    RestartSucceeds(job, obj, life);
    if life.dir.file.None? {
      assert Intact(job, Begun(job, life.dir)) == [] && RangesOf([]) == [];
    }
  }

  lemma BeginSound(job: Job, obj: Bytes, life: Life)
    requires JobFor(job, obj) && Sound(job, obj, life) && life.Down? && CleanEvent(job, obj, life, BeginOver)
    ensures Sound(job, obj, Next(job, life, BeginOver))
  {
    assert Intact(job, Begun(job, life.dir)) == [] && RangesOf([]) == [];
  }

  lemma FullyCovered(obj: Bytes, file: Bytes, rs: seq<Range>)
    requires AllMatch(obj, file, rs) && |file| == |obj|
    requires forall b :: 0 <= b < |obj| ==> Covered(rs, b)
    ensures file == obj
  {
    forall b | 0 <= b < |obj| ensures file[b] == obj[b] {
      assert Covered(rs, b);
      var i :| 0 <= i < |rs| && Holds(rs[i], b);
      assert Matches(obj, file, rs[i]);
    }
  }

  /** With nothing missing the file is the object. */
  lemma CompleteFile(obj: Bytes, life: Life)
    requires UpSound(obj, life) && Missing(life.recorded, |obj|) == []
    ensures life.dir.file == Some(obj)
  {
    CompleteIff(life.recorded, |obj|);
    FullyCovered(obj, life.dir.file.value, life.recorded);
  }

  lemma FinishedDir(job: Job, obj: Bytes, d: Dir, stop: Option<FinishFault>)
    requires DirSound(job, obj, d) && d.file == Some(obj)
    ensures DirSound(job, obj, AfterFinish(job, d, stop))
  {
    var u := AfterFinish(job, d, stop);
    assert u.journal == [] || Intact(job, u) == Intact(job, d);
    assert PublishedSound(obj, u);
  }

  lemma FinishSound(job: Job, obj: Bytes, life: Life, e: Event)
    requires JobFor(job, obj) && Sound(job, obj, life) && life.Up? && e.Finish?
    ensures Sound(job, obj, Next(job, life, e))
  {
    if Refusal(job, life.dir, life.recorded).None? {
      CompleteFile(obj, life);
      FinishedDir(job, obj, life.dir, e.stop);
    }
  }

  lemma EventSound(job: Job, obj: Bytes, life: Life, e: Event)
    requires JobFor(job, obj) && Sound(job, obj, life) && OfObject(obj, e) && CleanEvent(job, obj, life, e)
    ensures Sound(job, obj, Next(job, life, e))
  {
    if life.Down? {
      if e.Restart? { RestartSound(job, obj, life); }
      if e.BeginOver? { BeginSound(job, obj, life); }
    } else if e.Finish? {
      FinishSound(job, obj, life, e);
    } else if Accepted(job, life, e) {
      if e.fault.Some? {
        FaultSound(job, obj, life, e);
      } else {
        CommitSound(job, obj, life, e);
      }
    }
  }

  /** In every clean run of range writes of one object, kills anywhere inside them, restarts and
      finishes: recorded ranges stay in bounds and pairwise disjoint and hold the object's bytes,
      every record replay can read is true of the file, and the published name holds the object
      or nothing. */
  lemma {:induction false} RunSound(job: Job, obj: Bytes, life: Life, events: seq<Event>)
    requires JobFor(job, obj) && Sound(job, obj, life) && CleanRun(job, obj, life, events)
    ensures Sound(job, obj, Run(job, life, events))
    decreases |events|
  {
    if events != [] {
      EventSound(job, obj, life, events[0]);
      RunSound(job, obj, Next(job, life, events[0]), events[1..]);
    }
  }

  lemma StartSound(job: Job, obj: Bytes)
    requires JobFor(job, obj)
    ensures Sound(job, obj, Down(EMPTY_DIR))
  {
    assert Intact(job, EMPTY_DIR) == [];
  }

  // ---------------------------------------------------------------- completion

  function Sends(obj: Bytes, gaps: seq<Range>): seq<Event>
    requires forall i :: 0 <= i < |gaps| ==> End(gaps[i]) <= |obj|
  {
    if gaps == [] then [] else [Write(gaps[0].offset, Slice(obj, gaps[0]), None)] + Sends(obj, gaps[1..])
  }

  lemma FreeVerdict(recorded: seq<Range>, gaps: seq<Range>, total: nat)
    requires gaps != [] && Disjoint(recorded + gaps, total)
    ensures Verdict(recorded, total, gaps[0]) == Ok(Committed)
  {
    var all := recorded + gaps;
    assert all[|recorded|] == gaps[0];
    forall i | 0 <= i < |recorded| ensures !Overlap(gaps[0], recorded[i]) && recorded[i] != gaps[0] {
      assert all[i] == recorded[i] && !Overlap(all[i], all[|recorded|]);
    }
  }

  lemma SliceSent(obj: Bytes, r: Range)
    requires End(r) <= |obj|
    ensures Range(r.offset, |Slice(obj, r)|) == r && OfObject(obj, Write(r.offset, Slice(obj, r), None))
  {
  }

  lemma SendOneUp(job: Job, obj: Bytes, life: Life, gaps: seq<Range>)
    requires JobFor(job, obj) && UpSound(obj, life) && gaps != [] && End(gaps[0]) <= |obj|
    requires Disjoint(life.recorded + gaps, |obj|)
    ensures var after := Next(job, life, Write(gaps[0].offset, Slice(obj, gaps[0]), None));
      UpSound(obj, after) && after.recorded == life.recorded + [gaps[0]]
  {
    FreeVerdict(life.recorded, gaps, |obj|);
    SliceSent(obj, gaps[0]);
    CommitUp(job, obj, life, Write(gaps[0].offset, Slice(obj, gaps[0]), None));
  }

  lemma Regroup(a: seq<Range>, b: seq<Range>)
    requires b != []
    ensures a + [b[0]] + b[1..] == a + b
  {
  }

  /** Sending a list of ranges that are all free is accepted range by range, whatever state the
      journal is in. */
  lemma {:induction false} SendFree(job: Job, obj: Bytes, life: Life, gaps: seq<Range>)
    requires JobFor(job, obj) && UpSound(obj, life) && Disjoint(life.recorded + gaps, |obj|)
    requires forall i :: 0 <= i < |gaps| ==> End(gaps[i]) <= |obj|
    ensures var after := Run(job, life, Sends(obj, gaps)); UpSound(obj, after) && after.recorded == life.recorded + gaps
    decreases |gaps|
  {
    if gaps == [] {
      assert life.recorded + gaps == life.recorded;
    } else {
      var e := Write(gaps[0].offset, Slice(obj, gaps[0]), None);
      SendOneUp(job, obj, life, gaps);
      Regroup(life.recorded, gaps);
      SendFree(job, obj, Next(job, life, e), gaps[1..]);
      assert Sends(obj, gaps)[0] == e && Sends(obj, gaps)[1..] == Sends(obj, gaps[1..]);
    }
  }

  lemma CoveredEither(a: seq<Range>, b: seq<Range>, x: nat)
    requires Covered(a, x) || Covered(b, x)
    ensures Covered(a + b, x)
  {
    if Covered(a, x) {
      var i :| 0 <= i < |a| && Holds(a[i], x);
      assert Holds((a + b)[i], x);
    } else {
      var i :| 0 <= i < |b| && Holds(b[i], x);
      assert Holds((a + b)[|a| + i], x);
    }
  }

  lemma DisjointConcat(a: seq<Range>, b: seq<Range>, total: nat)
    requires Disjoint(a, total) && Ordered(b, total)
    requires forall i, j :: 0 <= i < |a| && 0 <= j < |b| ==> !Overlap(a[i], b[j])
    ensures Disjoint(a + b, total)
  {
    var all := a + b;
    forall i, j | 0 <= i < j < |all| ensures !Overlap(all[i], all[j]) {
      if i < |a| <= j {
        assert !Overlap(a[i], b[j - |a|]);
      }
    }
  }

  lemma NoShare(recorded: seq<Range>, gaps: seq<Range>, total: nat, i: nat, j: nat)
    requires Partition(recorded, gaps, total) && i < |recorded| && j < |gaps|
    requires End(recorded[i]) <= total && recorded[i].length > 0 && gaps[j].length > 0
    ensures !Overlap(recorded[i], gaps[j])
  {
    var b := if recorded[i].offset < gaps[j].offset then gaps[j].offset else recorded[i].offset;
    if Overlap(recorded[i], gaps[j]) {
      assert Holds(recorded[i], b) && Holds(gaps[j], b);
      assert Covered(recorded, b) && Covered(gaps, b);
      assert false;
    }
  }

  lemma GapsAreFree(recorded: seq<Range>, total: nat)
    requires Disjoint(recorded, total)
    ensures Disjoint(recorded + Missing(recorded, total), total)
    ensures forall b :: 0 <= b < total ==> Covered(recorded + Missing(recorded, total), b)
  {
    var gaps := Missing(recorded, total);
    ReceivedAndMissing(recorded, total);
    forall i, j | 0 <= i < |recorded| && 0 <= j < |gaps| ensures !Overlap(recorded[i], gaps[j]) {
      NoShare(recorded, gaps, total, i, j);
    }
    DisjointConcat(recorded, gaps, total);
    forall b | 0 <= b < total ensures Covered(recorded + gaps, b) {
      CoveredEither(recorded, gaps, b);
    }
  }

  ghost predicate GapsInside(obj: Bytes, life: Life)
    requires life.Up?
  {
    forall i :: 0 <= i < |Missing(life.recorded, |obj|)| ==> End(Missing(life.recorded, |obj|)[i]) <= |obj|
  }

  /** From any reachable running transfer, sending exactly `missing()` leaves the file equal to
      the object with nothing missing. */
  lemma SendMissingCompletes(job: Job, obj: Bytes, life: Life)
    requires JobFor(job, obj) && UpSound(obj, life)
    ensures GapsInside(obj, life)
    ensures var after := Run(job, life, Sends(obj, Missing(life.recorded, |obj|)));
      UpSound(obj, after) && after.dir.file == Some(obj) && Missing(after.recorded, |obj|) == []
  {
    var gaps := Missing(life.recorded, |obj|);
    ReceivedAndMissing(life.recorded, |obj|);
    GapsAreFree(life.recorded, |obj|);
    SendFree(job, obj, life, gaps);
    var after := Run(job, life, Sends(obj, gaps));
    FullyCovered(obj, after.dir.file.value, after.recorded);
    CompleteIff(after.recorded, |obj|);
  }

  lemma FinishPublishes(job: Job, obj: Bytes, life: Life)
    requires JobFor(job, obj) && job.digest(obj) == job.declared
    requires UpSound(obj, life) && life.dir.file == Some(obj) && Missing(life.recorded, |obj|) == []
    ensures Next(job, life, Finish(None)) == Down(Dir(None, false, [], Some(obj)))
  {
  }

  /** However a transfer of an object went, kills and restarts included: while it runs, sending
      exactly what is missing and finishing publishes the object and leaves nothing behind. */
  lemma EveryTransferCompletes(job: Job, obj: Bytes, events: seq<Event>)
    requires JobFor(job, obj) && job.digest(obj) == job.declared && CleanRun(job, obj, Down(EMPTY_DIR), events)
    ensures var life := Run(job, Down(EMPTY_DIR), events); life.Up? ==>
      && GapsInside(obj, life)
      && Next(job, Run(job, life, Sends(obj, Missing(life.recorded, |obj|))), Finish(None))
           == Down(Dir(None, false, [], Some(obj)))
  {
    StartSound(job, obj);
    RunSound(job, obj, Down(EMPTY_DIR), events);
    var life := Run(job, Down(EMPTY_DIR), events);
    if life.Up? {
      SendMissingCompletes(job, obj, life);
      FinishPublishes(job, obj, Run(job, life, Sends(obj, Missing(life.recorded, |obj|))));
    }
  }

  // ---------------------------------------------------------------- the published object

  /** The object is published, and a staged file that shares its inode holds it too. */
  ghost predicate HoldsObject(obj: Bytes, d: Dir) {
    d.published == Some(obj) && (d.linked ==> d.file == Some(obj))
  }

  /** A `begin` over a staged name that is still a link to the published object, which is not all
      zeros. */
  predicate BeginsOver(job: Job, obj: Bytes, life: Life, e: Event) {
    life.Down? && e.BeginOver? && life.dir.linked && obj != Zeros(job.total)
  }

  lemma WriteKeepsPublished(job: Job, obj: Bytes, d: Dir, e: Event)
    requires HoldsObject(obj, d) && d.file.Some? && |d.file.value| == |obj|
    requires e.Write? && e.offset + |e.bytes| <= |obj| && OfObject(obj, e)
    ensures HoldsObject(obj, AfterWrite(job, d, e.offset, e.bytes, e.fault))
  {
    DataOfObject(obj, e);
    SpliceMatches(obj, d.file.value, e.offset, Data(e));
  }

  lemma FinishKeepsPublished(job: Job, obj: Bytes, d: Dir, stop: Option<FinishFault>)
    requires HoldsObject(obj, d)
    ensures HoldsObject(obj, AfterFinish(job, d, stop))
  {
  }

  lemma UpKeepsPublished(job: Job, obj: Bytes, life: Life, e: Event)
    requires Fits(job, life) && job.total == |obj| && HoldsObject(obj, life.dir) && OfObject(obj, e) && life.Up?
    ensures HoldsObject(obj, Next(job, life, e).dir)
  {
    if Accepted(job, life, e) {
      WriteKeepsPublished(job, obj, life.dir, e);
    } else if e.Finish? {
      FinishKeepsPublished(job, obj, life.dir, e.stop);
    }
  }

  lemma DownKeepsPublishedIff(job: Job, obj: Bytes, life: Life, e: Event)
    requires Fits(job, life) && HoldsObject(obj, life.dir) && life.Down?
    ensures Next(job, life, e).dir.published == Some(obj) <==> !BeginsOver(job, obj, life, e)
    ensures !BeginsOver(job, obj, life, e) ==> HoldsObject(obj, Next(job, life, e).dir)
  {
  }

  /** From any state, whatever its journal: an event that sends only the object's bytes leaves the
      object published, and the staged name its equal while linked, exactly when it does not begin
      over that link. */
  lemma EventKeepsPublishedIff(job: Job, obj: Bytes, life: Life, e: Event)
    requires Fits(job, life) && job.total == |obj| && HoldsObject(obj, life.dir) && OfObject(obj, e)
    ensures Next(job, life, e).dir.published == Some(obj) <==> !BeginsOver(job, obj, life, e)
    ensures !BeginsOver(job, obj, life, e) ==> HoldsObject(obj, Next(job, life, e).dir)
  {
    if life.Up? {
      UpKeepsPublished(job, obj, life, e);
    } else {
      DownKeepsPublishedIff(job, obj, life, e);
    }
  }

  /** The object stays published at every moment of the run. */
  ghost predicate AlwaysPublished(job: Job, obj: Bytes, life: Life, events: seq<Event>)
    requires Fits(job, life)
    decreases |events|
  {
    && life.dir.published == Some(obj)
    && (events != [] ==> AlwaysPublished(job, obj, Next(job, life, events[0]), events[1..]))
  }

  predicate NeverBeginsOver(job: Job, obj: Bytes, life: Life, events: seq<Event>)
    requires Fits(job, life)
    decreases |events|
  {
    events != [] ==>
      !BeginsOver(job, obj, life, events[0]) && NeverBeginsOver(job, obj, Next(job, life, events[0]), events[1..])
  }

  /** Once published the object stays so, through writes to the staged name that shares its file,
      kills, resumes and later finishes, over every run that sends only the object's bytes and
      whatever the journal holds: if and only if no `begin` comes over a staged name still linked. */
  lemma {:induction false} PublishedStaysIff(job: Job, obj: Bytes, life: Life, events: seq<Event>)
    requires Fits(job, life) && job.total == |obj| && HoldsObject(obj, life.dir)
    requires forall e :: e in events ==> OfObject(obj, e)
    ensures AlwaysPublished(job, obj, life, events) <==> NeverBeginsOver(job, obj, life, events)
    decreases |events|
  {
    if events != [] {
      assert events[0] in events;
      assert forall e :: e in events[1..] ==> e in events;
      EventKeepsPublishedIff(job, obj, life, events[0]);
      if !BeginsOver(job, obj, life, events[0]) {
        PublishedStaysIff(job, obj, Next(job, life, events[0]), events[1..]);
      }
    }
  }

  /** Such a `begin` exists: after a `finish` killed between link and removal, beginning the attempt
      again overwrites the published object with zeros. */
  lemma BeginOverwrites(job: Job, obj: Bytes, life: Life)
    requires JobFor(job, obj) && UpSound(obj, life) && Refusal(job, life.dir, life.recorded).None?
    requires life.dir.published.None?
    ensures var down := Next(job, life, Finish(Some(BeforeRemoval)));
      && down.dir.published == Some(obj)
      && Next(job, down, BeginOver).dir.published == Some(Zeros(|obj|))
  {
    CompleteFile(obj, life);
  }
}
