/** When recovery of a sparse transfer works exactly: which acknowledged ranges a restart finds,
    when a torn tail is completed by accident, and when a restart is refused. */
module SparseRecovery {
  import opened Prelude
  import opened Digests
  import opened Ranges
  import opened RangeRecords
  import opened SparseTransfer
  import opened SparseRuns
  import BE = BigEndian
  import Journal

  // ---------------------------------------------------------------- torn journals

  lemma RunThree(job: Job, life: Life, a: Event, b: Event, c: Event)
    requires Fits(job, life)
    ensures Run(job, life, [a, b, c]) == Next(job, Next(job, Next(job, life, a), b), c)
  {
    var l1 := Next(job, life, a);
    var l2 := Next(job, l1, b);
    assert [a, b, c][1..] == [b, c] && [b, c][1..] == [c] && [c][1..] == [];
    assert Run(job, l2, [c]) == Next(job, l2, c);
    assert Run(job, l1, [b, c]) == Run(job, l2, [c]);
  }

  /** A range acknowledged as Committed, then a kill and a restart. Behind a journal that ends
      whole the range is found again. Behind a tail that stays sealed it is not, unless the journal
      showed it before: every byte after the tail is ignored, so the range is reported missing and
      must be sent again. Behind a tail the write completes, what comes back is what it spells. */
  lemma AckedRangeSurvivesIff(job: Job, obj: Bytes, life: Life, e: Event)
    requires JobFor(job, obj) && Sound(job, obj, life) && Accepted(job, life, e) && e.fault.None? && OfObject(obj, e)
    ensures var r := Range(e.offset, |e.bytes|); var frame := RecordFrame(job, e.offset, e.bytes);
      var tail := Tail(job, life.dir); var sum := FrameSum(job.blake); var shown := RangesOf(Intact(job, life.dir));
      var up := Run(job, life, [e, Kill, Restart]);
      && (Journal.Sealed(sum, life.dir.journal, frame) ==> up.Up? && (r in up.recorded <==> tail == [] || r in shown))
      && (tail == [] ==> up.Up? && up.recorded == life.recorded + [r])
      && (tail != [] && Journal.FirstFrame(sum, tail + frame).None? ==> up.Up? && up.recorded == shown)
      && (tail != [] && Journal.FirstFrame(sum, tail + frame).Some? ==>
            var p := Journal.FirstFrame(sum, tail + frame).value;
            && Intact(job, life.dir) + [p] <= Intact(job, Next(job, life, e).dir)
            && (Restores(job, obj, life.dir, frame) ==> up.Up? && up.recorded == shown + [RangeOf(p)]))
  {
    var frame, tail, sum := RecordFrame(job, e.offset, e.bytes), Tail(job, life.dir), FrameSum(job.blake);
    RunThree(job, life, e, Kill, Restart);
    Journal.ReplayAppend(sum, life.dir.journal, frame);
    if CleanEvent(job, obj, life, e) {
      CleanSurvival(job, obj, life, e);
      SurvivingRanges(job, obj, life, e);
    }
  }

  lemma CleanSurvival(job: Job, obj: Bytes, life: Life, e: Event)
    requires JobFor(job, obj) && Sound(job, obj, life) && Accepted(job, life, e) && e.fault.None? && OfObject(obj, e)
    requires CleanEvent(job, obj, life, e)
    ensures var up := Next(job, Down(Next(job, life, e).dir), Restart);
      up.Up? && up.recorded == RangesOf(Intact(job, life.dir)) + GainedRanges(job, life.dir, e)
  {
    var dir := Next(job, life, e).dir;
    CommitSound(job, obj, life, e);
    WriteRecords(job, obj, life, e, dir);
    RestartSucceeds(job, obj, Down(dir));
  }

  lemma SurvivingRanges(job: Job, obj: Bytes, life: Life, e: Event)
    requires JobFor(job, obj) && Sound(job, obj, life) && Accepted(job, life, e) && e.fault.None? && OfObject(obj, e)
    requires CleanEvent(job, obj, life, e)
    ensures var r := Range(e.offset, |e.bytes|); var shown := RangesOf(Intact(job, life.dir));
      var f := Journal.FirstFrame(FrameSum(job.blake), Tail(job, life.dir) + RecordFrame(job, e.offset, e.bytes));
      var found := shown + GainedRanges(job, life.dir, e);
      && (Tail(job, life.dir) == [] ==> found == life.recorded + [r] && r in found)
      && (Tail(job, life.dir) != [] ==> found == if f.Some? then shown + [RangeOf(f.value)] else shown)
  {
    var r, shown := Range(e.offset, |e.bytes|), RangesOf(Intact(job, life.dir));
    var f := Journal.FirstFrame(FrameSum(job.blake), Tail(job, life.dir) + RecordFrame(job, e.offset, e.bytes));
    WriteGains(job, obj, life, e);
    assert shown + [] == shown && (life.recorded + [r])[|life.recorded|] == r;
    if f.Some? { OneRange(f.value); }
    OneRange([]);
  }

  /** The accident that needs no hash coincidence: a kill one byte short of a whole record. The
      next frame starts with a zero byte, so the record comes back exactly when its checksum ends
      in zero. */
  lemma OneByteShort(job: Job, offset: nat, bytes: Bytes, offset': nat, bytes': Bytes)
    requires Wide(job.blake) && offset + |bytes| <= job.total && offset' + |bytes'| <= job.total
    ensures var p := Encode(RecordOf(job, offset, bytes)); var frame := RecordFrame(job, offset, bytes);
      Journal.FirstFrame(FrameSum(job.blake), frame[..|frame|-1] + RecordFrame(job, offset', bytes')) ==
        if job.blake(p)[3] == 0 then Some(p) else None
  {
    var sum, p, more := FrameSum(job.blake), Encode(RecordOf(job, offset, bytes)), RecordFrame(job, offset', bytes');
    FrameSums(job.blake);
    RecordFits(job, offset, bytes);
    FrameStart(job, offset', bytes');
    FrameCut(sum, p, more);
  }

  lemma FrameStart(job: Job, offset: nat, bytes: Bytes)
    requires offset + |bytes| <= job.total
    ensures RecordFrame(job, offset, bytes) != [] && RecordFrame(job, offset, bytes)[0] == 0
  {
    var p := Encode(RecordOf(job, offset, bytes));
    HexPlain(Head(job.blake(bytes), 16));
    RecordShort(RecordOf(job, offset, bytes));
    ShortLength(|p|);
  }

  lemma FrameCut(sum: Journal.Checksum, p: Bytes, more: Bytes)
    requires Journal.FourBytes(sum) && |p| < U32_LIMIT && more != [] && more[0] == 0
    ensures var frame := Journal.Frame(sum, p);
      Journal.FirstFrame(sum, frame[..|frame|-1] + more) == if sum(p)[3] == 0 then Some(p) else None
  {
    Journal.FrameParses(sum, p, []);
    Journal.CutInChecksum(sum, p, 3, more);
    assert more[..1] == [more[0]] && sum(p)[3..] == [sum(p)[3]];
  }

  lemma DecodeFour(b: Bytes, w: nat, x: nat, y: nat, z: nat)
    requires |b| == 4 && b[0] == w && b[1] == x && b[2] == y && b[3] == z
    ensures BE.Decode(b) == 256 * (256 * (256 * w + x) + y) + z
  {
    assert b[..3][..2] == b[..2] && b[..2][..1] == b[..1] && b[..1][..0] == [];
    assert BE.Decode(b[..1]) == w;
    assert BE.Decode(b[..2]) == 256 * w + x;
    assert BE.Decode(b[..3]) == 256 * (256 * w + x) + y;
  }

  /** How every record's frame begins: a short length, then the word "range". */
  lemma FrameHead(job: Job, offset: nat, bytes: Bytes)
    requires Wide(job.blake) && offset + |bytes| <= job.total
    ensures var frame := RecordFrame(job, offset, bytes); var n := |Encode(RecordOf(job, offset, bytes))|;
      6 < n < 256 && |frame| == 8 + n && frame[..8] == [0, 0, 0, n, 114, 97, 110, 103]
  {
    var p := Encode(RecordOf(job, offset, bytes));
    HexPlain(Head(job.blake(bytes), 16));
    RecordShort(RecordOf(job, offset, bytes));
    ShortLength(|p|);
    assert p[..4] == RANGE[..4];
    var frame := RecordFrame(job, offset, bytes);
    assert frame[..4] == BE.Encode(|p|, 4) && frame[4..8] == p[..4];
    assert frame[..8] == frame[..4] + frame[4..8];
  }

  /** A frame without its first one to four bytes reads as a length far past its end. */
  lemma LateHeader(b: Bytes, n: nat, owed: nat)
    requires 6 < n < 256 && 1 <= owed <= 4 && |b| == 8 && b == [0, 0, 0, n, 114, 97, 110, 103]
    ensures BE.Decode(b[owed..owed+4]) > 300
  {
    DecodeFour(b[owed..owed+4], b[owed], b[owed+1], b[owed+2], b[owed+3]);
  }

  lemma LeftFour(frame: Bytes, m: nat, owed: nat)
    requires |frame| >= 8 && owed <= 4 && owed + 4 <= |Head(frame, m)|
    ensures Head(frame, m)[owed..][..4] == frame[..8][owed..owed+4]
  {
    var whole := Head(frame, m);
    assert forall i :: 0 <= i < |whole| ==> whole[i] == frame[i];
  }

  lemma LeftoverSealed(job: Job, offset: nat, bytes: Bytes, m: nat, owed: nat)
    requires Wide(job.blake) && offset + |bytes| <= job.total && 1 <= owed <= 4
    requires owed <= |Head(RecordFrame(job, offset, bytes), m)|
    ensures Journal.Replay(FrameSum(job.blake), Head(RecordFrame(job, offset, bytes), m)[owed..]).0 == []
  {
    var frame := RecordFrame(job, offset, bytes);
    var left := Head(frame, m)[owed..];
    FrameHead(job, offset, bytes);
    if |left| >= 4 {
      LateHeader(frame[..8], |frame| - 8, owed);
      LeftFour(frame, m, owed);
      assert Journal.FirstFrame(FrameSum(job.blake), left).None?;
    }
  }

  /** Bytes of a next append behind a tail cut inside its checksum: they leave it sealed, or complete
      exactly the record that was cut. */
  lemma CutTailMends(job: Job, p: Bytes, k: nat, tail: Bytes, offset: nat, bytes: Bytes, m: nat, journal: Bytes)
    requires Wide(job.blake) && |p| < U32_LIMIT && k < 4 && offset + |bytes| <= job.total
    requires 4 + |p| + k <= |Journal.Frame(FrameSum(job.blake), p)|
    requires tail == Journal.Frame(FrameSum(job.blake), p)[..4+|p|+k]
    requires Journal.Rest(FrameSum(job.blake), journal) == tail
    ensures var sum := FrameSum(job.blake); var more := Head(RecordFrame(job, offset, bytes), m);
      || Journal.Sealed(sum, journal, more)
      || (Journal.FirstFrame(sum, tail + more) == Some(p) && Journal.Mends(sum, journal, more))
  {
    var sum, more := FrameSum(job.blake), Head(RecordFrame(job, offset, bytes), m);
    FrameSums(job.blake);
    if |more| < 4 - k {
      ShortTail(sum, p, tail + more, tail, more);
    } else {
      Journal.CutInChecksum(sum, p, k, more);
      LeftoverSealed(job, offset, bytes, m, 4 - k);
      assert (tail + more)[8+|p|..] == more[4-k..];
    }
  }

  lemma ShortTail(sum: Journal.Checksum, p: Bytes, t: Bytes, tail: Bytes, more: Bytes)
    requires Journal.FourBytes(sum) && |p| < U32_LIMIT && t == tail + more && 4 + |p| <= |tail| && |t| < 8 + |p|
    requires |tail| <= |Journal.Frame(sum, p)| && tail == Journal.Frame(sum, p)[..|tail|]
    ensures Journal.FirstFrame(sum, t).None?
  {
    BE.Widths();
    BE.DecodeEncode(|p|, 4);
    assert t[..4] == BE.Encode(|p|, 4);
  }

  lemma CutJournal(job: Job, d: Dir, e: Event, k: nat, u: Dir)
    requires Wide(job.blake) && Tail(job, d) == [] && e.Write? && e.offset + |e.bytes| <= job.total && k < 4
    requires e.fault == Some(DuringAppend(4 + |Encode(RecordOf(job, e.offset, e.bytes))| + k))
    requires u.journal == d.journal + Appended(job, e.offset, e.bytes, e.fault)
    ensures var p := Encode(RecordOf(job, e.offset, e.bytes)); var frame := RecordFrame(job, e.offset, e.bytes);
      4 + |p| + k < |frame| && Tail(job, u) == frame[..4+|p|+k] && Intact(job, u) == Intact(job, d)
  {
    var p := Encode(RecordOf(job, e.offset, e.bytes));
    FrameHead(job, e.offset, e.bytes);
    FrameSums(job.blake);
    RecordFits(job, e.offset, e.bytes);
    Journal.AppendPart(FrameSum(job.blake), d.journal, p, 4 + |p| + k);
  }

  /** The directory a kill inside the checksum leaves: all the data, and all of the record but its
      last checksum bytes. */
  lemma KilledInChecksum(job: Job, obj: Bytes, life: Life, e: Event, k: nat)
    requires JobFor(job, obj) && WholeUp(job, obj, life) && Accepted(job, life, e) && OfObject(obj, e) && k < 4
    requires e.fault == Some(DuringAppend(4 + |Encode(RecordOf(job, e.offset, e.bytes))| + k))
    ensures var d := AfterWrite(job, life.dir, e.offset, e.bytes, e.fault);
      var p := Encode(RecordOf(job, e.offset, e.bytes));
      && TrueRecord(job, obj, p) && Matches(obj, d.file.value, RangeOf(p))
      && Disjoint(RangesOf(Intact(job, life.dir)) + [RangeOf(p)], |obj|)
  {
    VerdictMeans(life.recorded, |obj|, Range(e.offset, |e.bytes|));
    SentRecordTrue(job, obj, e.offset, e.bytes);
    SpliceMatches(obj, life.dir.file.value, e.offset, e.bytes);
  }

  /** Any write over such a directory is clean. */
  lemma CutIsClean(job: Job, obj: Bytes, up: Life, p: Bytes, k: nat, f: Event)
    requires JobFor(job, obj) && up.Up? && up.dir.file.Some? && |p| < U32_LIMIT && k < 4
    requires 4 + |p| + k <= |Journal.Frame(FrameSum(job.blake), p)|
    requires Tail(job, up.dir) == Journal.Frame(FrameSum(job.blake), p)[..4+|p|+k]
    requires TrueRecord(job, obj, p) && Matches(obj, up.dir.file.value, RangeOf(p))
    requires Disjoint(RangesOf(Intact(job, up.dir)) + [RangeOf(p)], |obj|)
    requires Accepted(job, up, f)
    ensures CleanEvent(job, obj, up, f)
  {
    var more := Appended(job, f.offset, f.bytes, f.fault);
    var m := if f.fault.None? then |more| else if f.fault.value.DuringAppend? then f.fault.value.appended else 0;
    assert more == Head(RecordFrame(job, f.offset, f.bytes), m);
    CutTailMends(job, p, k, Tail(job, up.dir), f.offset, f.bytes, m, up.dir.journal);
  }

  lemma CutRestarts(job: Job, obj: Bytes, life: Life, e: Event)
    requires JobFor(job, obj) && WholeUp(job, obj, life) && Accepted(job, life, e) && OfObject(obj, e) && e.fault.Some?
    ensures var d := AfterWrite(job, life.dir, e.offset, e.bytes, e.fault);
      Next(job, Next(job, life, e), Restart) == Up(d, RangesOf(Intact(job, d)))
  {
    FaultSound(job, obj, life, e);
    RestartSucceeds(job, obj, Next(job, life, e));
  }

  /** A kill inside a record's checksum never harms: whatever is sent next after the restart, whole
      or killed itself, leaves the tail sealed or brings back the record that was cut. */
  lemma NextWriteRestores(job: Job, obj: Bytes, life: Life, e: Event, k: nat, f: Event)
    requires JobFor(job, obj) && WholeUp(job, obj, life) && Accepted(job, life, e) && OfObject(obj, e) && k < 4
    requires e.fault == Some(DuringAppend(4 + |Encode(RecordOf(job, e.offset, e.bytes))| + k))
    requires Accepted(job, Next(job, Next(job, life, e), Restart), f)
    ensures CleanEvent(job, obj, Next(job, Next(job, life, e), Restart), f)
  {
    var d, p := AfterWrite(job, life.dir, e.offset, e.bytes, e.fault), Encode(RecordOf(job, e.offset, e.bytes));
    CutRestarts(job, obj, life, e);
    KilledInChecksum(job, obj, life, e, k);
    CutJournal(job, life.dir, e, k, d);
    RecordFits(job, e.offset, e.bytes);
    CutIsClean(job, obj, Up(d, RangesOf(Intact(job, d))), p, k, f);
  }

  lemma ShortLength(n: nat)
    requires n < 256
    ensures BE.Encode(n, 4) == [0, 0, 0, n]
  {
    assert BE.Encode(n, 4) == BE.Encode(n / 256, 3) + [n % 256];
    assert BE.Encode(0, 3) == BE.Encode(0, 2) + [0];
    assert BE.Encode(0, 2) == BE.Encode(0, 1) + [0];
    assert BE.Encode(0, 1) == BE.Encode(0, 0) + [0];
  }

  lemma DecimalDigit(n: nat)
    requires n < 10
    ensures Decimal(n) == [ZERO + n]
  {
  }

  /** The frame of a one-byte range at offset one. */
  lemma SecondFrame(job: Job, b: byte)
    requires Wide(job.blake)
    ensures var frame := RecordFrame(job, 1, [b]);
      |frame| > 8 && frame[..7] == [0, 0, 0, 42, 114, 97, 110]
  {
    var rec := RecordOf(job, 1, [b]);
    var p := Encode(rec);
    DecimalDigit(1);
    assert |rec.sum| == 32;
    assert p == RANGE + [BAR] + ([ZERO + 1] + [BAR] + ([ZERO + 1] + [BAR] + rec.sum));
    assert |p| == 42;
    ShortLength(42);
    assert p[..3] == [114, 97, 110];
    var frame := RecordFrame(job, 1, [b]);
    assert frame[..4] == [0, 0, 0, 42];
    assert frame[4..7] == p[..3];
    assert frame[..7] == frame[..4] + frame[4..7];
  }

  /** One stray header byte hides every later frame of the example. */
  lemma StrayByte(job: Job, b: byte)
    requires Wide(job.blake) && job.blake([])[0] != 42
    ensures Journal.FirstFrame(FrameSum(job.blake), [0] + RecordFrame(job, 1, [b])).None?
  {
    var frame := RecordFrame(job, 1, [b]);
    SecondFrame(job, b);
    var all: Bytes := [0] + frame;
    assert all[..4] == [0, 0, 0, 0];
    DecodeFour(all[..4], 0, 0, 0, 0);
    assert all[4..8] == frame[3..7] && frame[3..7][0] == frame[..7][3] == 42;
    assert all[4..4] == [];
  }

  /** The first process: killed with one byte of the record of its first range on disk. */
  lemma TornStart(job: Job)
    requires Wide(job.blake) && job.total == 2
    ensures var dir := Dir(Some([7, 0]), false, [0], None);
      Run(job, Down(EMPTY_DIR), [Restart, Write(0, [7], Some(DuringAppend(1))), Restart]) == Up(dir, [])
  {
    var w := Write(0, [7], Some(DuringAppend(1)));
    RunThree(job, Down(EMPTY_DIR), Restart, w, Restart);
    var begun := Dir(Some([0, 0]), false, [], None);
    assert Zeros(job.total) == [0, 0];
    assert Begun(job, EMPTY_DIR) == begun;
    assert Next(job, Down(EMPTY_DIR), Restart) == Up(begun, []);
    var frame := RecordFrame(job, 0, [7]);
    HexPlain(Head(job.blake([7]), 16));
    RecordShort(RecordOf(job, 0, [7]));
    ShortLength(|Encode(RecordOf(job, 0, [7]))|);
    assert Head(frame, 1) == [0];
    assert Splice([0, 0], 0, [7]) == [7, 0];
    var torn := Dir(Some([7, 0]), false, [0], None);
    assert Next(job, Up(begun, []), w) == Down(torn);
    assert Journal.FirstFrame(FrameSum(job.blake), [0]).None?;
    assert Next(job, Down(torn), Restart) == Up(torn, []);
  }

  lemma StrayTail(job: Job, torn: Life)
    requires Wide(job.blake) && job.total == 2 && torn == Up(Dir(Some([7, 0]), false, [0], None), [])
    ensures Tail(job, torn.dir) == [0] && Intact(job, torn.dir) == []
    ensures Sound(job, [7, 8], torn) && Accepted(job, torn, Write(1, [8], None))
  {
    assert Journal.FirstFrame(FrameSum(job.blake), [0]).None?;
    assert RangesOf([]) == [];
  }

  /** The failing family is reachable, byte by byte: a kill during an append, a restart, an
      acknowledged write, a kill, and the restart that has forgotten it. */
  lemma TornJournalForgets(job: Job)
    requires Wide(job.blake) && job.total == 2 && job.blake([])[0] != 42
    ensures var torn := Run(job, Down(EMPTY_DIR), [Restart, Write(0, [7], Some(DuringAppend(1))), Restart]);
      && Accepted(job, torn, Write(1, [8], None))
      && var up := Run(job, torn, [Write(1, [8], None), Kill, Restart]); up.Up? && up.recorded == []
  {
    var torn := Up(Dir(Some([7, 0]), false, [0], None), []);
    TornStart(job);
    StrayTail(job, torn);
    StrayByte(job, 8);
    OneRange([]);
    SecondOfObject();
    AckedRangeSurvivesIff(job, [7, 8], torn, Write(1, [8], None));
  }

  lemma SecondOfObject()
    ensures OfObject([7, 8], Write(1, [8], None))
  {
    var obj: Bytes := [7, 8];
    assert Slice(obj, Range(1, 1)) == [8];
  }

  // ---------------------------------------------------------------- the exact condition

  /** The records a resume looks at: up to the first that does not decode or is out of bounds. */
  function Leading(job: Job, ps: seq<Bytes>): (r: seq<Record>)
    ensures forall i :: 0 <= i < |r| ==> End(r[i].range) <= job.total
  {
    if ps == [] then []
    else
      match Decode(ps[0])
      case None => []
      case Some(rec) => if End(rec.range) > job.total then [] else [rec] + Leading(job, ps[1..])
  }

  ghost predicate Agrees(job: Job, file: Bytes, rec: Record)
    requires |file| == job.total
  {
    End(rec.range) <= job.total && RangeSum(job.blake, Slice(file, rec.range)) == rec.sum
  }

  ghost predicate AllAgree(job: Job, file: Bytes, recs: seq<Record>)
    requires |file| == job.total
  {
    forall i :: 0 <= i < |recs| ==> Agrees(job, file, recs[i])
  }

  lemma AgreeFirst(job: Job, file: Bytes, rec: Record, rest: seq<Record>)
    requires |file| == job.total
    ensures AllAgree(job, file, [rec] + rest) <==> Agrees(job, file, rec) && AllAgree(job, file, rest)
  {
    var all := [rec] + rest;
    assert all[0] == rec;
    if AllAgree(job, file, all) {
      forall i | 0 <= i < |rest| ensures Agrees(job, file, rest[i]) {
        assert all[i+1] == rest[i];
      }
    }
  }

  lemma {:induction false} VerifyIff(job: Job, ps: seq<Bytes>, file: Bytes)
    requires |file| == job.total
    ensures Verify(job, ps, file).Ok? <==> AllAgree(job, file, Leading(job, ps))
  {
    if ps != [] && Decode(ps[0]).Some? && End(Decode(ps[0]).value.range) <= job.total {
      VerifyIff(job, ps[1..], file);
      AgreeFirst(job, file, Decode(ps[0]).value, Leading(job, ps[1..]));
    }
  }

  /** A restart succeeds, on any directory whatever, exactly when the staged file is gone or every
      record the journal shows agrees with it. */
  lemma RestartIff(job: Job, d: Dir)
    requires Sized(job, d)
    ensures Next(job, Down(d), Restart).Up? <==>
      (d.file.Some? ==> AllAgree(job, d.file.value, Leading(job, Intact(job, d))))
  {
    if d.file.Some? { VerifyIff(job, Intact(job, d), d.file.value); }
  }

  /** A refused restart stays refused until the attempt is begun over: nothing else changes the
      directory of a transfer that is not running. */
  lemma {:induction false} RefusedForGood(job: Job, d: Dir, events: seq<Event>)
    requires Sized(job, d) && Next(job, Down(d), Restart).Down? && BeginOver !in events
    ensures Run(job, Down(d), events) == Down(d)
    decreases |events|
  {
    if events != [] {
      assert events[0] in events;
      RefusedForGood(job, d, events[1..]);
    }
  }

  // ---------------------------------------------------------------- beginning again over a stale journal

  /** Running over a journal whose first `n` records an earlier, finished life wrote: all records
      are true of the object, and those past `n` are true of the file. */
  ghost predicate OverStale(job: Job, obj: Bytes, life: Life, n: nat) {
    && UpSound(obj, life) && n <= |Intact(job, life.dir)| && TrueRecords(job, obj, Intact(job, life.dir))
    && AllMatch(obj, life.dir.file.value, RangesOf(Intact(job, life.dir)[n..]))
  }

  /** The directory `finish` leaves when it dies before the sweep, and what the next process
      makes of it. */
  lemma BeginsAgain(job: Job, life: Life)
    requires Fits(job, life) && life.Up? && Refusal(job, life.dir, life.recorded).None?
    ensures var dir := Removed(Linked(life.dir));
      && Next(job, life, Finish(Some(BeforeSweep))) == Down(dir)
      && Next(job, Down(dir), Restart) == Up(Begun(job, dir), [])
  {
  }

  /** What the next process begins with when `finish` died before the sweep. */
  function Second(job: Job, sent: Life): Life {
    Up(Begun(job, Removed(Linked(sent.dir))), [])
  }

  lemma LinkedAway(obj: Bytes, d: Dir)
    requires PublishedSound(obj, d) && d.file == Some(obj)
    ensures Removed(Linked(d)) == Dir(None, false, d.journal, Some(obj))
  {
  }

  /** `finish` killed with the staged name gone and the directory not swept: the object is
      published, and the next process begins with an empty file over the whole old journal. */
  lemma StaleBegins(job: Job, obj: Bytes, life: Life)
    requires JobFor(job, obj) && Sound(job, obj, life) && life.Up? && Refusal(job, life.dir, life.recorded).None?
    ensures var again := Second(job, life);
      && again.dir.published == Some(obj) && again.dir.journal == life.dir.journal
      && Intact(job, again.dir) == Intact(job, life.dir) && OverStale(job, obj, again, |Intact(job, life.dir)|)
  {
    CompleteFile(obj, life);
    LinkedAway(obj, life.dir);
    StaleDir(job, obj, Second(job, life).dir);
  }

  lemma StaleDir(job: Job, obj: Bytes, d: Dir)
    requires d.file.Some? && |d.file.value| == |obj| && PublishedSound(obj, d) && TrueRecords(job, obj, Intact(job, d))
    ensures OverStale(job, obj, Up(d, []), |Intact(job, d)|)
  {
    var ps := Intact(job, d);
    assert ps[|ps|..] == [] && RangesOf([]) == [];
  }

  /** What a write over a stale journal adds: its own range, or what is in the file. */
  ghost predicate StaleGood(job: Job, obj: Bytes, file: Bytes, e: Event, gained: seq<Bytes>)
    requires e.Write?
  {
    && TrueRecords(job, obj, gained)
    && (RangesOf(gained) == [Range(e.offset, |e.bytes|)] || AllMatch(obj, file, RangesOf(gained)))
  }

  lemma StaleOwn(job: Job, obj: Bytes, life: Life, e: Event)
    requires JobFor(job, obj) && UpSound(obj, life) && Accepted(job, life, e) && OfObject(obj, e)
    ensures StaleGood(job, obj, life.dir.file.value, e, [Encode(RecordOf(job, e.offset, e.bytes))])
  {
    VerdictMeans(life.recorded, |obj|, Range(e.offset, |e.bytes|));
    SentRecordTrue(job, obj, e.offset, e.bytes);
    OneRange(Encode(RecordOf(job, e.offset, e.bytes)));
  }

  lemma StaleOther(job: Job, obj: Bytes, file: Bytes, e: Event, p: Bytes)
    requires e.Write? && TrueRecord(job, obj, p) && Matches(obj, file, RangeOf(p))
    ensures StaleGood(job, obj, file, e, [p]) && StaleGood(job, obj, file, e, [])
  {
    OneRange(p);
  }

  lemma StaleGain(job: Job, obj: Bytes, life: Life, n: nat, e: Event)
    requires JobFor(job, obj) && OverStale(job, obj, life, n) && Accepted(job, life, e) && e.fault.None?
    requires OfObject(obj, e) && CleanEvent(job, obj, life, e)
    ensures StaleGood(job, obj, life.dir.file.value, e, Gained(job, life.dir, e.offset, e.bytes, None))
  {
    if Lands(job, life.dir, e.offset, e.bytes, None) {
      StaleOwn(job, obj, life, e);
    } else if Gained(job, life.dir, e.offset, e.bytes, None) == [] {
      OneRange([]);
    } else {
      var f := Journal.FirstFrame(FrameSum(job.blake), Tail(job, life.dir) + RecordFrame(job, e.offset, e.bytes));
      StaleOther(job, obj, life.dir.file.value, e, f.value);
    }
  }

  /** The records after an acknowledged write over a stale journal. */
  lemma StaleRecords(job: Job, obj: Bytes, life: Life, n: nat, e: Event, u: Dir)
    requires JobFor(job, obj) && OverStale(job, obj, life, n) && Accepted(job, life, e) && e.fault.None?
    requires OfObject(obj, e) && CleanEvent(job, obj, life, e)
    requires u.journal == life.dir.journal + Appended(job, e.offset, e.bytes, None)
    ensures n <= |Intact(job, u)| && Intact(job, u)[..n] == Intact(job, life.dir)[..n]
    ensures TrueRecords(job, obj, Intact(job, u))
    ensures RangesOf(Intact(job, u)[n..]) == RangesOf(Intact(job, life.dir)[n..]) + GainedRanges(job, life.dir, e)
  {
    VerdictMeans(life.recorded, |obj|, Range(e.offset, |e.bytes|));
    AppendCases(job, life.dir, e.offset, e.bytes, None, u);
    StaleGain(job, obj, life, n, e);
    AfterCut(job, obj, Intact(job, life.dir), Gained(job, life.dir, e.offset, e.bytes, None), n);
  }

  lemma AfterCut(job: Job, obj: Bytes, ps: seq<Bytes>, gained: seq<Bytes>, n: nat)
    requires n <= |ps| && TrueRecords(job, obj, ps) && TrueRecords(job, obj, gained)
    ensures (ps + gained)[..n] == ps[..n] && TrueRecords(job, obj, ps + gained)
    ensures RangesOf((ps + gained)[n..]) == RangesOf(ps[n..]) + RangesOf(gained)
  {
    assert (ps + gained)[n..] == ps[n..] + gained;
    RangesConcat(ps[n..], gained);
  }

  lemma StaleMatch(job: Job, obj: Bytes, life: Life, e: Event, rs: seq<Range>, gained: seq<Range>)
    requires JobFor(job, obj) && UpSound(obj, life) && Accepted(job, life, e) && OfObject(obj, e)
    requires AllMatch(obj, life.dir.file.value, rs) && e.offset + |e.bytes| <= |obj|
    requires gained == [Range(e.offset, |e.bytes|)] || AllMatch(obj, life.dir.file.value, gained)
    ensures AllMatch(obj, Splice(life.dir.file.value, e.offset, e.bytes), rs + gained)
  {
    var file := Splice(life.dir.file.value, e.offset, e.bytes);
    SpliceKeeps(obj, life.dir.file.value, rs, e.offset, e.bytes);
    SpliceMatches(obj, life.dir.file.value, e.offset, e.bytes);
    if AllMatch(obj, life.dir.file.value, gained) {
      SpliceKeeps(obj, life.dir.file.value, gained, e.offset, e.bytes);
    }
    AllMatchConcat(obj, file, rs, gained);
  }

  /** An acknowledged write over a stale journal. */
  lemma StaleWrite(job: Job, obj: Bytes, life: Life, n: nat, e: Event)
    requires JobFor(job, obj) && OverStale(job, obj, life, n) && Accepted(job, life, e) && e.fault.None?
    requires OfObject(obj, e) && CleanEvent(job, obj, life, e)
    ensures OverStale(job, obj, Next(job, life, e), n)
    ensures Intact(job, life.dir)[..n] == Intact(job, Next(job, life, e).dir)[..n]
  {
    CommitUp(job, obj, life, e);
    StaleRecords(job, obj, life, n, e, Next(job, life, e).dir);
    StaleGain(job, obj, life, n, e);
    VerdictMeans(life.recorded, |obj|, Range(e.offset, |e.bytes|));
    StaleMatch(job, obj, life, e, RangesOf(Intact(job, life.dir)[n..]), GainedRanges(job, life.dir, e));
  }

  /** Any number of writes, acknowledged, refused or repeated. */
  lemma {:induction false} StaleWrites(job: Job, obj: Bytes, life: Life, n: nat, events: seq<Event>)
    requires JobFor(job, obj) && OverStale(job, obj, life, n) && CleanRun(job, obj, life, events)
    requires forall i :: 0 <= i < |events| ==> events[i].Write? && events[i].fault.None?
    ensures var after := Run(job, life, events);
      OverStale(job, obj, after, n) && Intact(job, after.dir)[..n] == Intact(job, life.dir)[..n]
    decreases |events|
  {
    if events != [] {
      if Accepted(job, life, events[0]) {
        StaleWrite(job, obj, life, n, events[0]);
      }
      StaleWrites(job, obj, Next(job, life, events[0]), n, events[1..]);
    }
  }

  lemma {:induction false} LeadingTrue(job: Job, obj: Bytes, ps: seq<Bytes>)
    requires JobFor(job, obj) && TrueRecords(job, obj, ps)
    ensures |Leading(job, ps)| == |ps|
    ensures forall i :: 0 <= i < |ps| ==> Decode(ps[i]) == Some(Leading(job, ps)[i])
  {
    if ps != [] {
      assert TrueRecord(job, obj, ps[0]);
      forall i | 0 <= i < |ps[1..]| ensures TrueRecord(job, obj, ps[1..][i]) {
        assert ps[1..][i] == ps[i+1];
      }
      LeadingTrue(job, obj, ps[1..]);
      forall i | 0 <= i < |ps| ensures Decode(ps[i]) == Some(Leading(job, ps)[i]) {
        if i > 0 { assert ps[i] == ps[1..][i-1]; }
      }
    }
  }

  /** The file has, where a record points, bytes with the checksum of the object's. */
  ghost predicate SumAgrees(job: Job, obj: Bytes, file: Bytes, r: Range) {
    End(r) <= |obj| && |file| == |obj| && RangeSum(job.blake, Slice(file, r)) == RangeSum(job.blake, Slice(obj, r))
  }

  ghost predicate RangesAgree(job: Job, obj: Bytes, file: Bytes, rs: seq<Range>) {
    forall i :: 0 <= i < |rs| ==> SumAgrees(job, obj, file, rs[i])
  }

  lemma AgreesIff(job: Job, obj: Bytes, p: Bytes, rec: Record, file: Bytes)
    requires JobFor(job, obj) && |file| == |obj| && TrueRecord(job, obj, p) && Decode(p) == Some(rec)
    ensures Agrees(job, file, rec) <==> SumAgrees(job, obj, file, RangeOf(p))
  {
  }

  lemma LeadingAgree(job: Job, obj: Bytes, file: Bytes, ps: seq<Bytes>)
    requires JobFor(job, obj) && |file| == |obj| && TrueRecords(job, obj, ps)
    ensures AllAgree(job, file, Leading(job, ps)) <==> RangesAgree(job, obj, file, RangesOf(ps))
  {
    var recs, rs := Leading(job, ps), RangesOf(ps);
    LeadingTrue(job, obj, ps);
    forall i | 0 <= i < |ps| ensures Agrees(job, file, recs[i]) <==> SumAgrees(job, obj, file, rs[i]) {
      assert TrueRecord(job, obj, ps[i]);
      AgreesIff(job, obj, ps[i], recs[i], file);
    }
  }

  lemma LaterAgree(job: Job, obj: Bytes, file: Bytes, rs: seq<Range>, n: nat)
    requires n <= |rs| && AllMatch(obj, file, rs[n..])
    ensures RangesAgree(job, obj, file, rs) <==> RangesAgree(job, obj, file, rs[..n])
  {
    forall i | n <= i < |rs| ensures SumAgrees(job, obj, file, rs[i]) {
      assert rs[i] == rs[n..][i-n];
      MatchSlice(obj, file, rs[i]);
    }
    if RangesAgree(job, obj, file, rs[..n]) {
      forall i | 0 <= i < n ensures SumAgrees(job, obj, file, rs[i]) {
        assert rs[..n][i] == rs[i];
      }
    }
  }

  lemma RangesCut(ps: seq<Bytes>, n: nat)
    requires n <= |ps|
    ensures RangesOf(ps[..n]) == RangesOf(ps)[..n] && RangesOf(ps[n..]) == RangesOf(ps)[n..]
  {
  }

  /** Killed over a stale journal, the transfer restarts exactly when the new file already has
      the object's checksums at every range of the old journal. */
  lemma StaleRestartIff(job: Job, obj: Bytes, life: Life, n: nat)
    requires JobFor(job, obj) && OverStale(job, obj, life, n)
    ensures Next(job, Down(life.dir), Restart).Up? <==>
      RangesAgree(job, obj, life.dir.file.value, RangesOf(Intact(job, life.dir)[..n]))
  {
    var ps, file := Intact(job, life.dir), life.dir.file.value;
    RestartIff(job, life.dir);
    LeadingAgree(job, obj, file, ps);
    RangesCut(ps, n);
    LaterAgree(job, obj, file, RangesOf(ps), n);
  }

  /** Running, sound, over a journal that ends whole. */
  ghost predicate WholeUp(job: Job, obj: Bytes, life: Life) {
    life.Up? && Sound(job, obj, life) && Tail(job, life.dir) == []
  }

  lemma CommitWhole(job: Job, obj: Bytes, life: Life, e: Event)
    requires JobFor(job, obj) && WholeUp(job, obj, life) && Accepted(job, life, e) && e.fault.None? && OfObject(obj, e)
    ensures WholeUp(job, obj, Next(job, life, e))
    ensures Next(job, life, e).recorded == life.recorded + [Range(e.offset, |e.bytes|)]
  {
    CommitSound(job, obj, life, e);
    CommitUp(job, obj, life, e);
    AppendCases(job, life.dir, e.offset, e.bytes, None, Next(job, life, e).dir);
  }

  lemma BegunWhole(job: Job, obj: Bytes)
    requires JobFor(job, obj)
    ensures var life := Next(job, Down(EMPTY_DIR), Restart);
      && Sound(job, obj, life) && life.Up? && Tail(job, life.dir) == [] && life.recorded == []
      && life.dir.file == Some(Zeros(|obj|))
  {
    StartSound(job, obj);
    RestartSound(job, obj, Down(EMPTY_DIR));
  }

  lemma SendOne(job: Job, obj: Bytes, life: Life, gaps: seq<Range>)
    requires JobFor(job, obj) && WholeUp(job, obj, life) && gaps != [] && End(gaps[0]) <= |obj|
    requires Disjoint(life.recorded + gaps, |obj|)
    ensures var after := Next(job, life, Write(gaps[0].offset, Slice(obj, gaps[0]), None));
      WholeUp(job, obj, after) && after.recorded == life.recorded + [gaps[0]]
  {
    FreeVerdict(life.recorded, gaps, |obj|);
    SliceSent(obj, gaps[0]);
    CommitWhole(job, obj, life, Write(gaps[0].offset, Slice(obj, gaps[0]), None));
  }

  lemma {:induction false} SendWhole(job: Job, obj: Bytes, life: Life, gaps: seq<Range>)
    requires JobFor(job, obj) && WholeUp(job, obj, life) && Disjoint(life.recorded + gaps, |obj|)
    requires forall i :: 0 <= i < |gaps| ==> End(gaps[i]) <= |obj|
    ensures var after := Run(job, life, Sends(obj, gaps));
      WholeUp(job, obj, after) && after.recorded == life.recorded + gaps
    decreases |gaps|
  {
    if gaps == [] {
      assert life.recorded + gaps == life.recorded;
    } else {
      var e := Write(gaps[0].offset, Slice(obj, gaps[0]), None);
      SendOne(job, obj, life, gaps);
      Regroup(life.recorded, gaps);
      SendWhole(job, obj, Next(job, life, e), gaps[1..]);
      assert Sends(obj, gaps)[0] == e && Sends(obj, gaps)[1..] == Sends(obj, gaps[1..]);
    }
  }

  /** Ranges that make up the whole object. */
  ghost predicate WholeSplit(obj: Bytes, rs: seq<Range>) {
    && Disjoint(rs, |obj|) && (forall i :: 0 <= i < |rs| ==> End(rs[i]) <= |obj|)
    && (forall b :: 0 <= b < |obj| ==> Covered(rs, b))
  }

  /** A first life that sent the whole object, split anyhow. */
  function Sent(job: Job, obj: Bytes, rs: seq<Range>): Life
    requires forall i :: 0 <= i < |rs| ==> End(rs[i]) <= |obj|
  {
    Run(job, Next(job, Down(EMPTY_DIR), Restart), Sends(obj, rs))
  }

  lemma SentSound(job: Job, obj: Bytes, rs: seq<Range>)
    requires JobFor(job, obj) && job.digest(obj) == job.declared && WholeSplit(obj, rs)
    ensures var sent := Sent(job, obj, rs);
      WholeUp(job, obj, sent) && sent.recorded == rs && Refusal(job, sent.dir, rs).None?
  {
    BegunWhole(job, obj);
    assert [] + rs == rs;
    SendWhole(job, obj, Next(job, Down(EMPTY_DIR), Restart), rs);
    CompleteIff(rs, |obj|);
    CompleteFile(obj, Sent(job, obj, rs));
  }

  /** A life over a stale journal whose old records name the ranges `rs`. */
  ghost predicate StaleLife(job: Job, obj: Bytes, life: Life, rs: seq<Range>) {
    && OverStale(job, obj, life, |rs|) && life.dir.published == Some(obj)
    && RangesOf(Intact(job, life.dir)[..|rs|]) == rs
  }

  /** The life after a `finish` that died before the sweep is one. */
  lemma SecondStale(job: Job, obj: Bytes, sent: Life)
    requires JobFor(job, obj) && WholeUp(job, obj, sent) && Refusal(job, sent.dir, sent.recorded).None?
    ensures Next(job, Next(job, sent, Finish(Some(BeforeSweep))), Restart) == Second(job, sent)
    ensures StaleLife(job, obj, Second(job, sent), sent.recorded)
  {
    BeginsAgain(job, sent);
    StaleBegins(job, obj, sent);
    assert Intact(job, sent.dir)[..|sent.recorded|] == Intact(job, sent.dir);
  }

  /** Whatever a second life writes, it restarts after a kill exactly when its file agrees with
      the object at every range of the first life's journal. Those ranges are the whole object,
      so short of a checksum collision it must have been sent completely again. */
  lemma StaleRun(job: Job, obj: Bytes, second: Life, rs: seq<Range>, writes: seq<Event>)
    requires JobFor(job, obj) && StaleLife(job, obj, second, rs) && CleanRun(job, obj, second, writes)
    requires forall i :: 0 <= i < |writes| ==> writes[i].Write? && writes[i].fault.None?
    ensures var life := Run(job, second, writes);
      && StaleLife(job, obj, life, rs)
      && (Next(job, Down(life.dir), Restart).Up? <==> RangesAgree(job, obj, life.dir.file.value, rs))
  {
    StaleWrites(job, obj, second, |rs|, writes);
    KeepsPublished(job, obj, second, writes);
    StaleRestartIff(job, obj, Run(job, second, writes), |rs|);
  }

  lemma {:induction false} KeepsPublished(job: Job, obj: Bytes, life: Life, events: seq<Event>)
    requires JobFor(job, obj) && UpSound(obj, life) && life.dir.published == Some(obj)
    requires CleanRun(job, obj, life, events)
    requires forall i :: 0 <= i < |events| ==> events[i].Write? && events[i].fault.None?
    ensures Run(job, life, events).dir.published == Some(obj)
    decreases |events|
  {
    if events != [] {
      EventKeepsPublishedIff(job, obj, life, events[0]);
      if Accepted(job, life, events[0]) { CommitUp(job, obj, life, events[0]); }
      KeepsPublished(job, obj, Next(job, life, events[0]), events[1..]);
    }
  }

  lemma HalfSent(job: Job, obj: Bytes, second: Life, writes: seq<Event>)
    requires obj == [7, 8] && writes == [Write(0, [7], None)] && JobFor(job, obj)
    requires second.Up? && second.recorded == [] && second.dir.file == Some([0, 0]) && Tail(job, second.dir) == []
    ensures CleanRun(job, obj, second, writes)
    ensures var life := Run(job, second, writes); life.Up? && life.dir.file == Some([7, 0])
  {
    assert Splice([0, 0], 0, [7]) == [7, 0];
    assert writes[1..] == [];
  }

  lemma TwoRanges()
    ensures WholeSplit([7, 8], [Range(0, 1), Range(1, 1)])
  {
    var rs := [Range(0, 1), Range(1, 1)];
    assert Holds(rs[0], 0) && Holds(rs[1], 1);
  }

  lemma ZeroDisagrees(job: Job, file: Bytes, rs: seq<Range>)
    requires RangeSum(job.blake, [0]) != RangeSum(job.blake, [8]) && file == [7, 0] && rs == [Range(0, 1), Range(1, 1)]
    ensures !RangesAgree(job, [7, 8], file, rs)
  {
    var obj: Bytes := [7, 8];
    assert Slice(file, rs[1]) == [0] && Slice(obj, rs[1]) == [8];
    assert !SumAgrees(job, obj, file, rs[1]);
  }

  lemma HalfRefused(job: Job, obj: Bytes, second: Life, rs: seq<Range>, writes: seq<Event>, events: seq<Event>)
    requires obj == [7, 8] && writes == [Write(0, [7], None)] && JobFor(job, obj)
    requires RangeSum(job.blake, [0]) != RangeSum(job.blake, [8])
    requires StaleLife(job, obj, second, rs) && rs == [Range(0, 1), Range(1, 1)]
    requires second.recorded == [] && second.dir.file == Some([0, 0]) && Tail(job, second.dir) == []
    requires BeginOver !in events
    ensures var down := Down(Run(job, second, writes).dir); Run(job, down, events) == down
  {
    HalfSent(job, obj, second, writes);
    StaleRun(job, obj, second, rs, writes);
    var dir := Run(job, second, writes).dir;
    ZeroDisagrees(job, dir.file.value, rs);
    RefusedForGood(job, dir, events);
  }

  lemma SecondFile(job: Job, sent: Life)
    requires job.total == 2 && Tail(job, sent.dir) == []
    ensures var second := Second(job, sent);
      second.recorded == [] && second.dir.file == Some([0, 0]) && Tail(job, second.dir) == []
  {
    assert Zeros(job.total) == [0, 0];
  }

  lemma RefusedExample(job: Job, obj: Bytes, sent: Life, events: seq<Event>)
    requires obj == [7, 8] && JobFor(job, obj) && RangeSum(job.blake, [0]) != RangeSum(job.blake, [8])
    requires WholeUp(job, obj, sent) && sent.recorded == [Range(0, 1), Range(1, 1)]
    requires Refusal(job, sent.dir, sent.recorded).None? && BeginOver !in events
    ensures Next(job, Next(job, sent, Finish(Some(BeforeSweep))), Restart) == Second(job, sent)
    ensures var down := Down(Run(job, Second(job, sent), [Write(0, [7], None)]).dir); Run(job, down, events) == down
  {
    SecondStale(job, obj, sent);
    SecondFile(job, sent);
    HalfRefused(job, obj, Second(job, sent), sent.recorded, [Write(0, [7], None)], events);
  }

  /** The failing family is reachable from an empty directory: the object [7, 8] sent in two ranges,
      finished but not swept, then half sent again and killed. No later event but beginning over
      brings the transfer back. */
  lemma StaleRefusedForGood(job: Job, events: seq<Event>)
    requires JobFor(job, [7, 8]) && job.digest([7, 8]) == job.declared && BeginOver !in events
    requires RangeSum(job.blake, [0]) != RangeSum(job.blake, [8])
    ensures WholeSplit([7, 8], [Range(0, 1), Range(1, 1)])
    ensures var sent := Sent(job, [7, 8], [Range(0, 1), Range(1, 1)]);
      Next(job, Next(job, sent, Finish(Some(BeforeSweep))), Restart) == Second(job, sent)
    ensures var sent := Sent(job, [7, 8], [Range(0, 1), Range(1, 1)]);
      var down := Down(Run(job, Second(job, sent), [Write(0, [7], None)]).dir); Run(job, down, events) == down
  {
    TwoRanges();
    SentSound(job, [7, 8], [Range(0, 1), Range(1, 1)]);
    RefusedExample(job, [7, 8], Sent(job, [7, 8], [Range(0, 1), Range(1, 1)]), events);
  }

  /** Running over a whole journal that holds `before` and then what this life has recorded. */
  ghost predicate Behind(job: Job, obj: Bytes, life: Life, before: seq<Range>) {
    && UpSound(obj, life) && TrueRecords(job, obj, Intact(job, life.dir)) && Tail(job, life.dir) == []
    && RangesOf(Intact(job, life.dir)) == before + life.recorded
  }

  lemma BehindRecord(job: Job, obj: Bytes, d: Dir, recorded: seq<Range>, before: seq<Range>, e: Event, u: Dir)
    requires JobFor(job, obj) && e.Write? && e.offset + |e.bytes| <= |obj| && OfObject(obj, e)
    requires TrueRecords(job, obj, Intact(job, d)) && Tail(job, d) == []
    requires RangesOf(Intact(job, d)) == before + recorded
    requires u.journal == d.journal + Appended(job, e.offset, e.bytes, None)
    ensures TrueRecords(job, obj, Intact(job, u)) && Tail(job, u) == []
    ensures RangesOf(Intact(job, u)) == before + (recorded + [Range(e.offset, |e.bytes|)])
  {
    var ps, p := Intact(job, d), Encode(RecordOf(job, e.offset, e.bytes));
    SparseRuns.AppendWhole(job, d, e.offset, e.bytes, None, u);
    SentRecordTrue(job, obj, e.offset, e.bytes);
    TrueAppend(job, obj, ps, p);
    RangesAppend(ps, p);
  }

  lemma BehindOne(job: Job, obj: Bytes, life: Life, before: seq<Range>, e: Event)
    requires JobFor(job, obj) && Behind(job, obj, life, before)
    requires Accepted(job, life, e) && e.fault.None? && OfObject(obj, e)
    ensures Behind(job, obj, Next(job, life, e), before)
    ensures Next(job, life, e).recorded == life.recorded + [Range(e.offset, |e.bytes|)]
  {
    VerdictMeans(life.recorded, |obj|, Range(e.offset, |e.bytes|));
    CommitUp(job, obj, life, e);
    BehindRecord(job, obj, life.dir, life.recorded, before, e, Next(job, life, e).dir);
  }

  lemma {:induction false} BehindAll(job: Job, obj: Bytes, life: Life, before: seq<Range>, gaps: seq<Range>)
    requires JobFor(job, obj) && Behind(job, obj, life, before) && Disjoint(life.recorded + gaps, |obj|)
    requires forall i :: 0 <= i < |gaps| ==> End(gaps[i]) <= |obj|
    ensures var after := Run(job, life, Sends(obj, gaps));
      Behind(job, obj, after, before) && after.recorded == life.recorded + gaps
    decreases |gaps|
  {
    if gaps == [] {
      assert life.recorded + gaps == life.recorded;
    } else {
      var e := Write(gaps[0].offset, Slice(obj, gaps[0]), None);
      FreeVerdict(life.recorded, gaps, |obj|);
      SliceSent(obj, gaps[0]);
      BehindOne(job, obj, life, before, e);
      Regroup(life.recorded, gaps);
      BehindAll(job, obj, Next(job, life, e), before, gaps[1..]);
      assert Sends(obj, gaps)[0] == e && Sends(obj, gaps)[1..] == Sends(obj, gaps[1..]);
    }
  }

  lemma WholeMatches(obj: Bytes, rs: seq<Range>)
    requires forall i :: 0 <= i < |rs| ==> End(rs[i]) <= |obj|
    ensures AllMatch(obj, obj, rs)
  {
  }

  lemma SendsAgain(job: Job, obj: Bytes, second: Life, before: seq<Range>, rs: seq<Range>)
    requires JobFor(job, obj) && Behind(job, obj, second, before) && second.recorded == [] && WholeSplit(obj, rs)
    requires forall i :: 0 <= i < |before| ==> End(before[i]) <= |obj|
    ensures var dir := Run(job, second, Sends(obj, rs)).dir; Next(job, Down(dir), Restart) == Up(dir, before + rs)
  {
    var after := Run(job, second, Sends(obj, rs));
    assert [] + rs == rs;
    BehindAll(job, obj, second, before, rs);
    FullyCovered(obj, after.dir.file.value, rs);
    WholeMatches(obj, before + rs);
    VerifySound(job, obj, Intact(job, after.dir), obj);
  }

  lemma SecondBehind(job: Job, obj: Bytes, sent: Life)
    requires JobFor(job, obj) && WholeUp(job, obj, sent) && Refusal(job, sent.dir, sent.recorded).None?
    ensures Behind(job, obj, Second(job, sent), sent.recorded)
  {
    StaleBegins(job, obj, sent);
    assert sent.recorded + [] == sent.recorded;
  }

  /** Any object, sent in any split `before`, finished but not swept, then sent whole again in any
      split `rs` and killed: the next restart succeeds and holds the ranges of both lives, so
      recorded ranges are no longer disjoint. */
  lemma SentTwice(job: Job, obj: Bytes, before: seq<Range>, rs: seq<Range>)
    requires JobFor(job, obj) && job.digest(obj) == job.declared && WholeSplit(obj, before) && WholeSplit(obj, rs)
    ensures var second := Second(job, Sent(job, obj, before));
      var dir := Run(job, second, Sends(obj, rs)).dir; Next(job, Down(dir), Restart) == Up(dir, before + rs)
  {
    SentSound(job, obj, before);
    var sent := Sent(job, obj, before);
    SecondBehind(job, obj, sent);
    SendsAgain(job, obj, Second(job, sent), before, rs);
  }
}
