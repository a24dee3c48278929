/** The limits and the identity of a `put_if_absent` call, over every run of any number of calls:
    what each answer says about the input, and which inputs get it. */
module BlobLimits {
  import opened Prelude
  import opened Digests
  import opened BlobStore

  predicate TooLong(limits: Limits, size: nat) {
    limits.maxLogical.Some? && size > limits.maxLogical.value
  }

  predicate NotExpected(limits: Limits, size: nat) {
    limits.expected.Some? && size != limits.expected.value
  }

  /** What a call has established about its input by the phase it is in. */
  ghost predicate Measured(hash: Hash, w: Writer) {
    match w.phase
    case Streaming(read) => read <= |w.input| && !TooLong(w.limits, read)
    case Killed => true
    case Done(LogicalLimitExceeded) => TooLong(w.limits, |w.input|)
    case Done(SizeMismatch) => !TooLong(w.limits, |w.input|) && NotExpected(w.limits, |w.input|)
    case Done(DeclaredDigestMismatch) =>
      !TooLong(w.limits, |w.input|) && !NotExpected(w.limits, |w.input|) && hash(w.input) != w.declared
    case _ =>
      !TooLong(w.limits, |w.input|) && !NotExpected(w.limits, |w.input|) && hash(w.input) == w.declared
  }

  ghost predicate AllMeasured(hash: Hash, s: State) {
    forall id :: id in s.writers ==> Measured(hash, s.writers[id])
  }

  lemma TurnMeasured(hash: Hash, d: Disk, w: Writer, chunk: nat)
    requires Measured(hash, w)
    ensures Measured(hash, TakeTurn(hash, d, w, chunk).writer)
  {
  }

  lemma EventMeasured(hash: Hash, s: State, e: Event)
    requires AllMeasured(hash, s)
    ensures AllMeasured(hash, Apply(hash, s, e))
  {
    if e.Advance? && e.id in s.writers {
      TurnMeasured(hash, s.disk, s.writers[e.id], e.chunk);
    }
  }

  lemma {:induction false} RunMeasured(hash: Hash, s: State, events: seq<Event>)
    requires AllMeasured(hash, s)
    ensures AllMeasured(hash, Run(hash, s, events))
    decreases |events|
  {
    if events != [] {
      EventMeasured(hash, s, events[0]);
      RunMeasured(hash, Apply(hash, s, events[0]), events[1..]);
    }
  }

  /** In every run from an empty store, kills and reopened names included, a call that stored its
      input or conceded to a duplicate of it had an input within the cap, of the expected size
      where one was given, and of the declared digest. */
  lemma SuccessWithinLimits(hash: Hash, events: seq<Event>, id: nat)
    requires id in Run(hash, START, events).writers
    requires Run(hash, START, events).writers[id].phase in {Done(Stored), Done(IdempotentDuplicate)}
    ensures var w := Run(hash, START, events).writers[id];
      && (w.limits.maxLogical.Some? ==> |w.input| <= w.limits.maxLogical.value)
      && (w.limits.expected.Some? ==> |w.input| == w.limits.expected.value)
      && hash(w.input) == w.declared
  {
    RunMeasured(hash, START, events);
    assert Measured(hash, Run(hash, START, events).writers[id]);
  }

  // ---------------------------------------------------------------- given its turns

  /** The turns of a call in a run that read something. */
  function Turns(events: seq<Event>, id: nat): nat {
    if events == [] then 0
    else (if events[0].Advance? && events[0].id == id && events[0].chunk > 0 then 1 else 0) + Turns(events[1..], id)
  }

  /** How many more turns a call may spend reading. */
  function ToRead(w: Writer): nat {
    if w.phase.Streaming? then (if w.phase.read < |w.input| then |w.input| - w.phase.read + 1 else 1) else 0
  }

  ghost predicate SameCall(v: Writer, w: Writer) {
    v.declared == w.declared && v.input == w.input && v.limits == w.limits
  }

  lemma TurnReads(hash: Hash, d: Disk, w: Writer, chunk: nat)
    ensures var v := TakeTurn(hash, d, w, chunk).writer;
      SameCall(v, w) && ToRead(v) <= ToRead(w) && (chunk > 0 && ToRead(w) > 0 ==> ToRead(v) < ToRead(w))
  {
  }

  lemma EventReads(hash: Hash, s: State, e: Event, id: nat)
    requires id in s.writers
    ensures var u := Apply(hash, s, e);
      && id in u.writers && SameCall(u.writers[id], s.writers[id])
      && (ToRead(u.writers[id]) == 0 || ToRead(u.writers[id]) + Turns([e], id) <= ToRead(s.writers[id]))
  {
    assert [e][1..] == [];
    if e.Advance? && e.id == id {
      TurnReads(hash, s.disk, s.writers[id], e.chunk);
    }
  }

  lemma {:induction false} RunReads(hash: Hash, s: State, events: seq<Event>, id: nat)
    requires id in s.writers
    ensures var u := Run(hash, s, events);
      && id in u.writers && SameCall(u.writers[id], s.writers[id])
      && (ToRead(u.writers[id]) == 0 || ToRead(u.writers[id]) + Turns(events, id) <= ToRead(s.writers[id]))
    decreases |events|
  {
    if events != [] {
      EventReads(hash, s, events[0], id);
      assert Turns([events[0]], id) + Turns(events[1..], id) == Turns(events, id) by {
        assert [events[0]][1..] == [];
      }
      RunReads(hash, Apply(hash, s, events[0]), events[1..], id);
    }
  }

  lemma AnswerByInput(hash: Hash, w: Writer)
    requires Measured(hash, w) && !w.phase.Streaming? && !w.phase.Killed?
    ensures w.phase == Done(LogicalLimitExceeded) <==> TooLong(w.limits, |w.input|)
    ensures w.phase == Done(SizeMismatch) <==> !TooLong(w.limits, |w.input|) && NotExpected(w.limits, |w.input|)
    ensures w.phase == Done(DeclaredDigestMismatch) <==>
      !TooLong(w.limits, |w.input|) && !NotExpected(w.limits, |w.input|) && hash(w.input) != w.declared
  {
  }

  /** In every run, whatever other calls and processes do, a call that was given one turn more than
      its input has bytes and was not killed has its answer, and which refusal it gets is decided
      by the input alone: over the cap exactly when the input is longer than it, the wrong size
      exactly when it fits and is not the expected size, the wrong object exactly when neither and
      its digest is not the declared one. */
  lemma RefusedByInput(hash: Hash, before: seq<Event>, after: seq<Event>, id: nat)
    requires id in Run(hash, START, before).writers
    requires Turns(after, id) > |Run(hash, START, before).writers[id].input|
    ensures id in Run(hash, Run(hash, START, before), after).writers
    ensures var w := Run(hash, Run(hash, START, before), after).writers[id];
      !w.phase.Killed? ==>
        && (w.phase == Done(LogicalLimitExceeded) <==>
              w.limits.maxLogical.Some? && |w.input| > w.limits.maxLogical.value)
        && (w.phase == Done(SizeMismatch) <==>
              && (w.limits.maxLogical.Some? ==> |w.input| <= w.limits.maxLogical.value)
              && w.limits.expected.Some? && |w.input| != w.limits.expected.value)
        && (w.phase == Done(DeclaredDigestMismatch) <==>
              && (w.limits.maxLogical.Some? ==> |w.input| <= w.limits.maxLogical.value)
              && (w.limits.expected.Some? ==> |w.input| == w.limits.expected.value)
              && hash(w.input) != w.declared)
  {
    var s := Run(hash, START, before);
    RunMeasured(hash, START, before);
    RunMeasured(hash, s, after);
    RunReads(hash, s, after, id);
    assert Measured(hash, s.writers[id]);
    var w := Run(hash, s, after).writers[id];
    assert Measured(hash, w);
    if !w.phase.Killed? {
      AnswerByInput(hash, w);
    }
  }

  // ---------------------------------------------------------------- what the rows say

  /** Some call declared the object, with an input of that digest, size and durability. */
  ghost predicate Claimed(hash: Hash, s: State, declared: Bytes, size: nat) {
    exists id :: id in s.writers && s.writers[id].declared == declared && |s.writers[id].input| == size
      && hash(s.writers[id].input) == declared
  }

  ghost predicate ClaimedAs(hash: Hash, s: State, declared: Bytes, full: bool) {
    exists id :: id in s.writers && s.writers[id].declared == declared && s.writers[id].full == full
      && hash(s.writers[id].input) == declared
  }

  ghost predicate RowsTrue(hash: Hash, s: State) {
    && (forall x :: x in s.disk.objects ==> Claimed(hash, s, x, s.disk.objects[x]))
    && (forall key :: key in s.disk.locations ==>
          key.1 == Target(key.0) && ClaimedAs(hash, s, key.0, s.disk.locations[key].durable))
  }

  /** No call is forgotten or changes what it was asked. */
  ghost predicate CallsStay(s: State, u: State) {
    forall id :: id in s.writers ==>
      id in u.writers && SameCall(u.writers[id], s.writers[id]) && u.writers[id].full == s.writers[id].full
  }

  lemma ClaimsStay(hash: Hash, s: State, u: State)
    requires CallsStay(s, u)
    ensures forall x, n :: Claimed(hash, s, x, n) ==> Claimed(hash, u, x, n)
    ensures forall x, full :: ClaimedAs(hash, s, x, full) ==> ClaimedAs(hash, u, x, full)
  {
    forall x, n | Claimed(hash, s, x, n) ensures Claimed(hash, u, x, n) {
      var id :| id in s.writers && s.writers[id].declared == x && |s.writers[id].input| == n
        && hash(s.writers[id].input) == x;
      assert u.writers[id].declared == x;
    }
    forall x, full | ClaimedAs(hash, s, x, full) ensures ClaimedAs(hash, u, x, full) {
      var id :| id in s.writers && s.writers[id].declared == x && s.writers[id].full == full
        && hash(s.writers[id].input) == x;
      assert u.writers[id].declared == x;
    }
  }

  lemma EventCallsStay(hash: Hash, s: State, e: Event)
    ensures CallsStay(s, Apply(hash, s, e))
  {
    if e.Advance? && e.id in s.writers {
      TurnReads(hash, s.disk, s.writers[e.id], e.chunk);
    }
  }

  /** The rows a turn may write: its own call's, after its input was verified. */
  ghost predicate OwnRows(hash: Hash, d: Disk, e: Disk, w: Writer) {
    && (e.objects == d.objects || (e.objects == d.objects[w.declared := |w.input|] && hash(w.input) == w.declared))
    && var key := (w.declared, Target(w.declared));
       || e.locations == d.locations
       || (e.locations == d.locations[key := Row(w.full, false)] && hash(w.input) == w.declared)
       || (key in d.locations && e.locations == d.locations[key := d.locations[key].(quarantined := true)])
  }

  lemma RowsAfterVerify(hash: Hash, d: Disk, w: Writer, chunk: nat)
    requires Measured(hash, w)
    ensures var action := TakeTurn(hash, d, w, chunk).action;
      action.RecordObject? || action.RecordLocation? ==> hash(w.input) == w.declared
  {
  }

  lemma ActRows(hash: Hash, action: Action, d: Disk, w: Writer)
    requires action.RecordObject? || action.RecordLocation? ==> hash(w.input) == w.declared
    ensures OwnRows(hash, d, Act(action, d, w), w)
  {
  }

  lemma StepRowsTrue(hash: Hash, s: State, u: State, id: nat)
    requires RowsTrue(hash, s) && CallsStay(s, u) && id in s.writers && OwnRows(hash, s.disk, u.disk, s.writers[id])
    ensures RowsTrue(hash, u)
  {
    var w := s.writers[id];
    ClaimsStay(hash, s, u);
    if hash(w.input) == w.declared {
      assert Claimed(hash, s, w.declared, |w.input|);
      assert ClaimedAs(hash, s, w.declared, w.full);
    }
  }

  lemma OtherRowsTrue(hash: Hash, s: State, u: State)
    requires RowsTrue(hash, s) && CallsStay(s, u)
    requires u.disk.objects == s.disk.objects && u.disk.locations == s.disk.locations
    ensures RowsTrue(hash, u)
  {
    ClaimsStay(hash, s, u);
  }

  lemma EventRowsTrue(hash: Hash, s: State, e: Event)
    requires AllMeasured(hash, s) && RowsTrue(hash, s)
    ensures RowsTrue(hash, Apply(hash, s, e))
  {
    var u := Apply(hash, s, e);
    EventCallsStay(hash, s, e);
    if e.Advance? && e.id in s.writers {
      var w := s.writers[e.id];
      RowsAfterVerify(hash, s.disk, w, e.chunk);
      ActRows(hash, TakeTurn(hash, s.disk, w, e.chunk).action, s.disk, w);
      StepRowsTrue(hash, s, u, e.id);
    } else {
      OtherRowsTrue(hash, s, u);
    }
  }

  /** In every run, every object row gives the size of an input of that digest which some call was
      asked to put, and every location row is at the object's own path and claims full durability
      only if such a call asked for it. */
  lemma {:induction false} RunRowsTrue(hash: Hash, s: State, events: seq<Event>)
    requires AllMeasured(hash, s) && RowsTrue(hash, s)
    ensures RowsTrue(hash, Run(hash, s, events))
    decreases |events|
  {
    if events != [] {
      EventMeasured(hash, s, events[0]);
      EventRowsTrue(hash, s, events[0]);
      RunRowsTrue(hash, Apply(hash, s, events[0]), events[1..]);
    }
  }
}
