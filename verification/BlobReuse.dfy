/** Reusing staging names: which events change a published file, over every run, and runs that do. */
module BlobReuse {
  import opened Prelude
  import opened Digests
  import opened BlobStore
  import opened BlobNames
  import opened BlobRuns

  // ---------------------------------------------------------------- the exact condition

  /** The event appends to a file that is published while its call is still writing it. */
  ghost predicate Appends(hash: Hash, s: State, e: Event) {
    && e.Advance? && e.id in s.writers
    && var w := s.writers[e.id]; var action := TakeTurn(hash, s.disk, w, e.chunk).action;
       action.Append? && action.bytes != [] && w.fd < |s.disk.inodes| && !Private(s.disk, w.fd)
  }

  ghost predicate Overwrites(hash: Hash, s: State, e: Event) {
    Truncates(s, e) || Appends(hash, s, e)
  }

  lemma ActKeepsIff(action: Action, d: Disk, w: Writer)
    ensures PublishedKept(d, Act(action, d, w)) <==>
      !(action.Append? && action.bytes != [] && w.fd < |d.inodes| && !Private(d, w.fd))
  {
    var e := Act(action, d, w);
    ActKeepsNames(action, d, w);
    if action.Append? && action.bytes != [] && w.fd < |d.inodes| && !Private(d, w.fd) {
      var path :| path in d.published && d.published[path] == w.fd;
      assert |Content(e, path)| == |Content(d, path)| + |action.bytes|;
    } else {
      forall path | path in d.published ensures Content(e, path) == Content(d, path) {
      }
    }
  }

  lemma OpenKeepsAnyIff(d: Disk, name: Name)
    ensures PublishedKept(d, Open(d, name)) <==>
      !(!Clean(d, name) && d.staging[name] < |d.inodes| && d.inodes[d.staging[name]] != [])
  {
    var e := Open(d, name);
    if !Clean(d, name) && d.staging[name] < |d.inodes| && d.inodes[d.staging[name]] != [] {
      var path :| path in d.published && d.published[path] == d.staging[name];
      assert Content(e, path) == [] && Content(d, path) != [];
    } else {
      forall path | path in d.published ensures Content(e, path) == Content(d, path) {
      }
    }
  }

  /** From any state whatever, one event leaves everything published as it was exactly when it
      neither truncates nor appends to a published file. */
  lemma AnyEventKeepsIff(hash: Hash, s: State, e: Event)
    ensures PublishedKept(s.disk, Apply(hash, s, e).disk) <==> !Overwrites(hash, s, e)
  {
    if e.Advance? && e.id in s.writers {
      ActKeepsIff(TakeTurn(hash, s.disk, s.writers[e.id], e.chunk).action, s.disk, s.writers[e.id]);
    } else if Spawns(s, e) {
      OpenKeepsAnyIff(s.disk, NextName(s, e.pid));
    }
  }

  /** Every event of the run leaves everything published as it was. */
  ghost predicate KeptThroughout(hash: Hash, s: State, events: seq<Event>)
    decreases |events|
  {
    events != [] ==>
      && PublishedKept(s.disk, Apply(hash, s, events[0]).disk)
      && KeptThroughout(hash, Apply(hash, s, events[0]), events[1..])
  }

  ghost predicate NeverOverwrites(hash: Hash, s: State, events: seq<Event>)
    decreases |events|
  {
    events != [] ==>
      !Overwrites(hash, s, events[0]) && NeverOverwrites(hash, Apply(hash, s, events[0]), events[1..])
  }

  /** Over every run from every state: published contents are kept at every event if and only if no
      event opens a name linked to a published file with bytes in it, or appends to one. */
  lemma {:induction false} KeptThroughoutIff(hash: Hash, s: State, events: seq<Event>)
    ensures KeptThroughout(hash, s, events) <==> NeverOverwrites(hash, s, events)
    decreases |events|
  {
    if events != [] {
      AnyEventKeepsIff(hash, s, events[0]);
      KeptThroughoutIff(hash, Apply(hash, s, events[0]), events[1..]);
    }
  }

  // ---------------------------------------------------------------- openings alone

  /** No file is empty, neither a published one nor what a call is given. */
  ghost predicate Filled(s: State) {
    && (forall path :: path in s.disk.published ==> Content(s.disk, path) != [])
    && (forall id :: id in s.writers ==> s.writers[id].input != [])
  }

  lemma InputsStay(hash: Hash, s: State, e: Event)
    requires forall id :: id in s.writers ==> s.writers[id].input != []
    requires e.Spawn? ==> e.input != []
    ensures var u := Apply(hash, s, e); forall id :: id in u.writers ==> u.writers[id].input != []
  {
    if e.Advance? && e.id in s.writers {
      InputStays(hash, s.disk, s.writers[e.id], e.chunk);
    }
  }

  lemma InputStays(hash: Hash, d: Disk, w: Writer, chunk: nat)
    ensures TakeTurn(hash, d, w, chunk).writer.input == w.input
  {
  }

  lemma ActPublishes(action: Action, d: Disk, w: Writer, path: Bytes)
    requires path !in d.published && path in Act(action, d, w).published
    ensures action.LinkStaging? && path == Target(w.declared)
  {
  }

  lemma LinkWins(hash: Hash, d: Disk, w: Writer, chunk: nat)
    ensures var turn := TakeTurn(hash, d, w, chunk); turn.action.LinkStaging? ==> turn.writer.won
  {
  }

  /** A path is published by a link, and its call then has won it. */
  lemma NewlyPublished(hash: Hash, s: State, e: Event, path: Bytes)
    requires path !in s.disk.published && path in Apply(hash, s, e).disk.published
    ensures e.Advance? && e.id in s.writers
    ensures var v := Apply(hash, s, e).writers[e.id]; v.won && path == Target(v.declared)
  {
    if e.Advance? && e.id in s.writers {
      var w := s.writers[e.id];
      ActPublishes(TakeTurn(hash, s.disk, w, e.chunk).action, s.disk, w, path);
      LinkWins(hash, s.disk, w, e.chunk);
      WonBefore(hash, s.disk, w, e.chunk);
    }
  }

  lemma FilledStays(hash: Hash, s: State, e: Event)
    requires Wide(hash) && Sound(hash, s) && CleanEvent(s, e) && Filled(s) && (e.Spawn? ==> e.input != [])
    ensures Filled(Apply(hash, s, e))
  {
    var u := Apply(hash, s, e);
    InputsStay(hash, s, e);
    EventSound(hash, s, e);
    EventKeepsPublished(hash, s, e);
    forall path | path in u.disk.published ensures Content(u.disk, path) != [] {
      if path !in s.disk.published {
        NewlyPublished(hash, s, e, path);
        assert WriterSound(hash, u.disk, u.writers[e.id]);
      }
    }
  }

  lemma UncleanTruncates(s: State, e: Event)
    requires WellLinked(s.disk) && Filled(s) && !CleanEvent(s, e)
    ensures Truncates(s, e)
  {
    var ino := s.disk.staging[NextName(s, e.pid)];
    var path :| path in s.disk.published && s.disk.published[path] == ino;
    assert Content(s.disk, path) == s.disk.inodes[ino];
  }

  /** As long as no call is given an empty file, the openings alone decide: published contents are
      kept at every event if and only if no event opens a staging name still linked to a published
      file. */
  lemma {:induction false} KeptIffClean(hash: Hash, s: State, events: seq<Event>)
    requires Wide(hash) && Sound(hash, s) && Filled(s)
    requires forall e :: e in events && e.Spawn? ==> e.input != []
    ensures KeptThroughout(hash, s, events) <==> CleanRun(hash, s, events)
    decreases |events|
  {
    if events != [] {
      var e := events[0];
      assert e in events;
      if CleanEvent(s, e) {
        EventSound(hash, s, e);
        EventKeepsPublished(hash, s, e);
        FilledStays(hash, s, e);
        assert forall x :: x in events[1..] ==> x in events;
        KeptIffClean(hash, Apply(hash, s, e), events[1..]);
      } else {
        UncleanTruncates(s, e);
        AnyEventKeepsIff(hash, s, e);
      }
    }
  }

  // ---------------------------------------------------------------- runs that change a file

  /** A call killed after its link and before its cleanup leaves its staging name a second name of
      the published file: a later call that opens the name empties the file. */
  lemma ReopenedAfterLink(hash: Hash, s: State, i: nat)
    requires Sound(hash, s) && i in s.writers && Linking(s.writers[i].phase)
    ensures var w := s.writers[i]; var e := Open(s.disk, w.name);
      && !Clean(s.disk, w.name) && Content(e, Target(w.declared)) == []
      && (w.input != [] ==> !PublishedKept(s.disk, e))
      && (hash([]) != hash(w.input) ==> hash(Content(e, Target(w.declared))) != w.declared)
  {
    var w := s.writers[i];
    assert WriterSound(hash, s.disk, w);
    OpenContent(s.disk, w.name, Target(w.declared));
  }

  /** The only call of the examples, at each of its phases. */
  function ExampleCall(hash: Hash, input: Bytes, phase: Phase, won: bool): Writer {
    Writer(hash(input), input, Limits(None, None), true, Name(1, 0), 0, phase, won)
  }

  function ExampleState(hash: Hash, input: Bytes, content: Bytes, published: map<Bytes, nat>, phase: Phase, won: bool)
    : State
  {
    State(Disk([content], published, map[Name(1, 0) := 0], map[], map[], {}, map[]), map[1 := 1],
          map[0 := ExampleCall(hash, input, phase, won)])
  }

  /** The whole input is in the staging file. */
  function Whole(hash: Hash, input: Bytes, phase: Phase): State {
    ExampleState(hash, input, input, map[], phase, false)
  }

  function LinkedState(hash: Hash, input: Bytes): State {
    ExampleState(hash, input, input, map[Target(hash(input)) := 0], Linked, true)
  }

  lemma ExampleStream(hash: Hash)
    ensures Apply(hash, ExampleState(hash, [7], [], map[], Streaming(0), false), Advance(0, 1))
      == Whole(hash, [7], Streaming(1))
  {
    var s, w := ExampleState(hash, [7], [], map[], Streaming(0), false), ExampleCall(hash, [7], Streaming(0), false);
    assert w.input[0..1] == [7] && s.disk.inodes[0] + [7] == [7] && s.disk.inodes[0 := [7]] == [[7]];
    AdvanceTo(hash, s, 0, w, w.(phase := Streaming(1)), Append([7]), Whole(hash, [7], Streaming(1)).disk);
  }

  lemma ExampleSync(hash: Hash, input: Bytes)
    ensures Apply(hash, Whole(hash, input, Streaming(|input|)), Advance(0, 1)) == Whole(hash, input, StagingWritten)
    ensures Apply(hash, Whole(hash, input, StagingWritten), Advance(0, 1)) == Whole(hash, input, StagingSynced)
  {
    var s, w := Whole(hash, input, Streaming(|input|)), ExampleCall(hash, input, Streaming(|input|), false);
    AdvanceTo(hash, s, 0, w, w.(phase := StagingWritten), Nothing, s.disk);
    var t, v := Whole(hash, input, StagingWritten), ExampleCall(hash, input, StagingWritten, false);
    AdvanceTo(hash, t, 0, v, v.(phase := StagingSynced), Nothing, t.disk);
  }

  lemma ExampleLink(hash: Hash, input: Bytes)
    ensures Apply(hash, Whole(hash, input, StagingSynced), Advance(0, 1)) == LinkedState(hash, input)
  {
    var s, w := Whole(hash, input, StagingSynced), ExampleCall(hash, input, StagingSynced, false);
    AdvanceTo(hash, s, 0, w, w.(phase := Linked, won := true), LinkStaging, LinkedState(hash, input).disk);
  }

  function FirstEvents(hash: Hash, input: Bytes): seq<Event> {
    [Boot(1), Spawn(0, 1, hash(input), input, Limits(None, None), true)]
  }

  const THREE_TURNS: seq<Event> := [Advance(0, 1), Advance(0, 1), Advance(0, 1)]

  lemma FirstRun(hash: Hash, input: Bytes)
    ensures Run(hash, START, FirstEvents(hash, input)) == ExampleState(hash, input, [], map[], Streaming(0), false)
  {
    var s := ExampleState(hash, input, [], map[], Streaming(0), false);
    FirstSpawn(hash, FirstEvents(hash, input)[1], ExampleCall(hash, input, Streaming(0), false), s.disk);
    RunList(hash, START, FirstEvents(hash, input), [State(EMPTY_DISK, map[1 := 0], map[]), s]);
  }

  lemma ThreeTurns(hash: Hash, input: Bytes)
    ensures Run(hash, Whole(hash, input, Streaming(|input|)), THREE_TURNS) == LinkedState(hash, input)
  {
    ExampleSync(hash, input);
    ExampleLink(hash, input);
    RunList(hash, Whole(hash, input, Streaming(|input|)), THREE_TURNS,
      [Whole(hash, input, StagingWritten), Whole(hash, input, StagingSynced), LinkedState(hash, input)]);
  }

  lemma {:induction false} RunConcat(hash: Hash, s: State, a: seq<Event>, b: seq<Event>)
    ensures Run(hash, s, a + b) == Run(hash, Run(hash, s, a), b)
    decreases |a|
  {
    if a == [] {
      assert a + b == b;
    } else {
      assert (a + b)[1..] == a[1..] + b;
      RunConcat(hash, Apply(hash, s, a[0]), a[1..], b);
    }
  }

  /** A first process links the object under its only call. */
  function LinkingEvents(hash: Hash, input: Bytes): seq<Event> {
    FirstEvents(hash, input) + ((if input == [] then [] else [Advance(0, 1)]) + THREE_TURNS)
  }

  lemma LinkingRun(hash: Hash, input: Bytes)
    requires input == [] || input == [7]
    ensures Run(hash, START, LinkingEvents(hash, input)) == LinkedState(hash, input)
  {
    var s := ExampleState(hash, input, [], map[], Streaming(0), false);
    FirstRun(hash, input);
    ThreeTurns(hash, input);
    var rest := (if input == [] then [] else [Advance(0, 1)]) + THREE_TURNS;
    RunConcat(hash, START, FirstEvents(hash, input), rest);
    if input == [] {
      assert rest == THREE_TURNS;
    } else {
      ExampleStream(hash);
      assert rest[0] == Advance(0, 1) && rest[1..] == THREE_TURNS;
    }
  }

  lemma RestartedProcess(hash: Hash, s: State)
    requires s.processes == map[1 := 1]
    ensures var u := Run(hash, s, [Crash(1), Boot(1)]);
      u.disk == s.disk && 1 in u.processes && NextName(u, 1) == Name(1, 0) && u.writers.Keys == s.writers.Keys
  {
    var a, b := Apply(hash, s, Crash(1)), Apply(hash, Apply(hash, s, Crash(1)), Boot(1));
    RunList(hash, s, [Crash(1), Boot(1)], [a, b]);
  }

  /** The process has linked its file and died, and one with the same number has started. */
  function Restarted(hash: Hash, input: Bytes): State {
    Run(hash, START, LinkingEvents(hash, input) + [Crash(1), Boot(1)])
  }

  lemma RestartedState(hash: Hash, input: Bytes)
    requires input == [] || input == [7]
    ensures var s := Restarted(hash, input);
      && s.disk == LinkedState(hash, input).disk && 1 in s.processes && NextName(s, 1) == Name(1, 0)
      && s.writers.Keys == {0}
  {
    LinkingRun(hash, input);
    RunConcat(hash, START, LinkingEvents(hash, input), [Crash(1), Boot(1)]);
    RestartedProcess(hash, LinkedState(hash, input));
  }

  /** Such a run exists: a process links a file and dies, a process with the same number starts
      over, and its first call empties the file. */
  lemma ReusedNameTruncates(hash: Hash, declared: Bytes, input: Bytes)
    ensures var s := Restarted(hash, [7]); var path := Target(hash([7]));
      && Content(s.disk, path) == [7]
      && Content(Apply(hash, s, Spawn(1, 1, declared, input, Limits(None, None), true)).disk, path) == []
  {
    RestartedState(hash, [7]);
  }

  /** An empty published file is not truncated by the reopening, but the reopening call's first
      bytes are written into it: not only openings of files with bytes in them do harm. */
  lemma EmptyFileOverwritten(hash: Hash, declared: Bytes)
    ensures var s := Restarted(hash, []); var path := Target(hash([]));
      var e := Spawn(1, 1, declared, [7], Limits(None, None), true); var t := Apply(hash, s, e);
      && !Truncates(s, e) && path in s.disk.published && Content(t.disk, path) == []
      && Content(Apply(hash, t, Advance(1, 1)).disk, path) == [7]
  {
    RestartedState(hash, []);
    var s, e := Restarted(hash, []), Spawn(1, 1, declared, [7], Limits(None, None), true);
    var t := Apply(hash, s, e);
    var w := t.writers[1];
    assert w.input[0..1] == [7] && [] + [7] == [7];
    assert TakeTurn(hash, t.disk, w, 1).action == Append([7]);
  }

  lemma FirstSpawn(hash: Hash, e: Event, w: Writer, open: Disk)
    requires e == Spawn(0, 1, w.declared, w.input, w.limits, w.full) && w.name == Name(1, 0) && w.fd == 0
    requires w.phase == Streaming(0) && !w.won
    requires open == Disk([[]], map[], map[Name(1, 0) := 0], map[], map[], {}, map[])
    ensures Apply(hash, State(EMPTY_DISK, map[1 := 0], map[]), e) == State(open, map[1 := 1], map[0 := w])
  {
    assert EMPTY_DISK.inodes + [[]] == [[]];
  }

  lemma AdvanceTo(hash: Hash, s: State, id: nat, w: Writer, v: Writer, action: Action, d: Disk)
    requires s.writers == map[id := w] && TakeTurn(hash, s.disk, w, 1) == Turn(v, action) && Act(action, s.disk, w) == d
    ensures Apply(hash, s, Advance(id, 1)) == State(d, s.processes, map[id := v])
  {
    assert map[id := w][id := v] == map[id := v];
  }

  /** A run through listed states. */
  lemma {:induction false} RunList(hash: Hash, s: State, events: seq<Event>, states: seq<State>)
    requires |events| == |states| > 0 && Apply(hash, s, events[0]) == states[0]
    requires forall i :: 0 < i < |events| ==> Apply(hash, states[i-1], events[i]) == states[i]
    ensures Run(hash, s, events) == states[|states|-1]
    decreases |events|
  {
    if |events| > 1 {
      RunList(hash, states[0], events[1..], states[1..]);
    } else {
      assert events[1..] == [];
    }
  }
}
