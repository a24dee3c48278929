# Verification of the content-addressed store (`rabs-cas`)

A Dafny model of the storage core of the remote compilation helper, with proofs. Each module follows one
part of `rabs-cas/src`; loops and objects of the source are methods and classes proved against the
functions the theorems are about.

| module | what it is |
|---|---|
| `Prelude`, `Sorting`, `Lexicographic`, `Walks`, `BigEndian`, `Utf8`, `Digests`, `Domains`, `Parsing` | shared vocabulary: words, stable sort, walks in graphs, integer and text encodings, exact decoders |
| `MetadataTables`, `MetadataStore`, `StoreInvariants`, `StoreCalls`, `CrashMatrix` | the metadata tables, transactions over an engine that can be killed after any mutation, what every run keeps, and exactly what each call does |
| `GcSnapshot`, `Gc`, `GcExecution`, `PinLeases`, `GcRuns`, `GcStale` | the pin closure, planning, immediate execution, mark, grace and unlink, scoped release, whole runs of all of them, and plans that outlive their moment |
| `BlobStore`, `BlobNames`, `BlobRuns`, `BlobReuse`, `BlobLimits`, `BlobPut` | names, links and file contents; concurrent `put_if_absent` calls of any processes as one machine with kills at every step; what all its runs keep, what runs keep that reopen no linked name, and what reopening one does; the call of one process step by step |
| `Ranges`, `Journal`, `RangeRecords`, `SparseTransfer`, `SparseRuns`, `SparseChecks`, `SparseRecovery` | out-of-order range transfer over the bytes of its journal: the objects, what runs with kills and resumes keep, and exactly when recovery works |
| `ClosureValidation`, `PackRanges` | bounded validation of manifest graphs and of pack ranges |
| `Pack`, `PackBuild`, `ManifestCodec`, `ManifestCanonical`, `ManifestReader`, `ManifestRefusals`, `WireFormats` | the two byte formats, exactly: what is accepted, what is refused as what, and every byte's place |
| `CommitGraph`, `AncestryIndex`, `AncestorSelection` | nearest-ancestor search over commit graphs and the warm-start decision |
| `Chunking`, `TreeManifest` | gear-hash chunking modulo 2^64 and the missing-chunk diff |

How the model stands to the source:

- SQL tables are maps over their primary keys and statements are functions on them. A transaction body reads
  the tables as of BEGIN and lists its statements, because the engine serializes transactions.
- A kill is a mutation budget, as in the source's own fault engine. The durable tables change only at COMMIT.
- Content hashes are any functions of the right width; no statement assumes them injective.
  The gear table is any 256 words. File contents are honest: reading returns what was written.
- Clocks, sequence numbers, the set of running builds and readers, and the decision when a process dies are
  parameters or events, so every statement holds for all of them.
- A guard on a run, such as a name no longer linked or a tail not completed by accident, is a condition on the
  state before each event, and the statement beside it says what happens when it fails.
- Text is its UTF-8 bytes where the source compares or frames bytes.

Where the source does not do what its documentation says, the model does what the source does:

- A staging name is said never to be shared (rabs-cas/src/blob_store.rs:216-218), but it is a process number
  and a counter that starts at zero in every process, nothing removes the names dead processes leave, and one
  left between link and cleanup is a second name of the published file. A process that comes to the same name
  truncates that file: `BlobReuse.ReusedNameTruncates`. Names, winners and rows survive that in every run
  (`BlobNames.RunRegistered`); contents do exactly under `BlobReuse.KeptThroughoutIff` and `BlobRuns.RunSoundIff`,
  the guard of the statements about contents and success.
- Planning promises that protection appearing before execution is a skip (rabs-cas/src/gc.rs:24-29), but
  `execute_gc` does not recheck. `GcStale.StalePlanReclaimsPinned` shows a pinned location removed,
  `GcStale.LateProtectionIff` says over whole runs exactly which events between are to blame, and the mark and
  unlink pipeline, which does recheck, is proved safe in every run.
- A transfer resumed over a torn journal appends behind the tear, so ranges it acknowledges later are not
  replayed by the next resume. They are reported missing and sent again, never trusted:
  `SparseRecovery.AckedRangeSurvivesIff` and `SparseRecovery.TornJournalForgets`.
- A resume that finds no staged file is said to start over (rabs-cas/src/sparse_writer.rs:183-187), but it keeps
  the old journal. After a `finish` killed before its sweep this makes later resumes fail:
  `SparseRecovery.StaleRun` is the exact condition and `SparseRecovery.StaleRefusedForGood` an instance. A
  `begin` over a staged name still linked truncates the published object: `SparseRuns.PublishedStaysIff`.
- `missing` is said to list the gaps (rabs-cas/src/sparse_writer.rs:230-231), but over recorded ranges that nest,
  as after a journal of two lives, its cursor moves back and it also lists bytes that were recorded. It never
  hides a gap: `Ranges.MissingNothingIff`, `Ranges.NoHiddenGap` and `Ranges.NestedRangeReported`.
- `chunk` does not terminate on an object longer than `min_size` when `max_size` is zero;
  `Chunking.CutProgress` is the exact condition and `Chunking.Chunk` requires it.
- Manifest bytes depend on the order of outputs that share a role and a path, because the canonical sort is
  stable; `ManifestCanonical.OrderFreeIff` is the exact condition.

Check the whole project with `dafny verify dfyconfig.toml`.

## Model

| member | source | states |
|---|---|---|
| `MetadataTables.ActiveKey` | rabs-cas/src/metadata_store.rs:1601-1623 | answers None, or the holder, exactly when zero or one authority is unreleased, and corruption when there are more |
| `MetadataTables.RequireActive` | rabs-cas/src/metadata_store.rs:1601-1623 | passes exactly when the presented authority is the one unreleased authority |
| `MetadataStore.SqlMetadataStore.Execute` | rabs-cas/src/crash_matrix.rs:93-103 | a mutation past the budget changes nothing and reports the crash; one within it spends one unit and applies the statement |
| `MetadataStore.SqlMetadataStore.Reopen` | rabs-cas/src/crash_matrix.rs:594-596 | a cold reopen discards whatever transaction was open and disarms the fault |
| `MetadataStore.SqlMetadataStore.Conclude` | rabs-cas/src/metadata_store.rs:1584-1599 | a transaction body commits all of its statements exactly when every one of them, its own verdict and COMMIT succeed within the budget; otherwise the durable tables are untouched |
| `MetadataStore.SqlMetadataStore.Call` | rabs-cas/src/metadata_store.rs:1584-1599 | any store call, killed at any boundary or refused: the durable tables are exactly the old ones or exactly those of an uninterrupted call, and which of the two is decided by the budget |
| `MetadataStore.SqlMetadataStore.CallAll` | rabs-cas/src/crash_matrix.rs:318-358 | a script killed anywhere leaves the tables of a whole number of its calls |
| `StoreInvariants.GenerationExact` | rabs-cas/src/metadata_store.rs:1844-1875 | a generation is accepted exactly under the active authority with an unused id above the high-water mark, which becomes the new mark |
| `StoreInvariants.CommitExact` | rabs-cas/src/metadata_store.rs:2011-2143 | when a commit is accepted, and exactly the publication, serving, evidence, pin and lineage rows it writes; earlier lineage and evidence rows win; a published key is a duplicate with nothing written exactly when the stored descriptor is the offered one, and otherwise its action entry is quarantined and nothing else written |
| `StoreCalls.CommitRepublished` | rabs-cas/src/metadata_store.rs:2042-2049 | under the active authority a published key is answered as a duplicate, with nothing written, if and only if the stored descriptor equals the offered one; any other descriptor sets the conflict quarantine of that action entry and changes nothing else |
| `StoreCalls.CommitRefused` | rabs-cas/src/metadata_store.rs:2011-2143 | a commit is refused, with nothing written, exactly when the presented authority is not the one active or a new publication's pin id is taken, and as which error |
| `StoreCalls.CommitMutations` | rabs-cas/src/metadata_store.rs:2011-2143 | how many mutation boundaries a first commit has, one for each statement and ancestor and two for the transaction |
| `StoreCalls.AcquireExact` | rabs-cas/src/metadata_store.rs:1713-1746 | an authority is acquired on a free store and again by its holder; any other holder is named; exactly the row written |
| `StoreCalls.ReleaseAuthorityExact` | rabs-cas/src/metadata_store.rs:1748-1757 | releasing marks that authority released and changes nothing else |
| `StoreCalls.TombstoneGenerationExact` | rabs-cas/src/metadata_store.rs:1877-1888 | tombstoning marks a known generation and changes nothing else; an unknown one is refused |
| `StoreCalls.EvidenceExact` | rabs-cas/src/metadata_store.rs:2145-2180 | evidence is written once: a row already there is kept |
| `StoreCalls.DispositionExact` | rabs-cas/src/metadata_store.rs:3112-3138 | a disposition write keeps the rest of an existing serving row, and starts an absent one at revision zero with no authority |
| `StoreCalls.ServingRecordExact` | rabs-cas/src/metadata_store.rs:4008-4097 | a storable serving record is accepted exactly under the active authority, with a revision above the stored one and only blockers that are quarantined, and then is stored whole with exactly its own blockers; otherwise nothing is written and the first failing condition is named |
| `StoreCalls.QuarantineExact` | rabs-cas/src/metadata_store.rs:2567-2587 | a quarantine sets the reason of its scope and subject and changes nothing else |
| `StoreCalls.LocationExact` | rabs-cas/src/metadata_store.rs:2311-2344 | which row a location call leaves, and that nothing else changes |
| `StoreCalls.EdgeExact` | rabs-cas/src/metadata_store.rs:2383-2404 | an edge call adds that edge and changes nothing else |
| `StoreCalls.CreatePinExact` | rabs-cas/src/metadata_store.rs:2406-2451 | a pin is created exactly under a fresh id, unreleased and with the given root, owner, class and expiry |
| `StoreCalls.RenewPinExact` | rabs-cas/src/metadata_store.rs:2453-2479 | a renewal is accepted exactly for an unreleased pin and a later sequence, and changes only the renewal |
| `StoreCalls.ReleasePinExact` | rabs-cas/src/metadata_store.rs:2481-2502 | a direct release is accepted exactly for the pin's owner and sets only the released flag; each refusal's exact condition |
| `StoreCalls.OutOfRangeRefused` | rabs-cas/src/metadata_store.rs:1713-1746 | a number past the signed 64-bit range is refused before anything is written |
| `StoreInvariants.CallGrows` | rabs-cas/src/metadata_store.rs:1713-2587 | no call rewrites a publication, evidence or lineage row, lowers a serving revision, a pin renewal or the high-water mark, unreleases a pin, revives a tombstoned generation, or drops an edge |
| `StoreInvariants.CallSound` | rabs-cas/src/metadata_store.rs:1713-2143 | every call keeps: one unreleased authority at most, ids at or below the mark, every publication with its serving row, an evidence row and a pin rooted at its manifest |
| `StoreInvariants.RunSound` | rabs-cas/src/metadata_store.rs:1713-2143 | the same in every run of calls, each under its own kill budget |
| `StoreInvariants.ReachableSound` | rabs-cas/src/metadata_store.rs:1713-2143 | so in every store reachable from an empty one |
| `StoreInvariants.RunGrows` | rabs-cas/src/metadata_store.rs:3112-3138 | between any two moments of any run history only grows: committed rows never change and serving revisions never decrease |
| `StoreInvariants.GenerationIdsNeverReused` | rabs-cas/src/metadata_store.rs:1625-1641 | accepted generation ids strictly increase along every run, tombstoned or not |
| `CrashMatrix.CommitRerun` | rabs-cas/src/metadata_store.rs:2011-2143 | re-running a commit changes nothing more, the same key and descriptor is an idempotent duplicate, and a conflicting descriptor is quarantined again |
| `CrashMatrix.KilledCommit` | rabs-cas/src/crash_matrix.rs:592-622 | for every kill budget a commit leaves the old tables or the complete new ones, and offering the row again reaches the complete new ones |
| `CrashMatrix.RetryConverges` | rabs-cas/src/crash_matrix.rs:247-340 | wherever an attempt at the whole scenario is killed, setup, uploads or commit, the recovery-aware scenario run again under a fresh pin is accepted and ends in the tables of an uninterrupted attempt: the first one's if it had finished, the retry's own otherwise |
| `CrashMatrix.NothingExposed` | rabs-cas/src/crash_matrix.rs:385-447 | before the last call of the scenario nothing of the result is visible: published tables and pins are the old ones |
| `CrashMatrix.ConvergedPublishes` | rabs-cas/src/crash_matrix.rs:429-539 | where every retry ends when the key was unpublished: the publication as offered, pinned and unreleased under the attempt's own pin, with every upload located as it was made |
| `CrashMatrix.RunScript` | rabs-cas/src/crash_matrix.rs:247-340 | a recovery-aware script stops at the first refusal or at the kill, leaving exactly its first calls done, and says why it stopped |
| `CrashMatrix.KillPoint` | rabs-cas/src/crash_matrix.rs:569-616 | one kill point: how many calls the reopened tables hold, that a kill happened exactly below the scenario's number of mutations and exposed nothing, and that the retry succeeded with exactly the uninterrupted tables |
| `CrashMatrix.RunCrashMatrix` | rabs-cas/src/crash_matrix.rs:546-629 | over all kill points the driver reports no violation if and only if both attempts are accepted uninterrupted and fit below the cap, and then the number of boundaries it found is exact |
| `CrashMatrix.KillScript` | rabs-cas/src/crash_matrix.rs:557-629 | any script killed after any number of mutations reopens to the tables of a whole number of its calls, which satisfy the store invariant; if the rest is then accepted, the tables are those of an uninterrupted run |
| `GcSnapshot.ReachableFrom` | rabs-cas/src/metadata_store.rs:2691-2719 | the worklist stops on every edge set, cycles included, with exactly the closure of the roots |
| `GcSnapshot.PreservedExact` | rabs-cas/src/gc.rs:222-229 | the preserved set is exactly what walks of edges reach from unreleased pin roots |
| `GcSnapshot.RootIsPinned` | rabs-cas/src/metadata_store.rs:2691-2719 | the root of an unreleased pin is protected |
| `GcSnapshot.ChildIsPinned` | rabs-cas/src/metadata_store.rs:2691-2719 | protection runs from parents to children |
| `GcSnapshot.PinnedIsLeast` | rabs-cas/src/metadata_store.rs:2691-2719 | and no farther: any set that holds the roots of unreleased pins and the children of its members holds everything pinned |
| `GcSnapshot.PreservedSetExact` | rabs-cas/src/gc.rs:222-229 | the set built from a snapshot's roots and closure is that set |
| `GcSnapshot.TakeSnapshot` | rabs-cas/src/metadata_store.rs:2669-2742 | roots, located objects and closure of one moment, each listed in the order of its query, with the run and its three counts recorded in the same transaction; nothing recorded on an error |
| `Gc.ProtectionFor` | rabs-cas/src/gc.rs:190-220 | no protection exactly when the object is neither preserved nor held nor authoritative, staging is reconciled, and policy or emergency allows |
| `Gc.EvictionTotal` | rabs-cas/src/gc.rs:176-188 | the eviction order is total and ties only a location with itself |
| `Gc.ScanUnique` | rabs-cas/src/metadata_store.rs:2744-2773 | the ordered location scan is determined by the rows it lists |
| `Gc.PlanGc` | rabs-cas/src/gc.rs:237-291 | the plan is the specification's plan over one snapshot; an error leaves everything but the run log as it was, the run recorded or not |
| `Gc.PlanDeterministic` | rabs-cas/src/gc.rs:237-291 | the same tables give the same plan |
| `Gc.PlanPartition` | rabs-cas/src/gc.rs:237-291 | every scanned location is in the plan exactly once, reclaimed or protected |
| `Gc.PlanReasons` | rabs-cas/src/gc.rs:237-291 | reclaimed locations are unprotected, and each protected one carries its true reason or was only cut by the budget |
| `Gc.PlanTruncation` | rabs-cas/src/gc.rs:237-291 | the reclaim list is in eviction order, fills the budget when anything is cut, is marked truncated exactly when something is, and nothing cut precedes anything reclaimed |
| `Gc.PlanColdestFirst` | rabs-cas/src/gc.rs:265-273 | in the written-out order of retention classes, and within a class by last use, then by object key and path: every reclaimed location goes before every later one and before every one the budget cut; an object no policy names counts as a committed result never used |
| `Gc.ReasonMeans` | rabs-cas/src/gc.rs:190-220 | the exact condition of every protection reason, in the order they are asked |
| `GcExecution.ExecuteGc` | rabs-cas/src/gc.rs:300-326 | exactly the planned locations still present are removed and receipted, every other one is a counted skip, and the receipt row holds the planned, reclaimed and skipped counts; a kill leaves a part of the plan removed and nothing else changed |
| `GcExecution.ExecutionCounts` | rabs-cas/src/gc.rs:300-326 | whatever the store holds by then, what is reclaimed is what was planned and still there, each location once, and reclaimed and skipped make up the plan |
| `GcExecution.ExecutionParity` | rabs-cas/src/gc.rs:300-326 | on an unchanged store execution removes exactly the reclaim list with no skips, and a second execution skips all of it |
| `GcExecution.MarkPlan` | rabs-cas/src/gc.rs:348-362 | marking removes nothing; every planned location ends up marked, one already marked with its first row, a new one with the plan's sequence and the saturated deadline |
| `GcExecution.UnlinkDue` | rabs-cas/src/gc.rs:374-413 | exactly the due locations a fresh snapshot and the current protections leave unprotected are unlinked, the rest rescued, and all due tombstones cleared; a kill leaves a part of that, and a dead engine answers with the crash |
| `GcExecution.UnlinkSafe` | rabs-cas/src/gc.rs:374-413 | what an unlink pass may remove is unpinned, unheld, not authoritative evidence, and past its recorded deadline |
| `GcExecution.UnlinkableIff` | rabs-cas/src/gc.rs:374-413 | exactly what an unlink pass may remove: due, reached from no unreleased pin, held by nothing running, and evictable by its policy |
| `GcExecution.DueIff` | rabs-cas/src/metadata_store.rs:2857-2882 | a tombstone is due exactly when its deadline is no later than the clock |
| `GcRuns.TombstoneProvenance` | rabs-cas/src/metadata_store.rs:2818-2855 | in every run, direct tombstone calls included, a tombstone present now and not at the start was written by one event, a mark with its own deadline or a direct call naming it, has been there ever since, and kept its row through every later mark |
| `GcRuns.UnlinkRemovesUnprotected` | rabs-cas/src/gc.rs:374-413 | in every run mixing store calls, planning, releases, marks, unlinks and executions with kills: what an unlink removes is at that moment unreachable from unreleased pins, unheld, not authoritative, and under a tombstone whose deadline has passed |
| `GcRuns.UnlinkRemovesOnlyDue` | rabs-cas/src/gc.rs:348-413 | in every such run, what an unlink removes, if it had no tombstone at the start, was tombstoned at an earlier moment and ever since, and the deadline written then has passed: a mark's sequence plus grace, or the one a direct call named |
| `GcRuns.DoCall` | rabs-cas/src/metadata_store.rs:1584-1599 | a store call under any budget is a step of the run relation |
| `GcRuns.DoPlan` | rabs-cas/src/gc.rs:237-291 | planning under any budget is a step of the run relation |
| `GcRuns.DoRelease` | rabs-cas/src/pin_leases.rs:63-97 | a scoped release under any budget is a step of the run relation |
| `GcRuns.DoMark` | rabs-cas/src/gc.rs:348-362 | marking under any budget is a step of the run relation |
| `GcRuns.DoUnlink` | rabs-cas/src/gc.rs:374-413 | an unlink pass under any budget is a step of the run relation |
| `GcRuns.DoExecute` | rabs-cas/src/gc.rs:300-326 | execution under any budget is a step of the run relation |
| `GcStale.OtherEventsPinNothing` | rabs-cas/src/metadata_store.rs:2011-2143 | only creating a pin, committing a publication or adding an edge can pin anything: every other event leaves no new unreleased pin, no moved root and no new edge |
| `GcStale.PinnedLaterIff` | rabs-cas/src/gc.rs:300-326 | in every run, an object unpinned at one moment is pinned at a later one exactly when one of those three calls between pinned it and it stayed pinned |
| `GcStale.FreshPlanUnprotected` | rabs-cas/src/gc.rs:237-291 | on the store and in the world it was planned from, a plan contains nothing pinned, held or kept by policy |
| `GcStale.LateProtectionIff` | rabs-cas/src/gc.rs:300-326 | a location planned at one moment is protected at a later one, in whatever world there is by then, exactly when one of the three calls between pinned its object for good, or something running or a policy shields it now that did not then |
| `GcStale.ExecutionRemoves` | rabs-cas/src/gc.rs:300-326 | whatever an execution of the plan removes was planned, and is protected by then only for one of those reasons |
| `GcStale.ExecutionRemovesAll` | rabs-cas/src/gc.rs:300-326 | an execution that runs to its end does remove a planned location still there that such a call has pinned since |
| `GcStale.StalePlanReclaimsPinned` | rabs-cas/src/gc.rs:300-326 | a concrete store where a pin created between planning and execution does not save its root |
| `GcRuns.PublicationPinStays` | rabs-cas/src/pin_leases.rs:63-97 | in every run where pins are released only through the scoped call, executions and removals included, a publication pin stays unreleased until a coordinator presents the active authority |
| `GcRuns.PinStaysUntilAsked` | rabs-cas/src/pin_leases.rs:63-97 | in every run whatever, every pin of every class stays unreleased, with its root and owner, until its owner, of a pin outside the publication class, or the coordinator with the one active authority asks for its release, or its owner through the store's own call |
| `GcRuns.UnlinkNeverUnderPublication` | rabs-cas/src/pin_leases.rs:63-97 | in such a run no unlink pass removes a location reachable from the pin at that moment |
| `GcRuns.PublicationPinHolds` | rabs-cas/src/pin_leases.rs:63-97 | in such a run without executions and direct removals, every location reachable from the pin also stays recorded |
| `PinLeases.PublicationPinRelease` | rabs-cas/src/pin_leases.rs:63-97 | a publication pin is released exactly for a coordinator presenting the active authority, and for no worker |
| `PinLeases.ReleasePinScoped` | rabs-cas/src/pin_leases.rs:63-97 | released exactly when the pin exists, is unreleased, and the caller is the coordinator with the one active authority or the owner of a pin outside the publication class; at most the released flag of the named pin changes |
| `PinLeases.ReleaseDecision` | rabs-cas/src/pin_leases.rs:63-97 | the exact condition of every answer, release and refusals, from the pin row and the active authorities alone |
| `PinLeases.PinProtectionMeans` | rabs-cas/src/pin_leases.rs:124-151 | when a pin protects, protects in grace and is expired: an expired one only once the expiry is confirmed and the saturating grace has run out too |
| `PinLeases.ProtectingIsPreserved` | rabs-cas/src/pin_leases.rs:124-151 | a pin judged protecting or in grace has its root in what collection preserves |
| `Digests.DigestKeyInjective` | rabs-cas/src/metadata_store.rs:1438-1451 | digest keys identify digests of one width |
| `Digests.KeyText` | rabs-cas/src/metadata_store.rs:1438-1451 | a digest key is domain, colon and hexadecimal |
| `Digests.HexText` | rabs-cas/src/blob_store.rs:294-301 | two lower-case digits a byte, the high half first |
| `BlobStore.PathInjective` | rabs-cas/src/blob_store.rs:265-276 | different representations never share a published path |
| `BlobStore.PathText` | rabs-cas/src/blob_store.rs:265-276 | a published path, character by character |
| `BlobLimits.SuccessWithinLimits` | rabs-cas/src/blob_store.rs:679-706 | in every run, a call that stored or conceded a duplicate had an input within the cap, of the expected size where given, and of the declared digest |
| `BlobLimits.RefusedByInput` | rabs-cas/src/blob_store.rs:679-706 | in every run, a call given one turn more than its input has bytes and not killed is refused as over the cap exactly when the input is longer, as the wrong size exactly when it fits and differs from the expected size, and as the wrong object exactly when neither and its digest differs |
| `BlobLimits.RunRowsTrue` | rabs-cas/src/blob_store.rs:461-548 | in every run, every object row has the size of an input of that digest some call was asked to put, and every location row is at the object's own path with a durability such a call asked for |
| `BlobNames.RunRegistered` | rabs-cas/src/blob_store.rs:377-548 | in every interleaving of calls of any number of processes, killed anywhere, restarted under any number and reopening any staging name: location rows name published files, each path has at most one winner, live calls never share a staging name, and a call past the link finds its path taken |
| `BlobNames.PublishedNamesStay` | rabs-cas/src/blob_store.rs:461-548 | from any state whatever, no run withdraws a published name, links it to another file, or removes a location row |
| `BlobNames.StoredOnce` | rabs-cas/src/blob_store.rs:461-548 | over every run from an empty store at most one call per path reports Stored |
| `BlobNames.RowsNamePublished` | rabs-cas/src/blob_store.rs:461-548 | over every run from an empty store every location row names a published file, and every reported success has its row |
| `BlobRuns.ExistingMatches` | rabs-cas/src/blob_store.rs:713-753 | on a disk where every file digests to its name, the existing file of a contended path always verifies |
| `BlobRuns.OpenKeepsIff` | rabs-cas/src/blob_store.rs:278-282 | opening a staging name, which creates or truncates, leaves every published file as it was exactly when the name is not still a link to a published file with bytes in it |
| `BlobRuns.RunSound` | rabs-cas/src/blob_store.rs:377-548 | in every such interleaving that never opens a name still linked to a published file: published files are complete and digest to their names, and staging files hold what was read |
| `BlobRuns.RunSoundIff` | rabs-cas/src/blob_store.rs:377-548 | a run keeps all that at every moment if and only if it never opens such a name |
| `BlobRuns.PublishedNeverChanges` | rabs-cas/src/blob_store.rs:461-548 | in such a run published bytes never change and are never withdrawn |
| `BlobRuns.EventKeepsIff` | rabs-cas/src/blob_store.rs:461-548 | from any sound state, one event leaves everything published as it was exactly when it does not open a name still linked to a published file with bytes in it |
| `BlobReuse.AnyEventKeepsIff` | rabs-cas/src/blob_store.rs:461-548 | from any state whatever, one event leaves everything published as it was exactly when it neither truncates nor appends to a published file |
| `BlobReuse.KeptThroughoutIff` | rabs-cas/src/blob_store.rs:461-548 | over every run from every state, published contents are kept at every event if and only if no event opens a name linked to a published file with bytes in it or appends to a published file |
| `BlobReuse.KeptIffClean` | rabs-cas/src/blob_store.rs:461-548 | as long as no call is given an empty file, the openings alone decide: contents are kept at every event if and only if no event opens a name still linked to a published file |
| `BlobReuse.EmptyFileOverwritten` | rabs-cas/src/blob_store.rs:219-282 | why the empty file is set apart: a concrete run that reopens the name of an empty published file, truncates nothing, and writes other bytes into it |
| `BlobReuse.ReopenedAfterLink` | rabs-cas/src/blob_store.rs:494-548 | a call killed between link and cleanup leaves its staging name a second name of the published file; any later opening of the name empties the file |
| `BlobReuse.ReusedNameTruncates` | rabs-cas/src/blob_store.rs:219-282 | a concrete run: a process links a file and dies, a process with the same number starts its counter over, and its first call empties the file |
| `BlobRuns.SuccessIsTrue` | rabs-cas/src/blob_store.rs:713-753 | a reported success has its location row and its published file; a Stored call's file is exactly its bytes, and a duplicate's digests as they do |
| `BlobRuns.FairWriterSucceeds` | rabs-cas/src/blob_store.rs:377-548 | from any state of such a run, a call with honest bytes that is not killed and gets its turns succeeds, whatever the others do |
| `BlobRuns.RetrySucceeds` | rabs-cas/src/blob_store.rs:713-753 | after any such run, kills included, a new call whose bytes digest as declared and fit its own limits, on a name no longer linked, succeeds and is recorded |
| `BlobPut.Directory.PutIfAbsent` | rabs-cas/src/blob_store.rs:377-425 | one process's call on whatever staging name it has come to, step by step up to any fault point, is a run of turns of one call of that machine; which refusal it gives is decided by the input alone and leaves nothing behind, and every other answer is exactly what publishing the staged input left: rows, links, quarantine and staging name |
| `BlobPut.Directory.StageInput` | rabs-cas/src/blob_store.rs:377-425 | the input is staged whole, or refused exactly as over the cap, of the wrong size or of the wrong digest, with nothing but the staging name touched |
| `BlobPut.Directory.StreamToStaging` | rabs-cas/src/blob_store.rs:679-706 | the reading loop refuses exactly the inputs longer than the cap, and otherwise appends exactly the input |
| `BlobPut.Directory.PublishStaged` | rabs-cas/src/blob_store.rs:461-548 | sync, create-exclusive link, directory sync, object row, location row and cleanup as turns of the machine, and what each answer leaves on disk; an occupied path is never overwritten |
| `BlobPut.Directory.HandleExisting` | rabs-cas/src/blob_store.rs:713-773 | the existing file is verified before an idempotent success is conceded; otherwise the incident is opened; what is left on disk in each case |
| `BlobPut.Directory.OpenIncident` | rabs-cas/src/blob_store.rs:755-773 | the incoming file moves to quarantine with its bytes, the existing one stays, the object is quarantined and the existing copy's location flagged, or reported unknown |
| `BlobPut.TurnsKeepDisk` | rabs-cas/src/blob_store.rs:377-548 | whatever turns a call takes from opening a clean name on a sound disk, the disk stays sound and everything published as it was, wherever the call stops |
| `BlobPut.Directory.PutSoundly` | rabs-cas/src/blob_store.rs:377-548 | a put on a sound disk and any staging name, killed at any fault point or not: when the name is not still a link to a published file, files stay complete, rows name published files, nothing published changes, and a reported success is recorded |
| `Ranges.MergeRanges` | rabs-cas/src/sparse_writer.rs:340-353 | sorts and coalesces touching ranges, as the specification's received set |
| `Ranges.MissingRanges` | rabs-cas/src/sparse_writer.rs:232-245 | the gaps a cursor over the received set leaves |
| `Ranges.ReceivedAndMissing` | rabs-cas/src/sparse_writer.rs:226-245 | for disjoint in-bounds ranges in any order, received and missing are sorted, disjoint, nowhere touching, and partition the object |
| `Ranges.CompleteIff` | rabs-cas/src/sparse_writer.rs:300-308 | nothing is missing exactly when every byte was recorded |
| `Ranges.MissingNothingIff` | rabs-cas/src/sparse_writer.rs:232-245 | whatever was recorded, overlapping or not, nothing is missing exactly when the ranges in order of offset link up from zero to the end |
| `Ranges.NoHiddenGap` | rabs-cas/src/sparse_writer.rs:232-245 | and then every byte was recorded: no list hides a gap |
| `Ranges.NestedRangeReported` | rabs-cas/src/sparse_writer.rs:232-245 | a range inside an earlier one makes bytes that were recorded be reported missing |
| `Journal.IntactFirst` | rabs-cas/src/staging_journal.rs:146-177 | intact frames are replayed whatever follows them |
| `Journal.KilledAppend` | rabs-cas/src/staging_journal.rs:129-177 | any prefix of the bytes appends meant to write replays to the whole frames in it, and a tear is reported exactly when bytes are left over |
| `Journal.ReplayFramed` | rabs-cas/src/staging_journal.rs:146-177 | the cursor loop computes that replay on every byte string |
| `Journal.FrameLayout` | rabs-cas/src/staging_journal.rs:129-133 | a frame byte by byte: big-endian length, payload, checksum |
| `Journal.ReplayAppend` | rabs-cas/src/staging_journal.rs:129-177 | appending leaves the intact records alone; what is replayed of the new bytes is what the unparsed tail and they make together |
| `Journal.CutInChecksum` | rabs-cas/src/staging_journal.rs:129-177 | a tail cut inside a record's checksum parses again exactly when the next bytes appended are the missing ones, and then it is the cut record that comes back |
| `RangeRecords.RecordRoundTrip` | rabs-cas/src/sparse_writer.rs:287-338 | the record text the writer appends is what the parser of a resume reads back |
| `RangeRecords.RecordText` | rabs-cas/src/sparse_writer.rs:287 | the record text, field by field |
| `RangeRecords.DecimalText` | rabs-cas/src/sparse_writer.rs:287 | numbers in decimal, each digit by its place |
| `SparseTransfer.VerifyAll` | rabs-cas/src/sparse_writer.rs:195-220 | the loop over replayed payloads adopts records until one does not decode or is out of bounds, and fails closed on the first the file contradicts |
| `SparseTransfer.Resume` | rabs-cas/src/sparse_writer.rs:172-222 | a missing file begins again over whatever journal is there; otherwise exactly the replayed records that check are adopted and a tear is reported; one step of the run relation |
| `SparseTransfer.Transfer.WriteRange` | rabs-cas/src/sparse_writer.rs:252-291 | a refusal touches nothing; an accepted range is written, then its frame appended, then recorded; a kill leaves part of the data or part of the frame; one step of the run relation |
| `SparseTransfer.Transfer.Finish` | rabs-cas/src/sparse_writer.rs:300-325 | refused exactly when something is missing or the digest differs, touching nothing; for disjoint ranges a digest mismatch exactly when every byte was recorded and the file's digest is not the declared one; a newly published file has the declared digest; otherwise linked exclusively, the staged name removed and the directory swept, or killed between these; a collision is an error, takes the staged file away and leaves the directory |
| `SparseTransfer.Transfer.DoFinish` | rabs-cas/src/sparse_writer.rs:300-325 | finishing, killed anywhere, is one step of the run relation, and publishes nothing newly but a file of the declared digest |
| `SparseChecks.VerdictExact` | rabs-cas/src/sparse_writer.rs:252-276 | the exact condition of every answer to a range write, over bytes: empty, out of bounds, this very range already recorded, sharing a byte with what is recorded, and otherwise committed |
| `SparseChecks.ResumeExact` | rabs-cas/src/sparse_writer.rs:172-222 | on any file and any journal bytes: the records a resume uses, that it fails exactly when the file contradicts one of them, the ranges it adopts, and exactly when it reports a tear |
| `SparseChecks.FinishVerdict` | rabs-cas/src/sparse_writer.rs:300-315 | over disjoint ranges and any bytes: incomplete exactly when some byte was never recorded, a digest mismatch exactly when all were and the file's digest differs, publication exactly when it agrees |
| `SparseChecks.FinishVerdictAny` | rabs-cas/src/sparse_writer.rs:300-315 | the same over any recorded ranges, with the exact coverage condition |
| `SparseChecks.FinishExact` | rabs-cas/src/sparse_writer.rs:300-325 | the directory and the answer after an uninterrupted finish, case by case |
| `SparseChecks.NewlyPublished` | rabs-cas/src/sparse_writer.rs:300-325 | in any state, after any event and with any bytes sent, a newly published name holds a file every byte of which was recorded and whose digest is the declared one |
| `SparseChecks.RunPublishesDeclared` | rabs-cas/src/sparse_writer.rs:140-325 | over every run of any bytes that never writes again through the staged name of a linked object, what is published has the declared digest |
| `SparseTransfer.DoBegin` | rabs-cas/src/sparse_writer.rs:140-165 | beginning over whatever is there, truncating the staged file through its links and leaving the journal, is one step of the run relation |
| `SparseRuns.RunSound` | rabs-cas/src/sparse_writer.rs:140-325 | in every run of range writes of one object, kills at any byte of data or frame, restarts, beginnings and killed finishes, that completes no torn tail into another record than the one cut and never begins over what an earlier life left: recorded ranges are in bounds, disjoint and hold the object's bytes, every record replay can read is true of the file, and the published name holds the object or nothing |
| `SparseRuns.RestartSucceeds` | rabs-cas/src/sparse_writer.rs:172-222 | after any such run a killed transfer restarts, with exactly the ranges whose records the journal bytes still hold |
| `SparseRuns.SendMissingCompletes` | rabs-cas/src/sparse_writer.rs:232-325 | from any sound running transfer, whatever its journal, sending exactly what is missing leaves the file equal to the object and nothing missing |
| `SparseRuns.EveryTransferCompletes` | rabs-cas/src/sparse_writer.rs:140-325 | after any such run that leaves the transfer running, sending exactly what is missing and finishing publishes the object and leaves nothing behind |
| `SparseRuns.PublishedStaysIff` | rabs-cas/src/sparse_writer.rs:140-325 | over every run that sends only the object's bytes, whatever the journal holds, the published object stays published and unchanged if and only if no begin comes over a staged name still linked to it |
| `SparseRuns.BeginOverwrites` | rabs-cas/src/sparse_writer.rs:140-165 | such a begin: after a finish killed between link and removal, beginning the attempt again overwrites the published object with zeros |
| `SparseRecovery.AckedRangeSurvivesIff` | rabs-cas/src/sparse_writer.rs:172-222 | an acknowledged range, then a kill and a restart: behind a sealed tail it is found again exactly when the journal ended whole or showed it before; when the tail and the new frame parse together, what is replayed is stated, and adopted when it is the record that was cut |
| `SparseRecovery.NextWriteRestores` | rabs-cas/src/sparse_writer.rs:172-291 | a kill inside a record's checksum never harms: whatever is sent next after the restart, whole or killed itself, leaves the tail sealed or brings back exactly the record that was cut |
| `Journal.SealedForGood` | rabs-cas/src/staging_journal.rs:146-177 | a tail that holds a whole frame with a wrong checksum is never replayed past, whatever is appended |
| `SparseRecovery.OneByteShort` | rabs-cas/src/staging_journal.rs:129-177 | a kill one byte short of a whole record: the next append completes it exactly when its checksum ends in zero |
| `SparseRecovery.TornJournalForgets` | rabs-cas/src/sparse_writer.rs:172-222 | byte by byte, a run where an acknowledged range is forgotten: one header byte of a killed append hides every later frame |
| `SparseRecovery.RestartIff` | rabs-cas/src/sparse_writer.rs:172-222 | on any directory whatever, a restart succeeds exactly when the staged file is gone or every record the journal shows, up to the first undecodable or out of bounds, agrees with it |
| `SparseRecovery.RefusedForGood` | rabs-cas/src/sparse_writer.rs:172-222 | a refused restart stays refused until the attempt is begun over |
| `SparseRecovery.SecondStale` | rabs-cas/src/sparse_writer.rs:183-187 | a finish killed before its sweep leaves a published object, and the next process begins with an empty file over the whole old journal |
| `SparseRecovery.StaleRun` | rabs-cas/src/sparse_writer.rs:183-220 | whatever that second life writes, it restarts after a kill exactly when its file has the object's checksums at every range of the first life's journal |
| `SparseRecovery.StaleRefusedForGood` | rabs-cas/src/sparse_writer.rs:183-220 | a concrete such life, from an empty directory on, that no later event but beginning over brings back |
| `SparseRecovery.SentTwice` | rabs-cas/src/sparse_writer.rs:183-220 | any object in any split, finished but not swept, then sent whole again in any split: the next restart succeeds and holds the ranges of both lives |
| `ClosureValidation.ValidateClosure` | rabs-cas/src/closure_validation.rs:63-105 | acceptance means the reached subgraph is closed, acyclic, within fan-out and node bounds, each node on some path within the depth bound; every refusal is justified by what it names, a cycle by a node that reaches itself; a graph within the bounds on every path is accepted |
| `ClosureValidation.Lookup` | rabs-cas/src/closure_validation.rs:88-90 | the first node claimed under an identity, or none exactly when there is none |
| `ClosureValidation.JustifiedIsOutside` | rabs-cas/src/closure_validation.rs:63-105 | a justified refusal shows a bound or closure really violated |
| `PackRanges.ValidatePackRanges` | rabs-cas/src/closure_validation.rs:131-152 | accepts exactly non-empty, in-bounds, pairwise disjoint members in any order; every refusal names a real fault: an empty member, one out of bounds, or two that overlap |
| `Utf8.AsciiValid` | rabs-cas/src/pack.rs:232-234 | ASCII keys pass the UTF-8 check of the index |
| `Parsing.ManySound` | rabs-cas/src/pack.rs:224-258 | repeated decoding accepts only concatenated encodings of admissible items |
| `Parsing.ManyComplete` | rabs-cas/src/pack.rs:224-258 | and decodes every such concatenation back |
| `Parsing.DecodeMany` | rabs-cas/src/pack.rs:224-258 | the decoding loop computes that repetition, errors included |
| `Pack.ParseSound` | rabs-cas/src/pack.rs:191-277 | any byte string parse accepts is exactly the encoding of its index and payload, with ascending keys, tiling spans and every bound respected |
| `Pack.ParseComplete` | rabs-cas/src/pack.rs:191-277 | every admissible index over a payload parses back from its encoding |
| `Pack.ParsePack` | rabs-cas/src/pack.rs:191-277 | the imperative parse, with every error in the order it is checked |
| `Pack.HeaderRefusals` | rabs-cas/src/pack.rs:191-219 | the exact condition of every refusal of the header, by its bytes |
| `Pack.EntryByBytes` | rabs-cas/src/pack.rs:224-253 | the exact condition of every refusal of an entry, by its bytes, and the member it is otherwise read as |
| `Pack.PackLayout` | rabs-cas/src/pack.rs:157-181 | the whole pack, field by field |
| `Pack.KeysAscend` | rabs-cas/src/pack.rs:246-251 | keys strictly ascend |
| `Pack.SpansCover` | rabs-cas/src/pack.rs:223-271 | every payload byte lies in some member's span |
| `Pack.SpansDisjoint` | rabs-cas/src/pack.rs:223-271 | no payload byte lies in two spans |
| `Pack.Locate` | rabs-cas/src/pack.rs:291-296 | binary search finds a key exactly when some member has it |
| `Pack.MemberBytes` | rabs-cas/src/pack.rs:282-299 | returns the member's own span, always inside the pack, and nothing for a digest the pack lacks or a pack of another length |
| `PackBuild.CollectExact` | rabs-cas/src/pack.rs:127-149 | collecting succeeds exactly when every digest is genuine and no key names two contents, and keeps each content once |
| `PackBuild.BuildCanonical` | rabs-cas/src/pack.rs:123-182 | the pack, and whether one is built, depends only on the set of members: order and identical duplicates do not matter |
| `PackBuild.BuildOkIff` | rabs-cas/src/pack.rs:123-182 | a pack is built exactly when there are members, all genuine, one content per digest, and at most 4096 distinct ones; the index bound never refuses |
| `PackBuild.BuildRefusals` | rabs-cas/src/pack.rs:123-171 | every refusal to build is deserved by what it names |
| `PackBuild.BuildParses` | rabs-cas/src/pack.rs:123-182 | a built pack parses, to an index of exactly the offered contents in key order |
| `PackBuild.BuildRoundTrip` | rabs-cas/src/pack.rs:123-299 | every member offered to a successful build is read back byte for byte through the parsed index |
| `PackBuild.BuildOnlyOffered` | rabs-cas/src/pack.rs:123-299 | every member of a built pack was offered, with exactly the bytes its span holds |
| `PackBuild.BuildPack` | rabs-cas/src/pack.rs:123-182 | the imperative build, with every error in the order it is checked |
| `BigEndian.DecodeEncode` | rabs-cas/src/manifest_codec.rs:239-247 | fixed-width integers read back as written |
| `BigEndian.EncodeDecode` | rabs-cas/src/manifest_codec.rs:239-247 | and every byte string of the width is some integer's |
| `BigEndian.ByteAt` | rabs-cas/src/manifest_codec.rs:155-170 | the most significant byte comes first |
| `ManifestRefusals.HeaderRefusals` | rabs-cas/src/manifest_codec.rs:286-296 | the exact condition of every refusal of the header, by its bytes |
| `ManifestRefusals.DigestRefusals` | rabs-cas/src/manifest_codec.rs:251-278 | the exact condition of every refusal of a digest field, by its bytes, and the digest it is otherwise read as |
| `ManifestRefusals.TagRefusals` | rabs-cas/src/manifest_codec.rs:107-142 | tags by number, known and refused |
| `ManifestRefusals.TruncationRefused` | rabs-cas/src/manifest_codec.rs:222-233 | a manifest cut short anywhere is refused as truncated, never read as another manifest or another format |
| `WireFormats.WellTypedMeans` | rabs-cas/src/manifest_codec.rs:286-345 | the manifests the format admits, each digest under the domain its field is for |
| `WireFormats.ManifestLayout` | rabs-cas/src/manifest_codec.rs:175-209 | the whole encoding, field by field |
| `WireFormats.OutputLaidOut` | rabs-cas/src/manifest_codec.rs:199-205 | one output's bytes, under a tag that numbers its role in the written-out list |
| `WireFormats.OutputsInOrder` | rabs-cas/src/manifest_codec.rs:146-153 | outputs are encoded by role in the written-out order and within a role by path bytewise, smallest first, none lost or added |
| `Lexicographic.BelowMeans` | rabs-cas/src/manifest_codec.rs:146-153 | bytewise order: the first difference decides, and a proper prefix comes first |
| `ManifestCodec.DigestSound` | rabs-cas/src/manifest_codec.rs:251-278 | a digest field accepts only its own domain, algorithm tag and 32 bytes |
| `ManifestCodec.DigestComplete` | rabs-cas/src/manifest_codec.rs:155-170 | and every digest of the domain reads back from what was put |
| `ManifestCodec.ManifestExact` | rabs-cas/src/manifest_codec.rs:286-345 | decoding accepts exactly the bytes of well-typed manifests, whatever follows, and stops at their end |
| `ManifestCodec.DecodeExact` | rabs-cas/src/manifest_codec.rs:286-345 | bytes decode to a manifest exactly when they are that manifest's encoding in listed order and it is well typed, so decoding is injective on accepted bytes |
| `ManifestCodec.TrailingRefused` | rabs-cas/src/manifest_codec.rs:331-333 | an accepted string followed by anything is refused with the number of extra bytes, so no strict prefix of an accepted string is accepted |
| `ManifestCanonical.TieIff` | rabs-cas/src/manifest_codec.rs:146-153 | the canonical order ties exactly outputs that share a role and a path |
| `ManifestCanonical.RoundTrip` | rabs-cas/src/manifest_codec.rs:175-345 | decoding an encoding gives the manifest back in canonical order exactly when it is well typed and its lengths fit their fields |
| `ManifestCanonical.ReencodeStable` | rabs-cas/src/manifest_codec.rs:175-209 | what was decoded from an encoding encodes to the same bytes |
| `ManifestCanonical.OrderFreeIff` | rabs-cas/src/manifest_codec.rs:146-153 | the bytes are independent of the order outputs are listed in exactly when no two different outputs share a role and a path |
| `ManifestReader.Reader.Take` | rabs-cas/src/manifest_codec.rs:222-233 | the cursor advances by what it returns, and not at all at the end of the buffer |
| `ManifestReader.Reader.Digest` | rabs-cas/src/manifest_codec.rs:251-278 | reads a digest field as the format defines it, errors included |
| `ManifestReader.Reader.Outputs` | rabs-cas/src/manifest_codec.rs:313-327 | reads the counted outputs as the format defines them, errors included |
| `ManifestReader.DecodeManifest` | rabs-cas/src/manifest_codec.rs:286-345 | the imperative decoder computes the format's decoding on every byte string |
| `ManifestReader.EncodeManifest` | rabs-cas/src/manifest_codec.rs:175-209 | the imperative encoder appends exactly the canonical bytes |
| `CommitGraph.Reachable` | rabs-cas/src/ancestry_index.rs:64-81 | terminates on cycles and answers exactly whether parent edges lead to the ancestor |
| `CommitGraph.SearchNearest` | rabs-cas/src/ancestry_index.rs:158-193 | the layered search returns a find at the least number of parent edges, or nothing exactly when none is reachable |
| `CommitGraph.FindIsFirst` | rabs-cas/src/ancestry_index.rs:158-193 | among finds of one layer the first in the order of the layer is taken |
| `CommitGraph.WalkLayers` | rabs-cas/src/ancestry_index.rs:158-193 | the frontier loop terminates on every graph and computes that search |
| `AncestryIndex.EntriesExact` | rabs-cas/src/ancestry_index.rs:116-122 | after any history of records the index holds exactly the latest record of each of the most recently recorded states, up to its capacity |
| `AncestryIndex.Index.Record` | rabs-cas/src/ancestry_index.rs:116-122 | recording moves a known state to the end and evicts the oldest at capacity |
| `AncestryIndex.NearestExact` | rabs-cas/src/ancestry_index.rs:137-193 | nearest answers with a usable snapshot at the least distance, or nothing exactly when no usable snapshot is reachable |
| `AncestryIndex.ExactStateWins` | rabs-cas/src/ancestry_index.rs:137-155 | a snapshot of the exact state wins at distance zero |
| `AncestryIndex.Index.Nearest` | rabs-cas/src/ancestry_index.rs:158-193 | the imperative query computes that answer |
| `AncestryIndex.OrphansExact` | rabs-cas/src/ancestry_index.rs:198-208 | orphans are exactly the held states no live tip reaches |
| `AncestryIndex.OrphansNeverServed` | rabs-cas/src/ancestry_index.rs:158-208 | a query from a live tip never answers with an orphan |
| `AncestryIndex.Index.Orphans` | rabs-cas/src/ancestry_index.rs:198-208 | the imperative filter computes that list in entry order |
| `AncestorSelection.NearestCompatibleExact` | rabs-cas/src/ancestor_selection.rs:90-136 | the nearest compatible candidate is the nearest usable one of the target's class, or there is none |
| `AncestorSelection.QueriesAgree` | rabs-cas/src/ancestor_selection.rs:90-136 | over candidates of one class with distinct states it agrees with the index query, candidate for entry |
| `AncestorSelection.FindNearestCompatible` | rabs-cas/src/ancestor_selection.rs:90-136 | the loop that settles distance zero first computes that candidate |
| `AncestorSelection.SelectOptimal` | rabs-cas/src/ancestor_selection.rs:140-163 | without overflow at the distance found, a warm start is chosen exactly when some usable candidate of the class beats the full build, and it costs no more than any other |
| `AncestorSelection.ColdCauseExact` | rabs-cas/src/ancestor_selection.rs:140-163 | a cold build is put down to no compatible ancestor exactly when there is none |
| `AncestorSelection.ColdCostsTrue` | rabs-cas/src/ancestor_selection.rs:140-163 | a cold build that says a warm start is not worth it names the costs it compared, the nearest candidate's and the full build's |
| `AncestorSelection.ExactCandidateWins` | rabs-cas/src/ancestor_selection.rs:96-107 | a compatible candidate of exactly the target's state is taken before any other |
| `AncestorSelection.EarliestAt` | rabs-cas/src/ancestor_selection.rs:102-107 | among candidates of one state the first listed is taken |
| `AncestorSelection.Select` | rabs-cas/src/ancestor_selection.rs:140-163 | the imperative selection computes that decision |
| `Chunking.MaskIsLocal` | rabs-cas/src/chunking.rs:82-116 | with fewer than 64 mask bits the test of the wrapping hash sees only that many last bytes |
| `Chunking.CutTestIsCandidate` | rabs-cas/src/chunking.rs:82-116 | with the minimum size covering the window, the cut test at a position is a function of the bytes before it alone, wherever the chunk began |
| `Chunking.CutIsFirstCandidate` | rabs-cas/src/chunking.rs:82-116 | a chunk ends at the first candidate past its minimum, or at its maximum or the object's end |
| `Chunking.CutArithmetic` | rabs-cas/src/chunking.rs:96-105 | the cut rule in arithmetic, for every profile with fewer than 64 mask bits: a chunk is the shortest length past the minimum whose last mask-width bytes, each weighted by two to its distance from the end, sum to a multiple of two to that width; no earlier length past the minimum does; and a chunk that fills its window has none |
| `Chunking.CutProgress` | rabs-cas/src/chunking.rs:82-116 | a chunk is non-empty exactly when the maximum size is positive or the rest fits the minimum: otherwise the loop does not advance |
| `Chunking.SharedSuffixResynchronizes` | rabs-cas/src/chunking.rs:82-116 | two objects that share a suffix and both have a boundary at its start are cut identically after it |
| `Chunking.CandidatesCoincide` | rabs-cas/src/chunking.rs:82-116 | a window's length into a shared suffix, two objects have the same cut candidates |
| `Chunking.EditResynchronizes` | rabs-cas/src/chunking.rs:82-116 | from a shared suffix alone: when a chunk of one object ends at a candidate past both minimums, the chunk of the other, starting no earlier in the suffix, ends there too, and both are cut identically from there on |
| `Chunking.LengthsCover` | rabs-cas/src/chunking.rs:82-116 | chunk lengths are positive and add up to the object |
| `Chunking.LengthsBounded` | rabs-cas/src/chunking.rs:82-116 | every chunk but the last is above the minimum, or at the maximum, and none exceeds it |
| `Chunking.Chunk` | rabs-cas/src/chunking.rs:82-116 | the nested loops compute those lengths as contiguous spans, every one of them cut by the arithmetic rule |
| `Chunking.ValidateCoverage` | rabs-cas/src/chunking.rs:122-137 | accepts exactly contiguous non-empty spans from zero to the object's length |
| `Chunking.ChunksReassemble` | rabs-cas/src/chunking.rs:82-137 | the spans of any chunking tile the object and reassemble to it |
| `TreeManifest.DiffIsNeed` | rabs-cas/src/tree_manifest.rs:67-114 | with distinct wanted names and digests that summarize subtrees, skipping finds the same chunks in the same order as walking everything |
| `TreeManifest.EqualDigestsAskNothing` | rabs-cas/src/tree_manifest.rs:86-101 | directories with one digest are not walked, whatever is below them |
| `TreeManifest.NeedExact` | rabs-cas/src/tree_manifest.rs:67-114 | a full walk finds exactly the chunks some wanted file has and the receiver's file at the same path lacks |
| `TreeManifest.DiffExact` | rabs-cas/src/tree_manifest.rs:60-114 | the diff has no repeats, equals what a full walk collects, and is exactly those chunks |
| `TreeManifest.VisitsBounded` | rabs-cas/src/tree_manifest.rs:67-114 | a diff visits no more nodes than the wanted tree has |
| `TreeManifest.MissingChunks` | rabs-cas/src/tree_manifest.rs:60-65 | the recursive walk with its list and counters computes that diff and those counts |

## Left out

- SQL text, the two engines behind the store, schema migration and domain interning.
- Store tables and calls not named above: attempts, leases, worker and edge fences, operations, samples, served consumers, incident receipts, the objects table, `set_location_quarantined`.
- The divergence phase of the crash matrix, `process_offer` and the attempt and lease rows of its setup.
- fsync, power loss, permissions, disk errors other than a kill, and the fan-out directory's own durability.
- `put_encoded_representation` and `record_pack_member_locations`: the same publish steps with a decoder in front, and a loop of location calls.
- SHA-256, BLAKE3 and the gear table's values.
- CrashMatrix.RunCrashMatrix: the scenario is authority, generation, locations and commit; its violations are numbered by kill point, without their text.
- BlobRuns.RunSound: calls use the raw profile; a quarantined file keeps its staging name instead of taking a counter value of its own.
- SparseRuns.RunSound: a kill between creating the sparse file and sizing it is not an event.
- GcRuns.DoUnlink: an unlink pass is one step, as one process holds the store exclusively; for calls of other processes that fall between its snapshot and a removal, `GcStale.PinnedLaterIff` says exactly which pins the recheck misses.
- Gc.PlanGc: mode and reason names as text are not modelled.
- PackBuild.BuildRoundTrip: assumes a pack shorter than 2^64 bytes, as any buffer is.
- ManifestReader.DecodeManifest: the overflow check on the cursor cannot fail on a buffer in memory and is not modelled; the found domain in an error is its bytes, not their lossy text.
- CommitGraph.WalkLayers: the distance is unbounded, where the source counts layers in a u32.
- AncestorSelection.SelectOptimal: `warm_ms` wraps as in a release build; a debug build panics on overflow instead.
- AncestryIndex.Index.Record: requires a positive capacity, because the source panics on a capacity of zero.
- Chunking.Chunk: requires a mask of fewer than 64 bits, beyond which the source's shift overflows.
- Small tables settled by case analysis elsewhere in the repository (serving transitions, state machines, compression and collision policy), manifest path validation, and the daemon and command-line runtime.
