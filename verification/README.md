# Verified model of release activation, driver protocol, distribution and database knowledge

A Dafny project that models the hardest parts of the repository and proves what they promise. `dafny verify
dfyconfig.toml` checks all of it.

## The system

- **Activation.** A release is installed by a journalled protocol over an install root: copy, health check, PREPARED
  journal, publish by rename, PUBLISHED, record, pointer switch, COMMITTED, cleanup. Rollback, uninstall, a
  recency-ordered record of verified releases and a stale-lock reclaim stand beside it. `InstallRoot` is the disk as
  state with one atomic write per effect; `ActivationPlan` gives each operation as the list of its writes and its
  answer; `ActivationManager` is the imperative manager, proved to perform exactly a prefix of that list when it dies
  early. `CrashConsistency`, `CrashRuns`, `Recovery` and `VerifiedRecord` prove what holds over every run with crashes
  anywhere; `FirstRelease` shows the hypotheses can be met, and what a component in the record's place does; `Launcher`
  is a whole launch over the manager, up to the release that runs; `ActivationLock` is the lock as interleaved steps.
  `HealthEvidence`, `ActivationGates`, `Uninstalling` and `LaunchDecision` say, apart from the functions that decide it,
  which evidence is healthy, which stage opens, when rollbacks and launches succeed and what an uninstall leaves.
- **Driver protocol.** `DriverFrames` and `FrameDecoder` (length-prefixed frames and the incremental decoder),
  `SequenceGuard` (exactly-once delivery), `EventQueue` (hysteresis and the supervisor), `SessionLedger` (interleaved
  emits, cancels and closes) and `SessionLoop` (the ledger's objects, driven through any interleaving). `FrameValidity`
  and `SessionAnswers` say what a frame must be to get through, and what each call of the ledger brings about.
- **Distribution.** `HermeticBundle` (the normal form of a release manifest), `TufMetadata`, `TufPublication` and
  `TufRefresh` (threshold signatures, publishing, re-signing the online roles), `TufSeparation` (how far a refresh keeps
  online and offline keys apart, and its expiries in order), `TargetPaths` (names and bytes of targets),
  `ResumableStaging` (ranged, resumable downloads of one component), `ReleaseStaging` (all components of a release in one
  directory, with its receipt). `BundleAcceptance`, `Patterns`, `TufAcceptance`, `TargetAnswers` and `StagingAnswers` say
  which input is accepted, and what comes of it, on the input itself.
- **Database knowledge and probes.** `SchemaSources`, `SchemaClaims`, `KnowledgePackage` and `KnowledgeResolution`
  (import, merge, facts, contradictions and their resolution), `ProbeOperation` and `PostgreSqlProbe` (planner and
  worker agreement), `MongoDbCommand`, `MongoDbProbe`, `MongoDbBinding` and `MongoDbPlanning` (command validation,
  parameter binding, and the same agreement). `SourceAcceptance`, `SourceStatements` and `PackageAcceptance` say which
  sources make a package and what it then says, `SqlAcceptance` and `MongoDbAcceptance` which statements are read.

`Results`, `Text` and `CodeUnits` hold outcomes, text classes and code-unit sorting.

## Assumptions

- SHA-256 over canonical JSON is injective: a digest is the datatype value it was taken of. Where only its order
  matters (`KnowledgePackage`) or it is compared with stored text (`TargetPaths`) the digest is a function parameter,
  required injective where that is used.
- A record or receipt that the program writes repeats the digests of its components, so its own bytes have none of them.
- A directory is the map of the files in it; a name has a file only if no file lies inside it.
- Ed25519 signing, signature checking and key material are oracles (`TufMetadata.Crypto`); `Honest` says a signer's
  private and public keys match. The health gate, process liveness, remote answers, the event sink and the current time
  are parameters, unrestricted unless a statement says otherwise.
- A file write, rename or removal is one atomic step; recursive removal is atomic except in a purge, which removes
  files one by one in any order. Staging appends may be torn.
- Characters are Unicode scalars; the patterns the model checks admit ASCII only, except that a database type may in
  the program also contain the two non-ASCII letters that fold to `s` and `k`, and that a name the program lower-cases
  before it matches a pattern (a function name, the names in a statement) may contain the Kelvin sign, which becomes `k`.
- Records arrive with the fields and types the program checks for; an object's keys are distinct.

## Where the code and a promise part

- Mutual exclusion fails when a dead owner left a written lock and three processes contend, although the comment at
  transactional-activation.ts:566-568 reads as if the reclaim were safe: `MutualExclusionIff` gives the exact
  condition and `ThirdContenderEnters` the schedule. A lock created but never written is not reclaimable at all
  (`EmptyLockIsForever`), and it is the only leftover that is not (`ReclaimableIff`).
- An active release is to be complete, every byte verified. The record is written to `release.json` among the
  components, after their check, and no rule reserves that name. With a component there an activation succeeds and
  leaves it overwritten, and nothing but a purge gets rid of it (`RecordOverwritesComponent`,
  `OverwrittenStaysRefused`); with one inside `release.json/` it fails (`RecordIsBlocked`). Everything else holds over
  every run (`CrashConsistent`), and `IntactIff`, `ActivationSucceedsIff`, `ActivationEnds` and `RetriesConvergeIff`
  give the exact condition.
- A purge that dies before its end can leave a release that can be neither activated nor repaired by activating:
  exactly when it removed some file of the release and not its directory (`InterruptedPurgeBlocks`, and
  `PurgeLeavesRemains` for a release). Finishing the purge repairs it (`FinishedPurgeHeals`).
- Staging is to resume after any interruption. The partial file of `x` is `x.part`, which may be another component. If
  it comes first, every attempt fails or a finished one lacks a file (`ShadowedNeverStages`, `OvertakenLosesFile`);
  `StageableIff` is the exact condition on the paths.
- Chunk independence of the decoder fails for headers within three bytes of the limit; `EveryChunkingSurvivesIff` is
  the exact condition and `TightHeaderCanDie` a stream.
- The supervisor spends an event's number before the queue may refuse it, so the numbers dequeued have a gap from the
  first refusal on: exactly when an admitted event meets a full queue (`ContiguousIffNeverFull`, and
  `RefusalLeavesGap` for a run).
- Publishing does not demand that online and offline keys differ; `RefreshAcceptsPublicationIff` shows that a refresh
  by the same online roles then is refused, and only then (`SharedKeyIsRefused` for a release).
- A MongoDB command is cleared of denied keys before parameters are bound. An array parameter is not looked into, so a
  bound command may hold one: for some accepted parameters whenever the command has any (`AlwaysCleanIff`), never for
  scalars (`ScalarsBindClean`).
- A refresh is to refuse an online signer that shares key material with a key of root, targets or components authority
  (tuf-publication.ts:723-726). It compares with one map by key id, in which the delegation's entries overwrite the
  root's, so a targets key whose id the delegation redeclares is not compared (`OverwrittenKeySigns`). `SeparatedIff`
  says which refreshes are affected and `SeparationIff` which releases; one key per id is enough to be safe
  (`OneKeyPerIdSeparates`).
- A refresh is to order timestamp, snapshot, targets and root (tuf-publication.ts:838-842), but compares only the sooner
  of the targets and components expiries with the root's: the order holds exactly when neither file outlives the root
  (`FullOrderIff`), and targets may (`TargetsOutliveRoot`).
- The planner keeps objects by the text of schema, name and type joined by dots (data-probe/src/index.ts:438), and an
  identifier may hold a dot: two objects with one such text are planned as one (`DottedNamesCollide`), and only then is
  an object lost (`NoObjectIsLostIff`).
- The planner's identifier pattern is narrower than the parsers' patterns, so it refuses some operations they read:
  `PlannerAcceptsIff` and `PlannerAcceptsReadingIff` say which, `OneTableIsPlannedIff`, `ReadableNamesCanBeRefused`,
  `ListingIsPlannedIff` and `OneLetterDatabaseIsRefused` give them.

## Model

| member | source | states |
|---|---|---|
| ActivationManager.Manager.Write | packages/distribution/src/transactional-activation.ts:737-743 | one filesystem write either happens whole or not at all: the disk is always the start state with a prefix of the planned writes applied, and a process out of writes leaves it untouched |
| ActivationManager.Manager.CopyClosure | packages/distribution/src/transactional-activation.ts:675-706 | clearing and refilling a transaction directory, cut anywhere, performs a prefix of the copy writes and touches neither pointer, journal, releases nor record |
| ActivationManager.Manager.RecordVerified | packages/distribution/src/transactional-activation.ts:488-505 | recording a verified release rewrites only the record of that trust root, or fails on an invalid record without writing |
| ActivationManager.Manager.Activate | packages/distribution/src/transactional-activation.ts:745-824 | the imperative activation, dying after any number of writes, leaves exactly the corresponding prefix of its plan on disk and gives exactly the plan's answer; which evidence lets that plan succeed is HealthEvidence.HealthErrorIff, which stages ActivationGates.StageOpensIff |
| ActivationManager.Manager.RollbackRelease | packages/distribution/src/transactional-activation.ts:826-873 | the same for rollback, with and without a trust-root binding |
| ActivationManager.Manager.UninstallRelease | packages/distribution/src/transactional-activation.ts:875-905 | the same for uninstall, with a purge that removes files in any order; what the plan leaves is Uninstalling.UninstallEnds |
| ActivationManager.Manager.PreparePayload | packages/distribution/src/transactional-activation.ts:675-697 | clearing the transaction directory and making it anew, cut anywhere, performs a prefix of those writes |
| ActivationManager.Manager.PublishPayload | packages/distribution/src/transactional-activation.ts:781-796 | writing the release record into the payload, under whatever stands at its path, the PREPARED journal, the publishing rename and the PUBLISHED journal happen in that order, cut anywhere |
| ActivationManager.Manager.Commit | packages/distribution/src/transactional-activation.ts:797-813 | the pointer switch, the COMMITTED journal and the cleanup happen in that order, cut anywhere |
| ActivationManager.Manager.Finish | packages/distribution/src/transactional-activation.ts:797-813 | recording the release precedes the pointer switch, and a record that fails stops before it |
| ActivationManager.Manager.ActivateFresh | packages/distribution/src/transactional-activation.ts:772-813 | the publishing branch performs a prefix of its plan and gives the plan's answer |
| ActivationManager.Manager.KeepActive | packages/distribution/src/transactional-activation.ts:754-765 | the already-active branch records the release and clears the journal, and does nothing else |
| ActivationManager.Manager.SwitchUnderJournal | packages/distribution/src/transactional-activation.ts:845-860 | a rollback writes PREPARED, switches the pointer, writes COMMITTED and removes the journal, in that order, cut anywhere |
| ActivationManager.Manager.RemovePointer | packages/distribution/src/transactional-activation.ts:886-889 | an uninstall drops the pointer before the journal, and the transactions last |
| HealthEvidence.HealthErrorIff | packages/distribution/src/transactional-activation.ts:313-360 | health evidence is accepted exactly when it has three checks, each of migration, native and driver with a passing one and a digest, and two launchers, vestra and verchestra, both ended with 0, of the target's digest and version, with one equal behaviour digest; otherwise the error names what failed |
| HealthEvidence.ActivatedWasHealthy | packages/distribution/src/transactional-activation.ts:745-813 | an activation that succeeds without its target being active already was answered by a health gate with such evidence |
| HealthEvidence.RolledBackWasHealthy | packages/distribution/src/transactional-activation.ts:826-862 | so was every successful rollback |
| HealthEvidence.ReachedIsHealthy | packages/distribution/src/transactional-activation.ts:745-873 | after any run with crashes, the health every release record and every journal on disk carries is such evidence for its release |
| ActivationGates.StageOpensIff | packages/distribution/src/transactional-activation.ts:627-673 | a stage opens exactly when it claims no authority, names a verified bundle's release for this host, lists its components one by one, and its directory holds this very receipt and every component with its own bytes |
| ActivationGates.RollbackSucceedsIff | packages/distribution/src/transactional-activation.ts:826-873 | a rollback succeeds exactly when its release is intact, no foreign journal stands, the gate's evidence is healthy for it and, if it is bound, the binding is a digest whose record names the release and the release is of this host |
| ActivationGates.ActivationReceipt | packages/distribution/src/transactional-activation.ts:814-823 | the receipt of an activation names the pointer there was and the one there is, and whether the release directory was already there |
| ActivationGates.RollbackReceipt | packages/distribution/src/transactional-activation.ts:845-872 | a finished rollback changes pointer and journal only, and its receipt says so |
| Uninstalling.UninstallEnds | packages/distribution/src/transactional-activation.ts:886-896 | a finished uninstall leaves no pointer, no journal and no transaction; without a purge all releases and records stay, with one none does |
| Uninstalling.PointerGoesFirst | packages/distribution/src/transactional-activation.ts:886-889 | an uninstall cut after any number of writes but none has removed the pointer, and only removes |
| CrashConsistency.SafeStep | packages/distribution/src/transactional-activation.ts:745-905 | each single write an operation makes keeps the install-root invariant: active is absent or names a complete release, and a COMMITTED journal's target is active or nothing is |
| CrashConsistency.CopyPasses | packages/distribution/src/transactional-activation.ts:675-724 | copying a staged closure that matches its bundle passes the validation that follows it, and leaves no room for the record exactly when a component lies inside its path |
| CrashConsistency.IntactIff | packages/distribution/src/transactional-activation.ts:708-724 | a complete release passes its own integrity check exactly when no component of it claims the record's path |
| CrashRuns.CommandSafe | packages/distribution/src/transactional-activation.ts:745-905 | from every state that satisfies the invariant, every write of every operation is safe, in every branch, with any health-gate answer and any component paths |
| CrashRuns.CrashConsistent | packages/distribution/src/transactional-activation.ts:745-905 | after any sequence of activations, rollbacks and uninstalls, each dying after any write, the active release is complete up to the record's own path, and intact exactly when no component claims that path; without a purge no complete release ever stops being complete |
| CrashRuns.EmptyRootSound | packages/distribution/src/transactional-activation.ts:745-905 | an empty install root satisfies the invariant, so the theorems cover every reachable state |
| CrashRuns.ForeignJournalBlocks | packages/distribution/src/transactional-activation.ts:535-540 | while a journal for one target stands, an activation or rollback of any other target changes nothing at all |
| CrashRuns.PointerAfter | packages/distribution/src/transactional-activation.ts:745-873 | an operation, cut anywhere, moves the pointer to its own target or not at all, and a refused one leaves the old release active, complete, and intact exactly when no component claims the record's path |
| CrashRuns.ReaderNeverTears | packages/distribution/src/transactional-activation.ts:708-724 | a reader that saw the pointer at any point of a non-purging operation finds that release complete however far the operation and later ones got, and accepts it exactly when no component claims the record's path |
| Recovery.ActivationSucceedsIff | packages/distribution/src/transactional-activation.ts:745-824 | an activation of an opened stage succeeds exactly when no foreign journal stands, health passes or the target is already active, and the release directory is complete with no component overwritten by the record, or absent with no component inside the record's path |
| Recovery.ActivationEnds | packages/distribution/src/transactional-activation.ts:745-824 | a successful activation ends with the target active, complete, last in its trust root's record, and no journal; it ends intact exactly when no component claims the record's path |
| Recovery.RetriesConverge | packages/distribution/src/transactional-activation.ts:745-824 | after any number of activations of one target, each cut anywhere, an uninterrupted one with passing health succeeds and ends with the target active and intact, if no component lies at or inside the record's path |
| Recovery.RetriesConvergeIff | packages/distribution/src/transactional-activation.ts:745-824 | that condition is exact: every such run converges exactly when no component lies at or inside the record's path |
| Recovery.OverwrittenStaysRefused | packages/distribution/src/transactional-activation.ts:750-824 | a published release whose record overwrote a component stays refused, by activation and rollback and without a write, after any run without a purge |
| Recovery.ConvergesFromAnyHistory | packages/distribution/src/transactional-activation.ts:745-905 | convergence from an empty machine after any history of non-purging operations that leaves no foreign journal, if no component lies at or inside the record's path |
| Recovery.InterruptedPurgeBlocks | packages/distribution/src/transactional-activation.ts:889-896 | after a purge that dies at any point, having removed files in any order, activating a healthy release succeeds exactly when its directory is gone or undamaged; otherwise it fails without writing, so it cannot repair the release |
| Recovery.FinishedPurgeHeals | packages/distribution/src/transactional-activation.ts:889-896 | a purge that completes leaves every target recoverable |
| FirstRelease.FirstActivationEnds | packages/distribution/src/transactional-activation.ts:745-824 | a concrete smallest release activates on an empty machine after any crashed attempts: the hypotheses of the recovery theorems can be met |
| FirstRelease.FirstReleaseIsAccepted | packages/distribution/src/hermetic-bundle.ts:140-276 | the bundle rules accept the release, also with a component at or inside the record's path |
| FirstRelease.RecordOverwritesComponent | packages/distribution/src/transactional-activation.ts:781-824 | an accepted bundle with a component at the record's path activates, is active and not intact, and every further operation on it is refused without a write, after any run without a purge |
| FirstRelease.RecordIsBlocked | packages/distribution/src/transactional-activation.ts:781-824 | an accepted bundle with a component inside the record's path fails to activate |
| FirstRelease.PurgeLeavesRemains | packages/distribution/src/transactional-activation.ts:889-896 | the installed first release, of which a purge removed one file before it died, is refused without a write |
| VerifiedRecord.RecordedIsKeepLast | packages/distribution/src/transactional-activation.ts:488-505 | one recorded activation turns the record of a history into the record of the history with it appended |
| VerifiedRecord.RecordIsHistory | packages/distribution/src/transactional-activation.ts:488-505 | after any run with crashes the record equals the history of recorded activations with all but the last occurrence of each digest removed |
| VerifiedRecord.RetainedIsSuperseded | packages/distribution/src/transactional-activation.ts:507-533 | a retained release is the only recorded match and some later recorded activation superseded it |
| VerifiedRecord.LatestIsNeverRetained | packages/distribution/src/transactional-activation.ts:507-533 | the most recently recorded release is never answered as retained |
| VerifiedRecord.BoundRollbackIsRecorded | packages/distribution/src/transactional-activation.ts:822-842 | a bound rollback succeeds only for a release recorded under that root and built for this host |
| VerifiedRecord.RetainedPathWorks | apps/vestra-launcher/closure/node-activation-closure.ts:204-273 | when a retained release is complete and healthy the launcher takes the local path; it succeeds exactly when no component claims the record's path, and then the same release is still retained afterwards |
| Launcher.RetainedLaunchIsLocal | apps/vestra-launcher/closure/node-activation-closure.ts:204-273 | a launch that finds a retained release, cut after any write, leaves a prefix of the bound rollback to it and nothing else, keeps releases and record so that it is still retained, answers a refused rollback with that refusal over an untouched disk, and otherwise runs exactly the retained release if that has one node runtime; what is staged has no influence |
| Launcher.Launch | apps/vestra-launcher/closure/node-activation-closure.ts:172-273 | the launcher over the imperative manager, dying anywhere, leaves the disk and gives the answer of the whole-launch function: decide, roll back or activate, resolve what is active, demand one node runtime; that only the pinned release runs is LaunchDecision.LaunchedIsPinned |
| Launcher.RollbackKeepsRecord | packages/distribution/src/transactional-activation.ts:826-873 | a rollback, bound or not and cut after any write, leaves every record and every release directory as it was |
| LaunchDecision.NetworkIff | apps/vestra-launcher/closure/node-activation-closure.ts:229-262 | a launch asks the network exactly when there is no anchored root or nothing is retained, and ends with the record's error over an untouched disk when the record is broken |
| LaunchDecision.StrangerIsRefused | apps/vestra-launcher/closure/node-activation-closure.ts:153-158 | on the network path a stage of another release or version than the pinned one is refused and the disk is untouched |
| LaunchDecision.PinnedIsActivated | apps/vestra-launcher/closure/node-activation-closure.ts:204-273 | and otherwise what happens is the activation of that stage under the pinned trust root, cut wherever the launch was |
| LaunchDecision.LaunchedIsPinned | apps/vestra-launcher/closure/node-activation-closure.ts:153-175 | whatever the disk, the anchor, the gate and the stage: a launch that answers with a release answers with one of the pinned identity and version |
| LaunchDecision.LaunchedHasRuntime | apps/vestra-launcher/closure/node-activation-closure.ts:177-202 | and that release has exactly one node runtime |
| LaunchDecision.UnanchoredIgnoresRecord | apps/vestra-launcher/closure/node-activation-closure.ts:204-273 | an unanchored launch gives the same answer and the same disk, the records aside, whatever the records say |
| ActivationLock.MutualExclusionIff | packages/distribution/src/transactional-activation.ts:542-587 | over all interleavings of single lock steps at most one process holds the lock, exactly when no dead owner left a written lock or at most two processes contend |
| ActivationLock.ThirdContenderEnters | packages/distribution/src/transactional-activation.ts:569-587 | a concrete schedule in which a third contender enters the window between rename-aside and rename-back, so that two hold |
| ActivationLock.EmptyLockIsForever | packages/distribution/src/transactional-activation.ts:569-573 | a lock whose creator died before writing its identity is never reclaimed: no later process ever acquires |
| ActivationLock.ReclaimableIff | packages/distribution/src/transactional-activation.ts:542-587 | some schedule lets a live process hold the lock exactly when what dead processes left is not a lock nobody wrote |
| ActivationLock.ThreeAttempts | packages/distribution/src/transactional-activation.ts:542-564 | over every schedule no process is beyond its third attempt, and a race lost in the first or second is tried again, in the third not |
| ActivationLock.ReleasesOwnOnly | packages/distribution/src/transactional-activation.ts:542-564 | a holder that releases removes its own lock and leaves another's |
| DriverFrames.EncodedLength | packages/drivers/src/index.ts:84-90 | the length field of an encoded header reads back as the body length, for every length within the bound |
| FrameDecoder.FrameDecoder.Push | packages/drivers/src/index.ts:163-179 | one push emits exactly the frames complete in the buffer plus the chunk, keeps the rest, and remembers the last payload digest; its loop refines the one-step decoder, whose envelopes FrameValidity.BodyIsAcceptedIff describes |
| FrameDecoder.FrameDecoder.ReadHeader | packages/drivers/src/index.ts:181-195 | reading a header consumes it exactly when it is complete and valid, and dies on an oversized or malformed one without consuming |
| FrameDecoder.FrameDecoder.ReadBody | packages/drivers/src/index.ts:163-179 | reading a body consumes exactly the announced bytes |
| FrameDecoder.ChunkIndependence | packages/drivers/src/index.ts:163-210 | any two chunkings of one stream that both survive emit the same envelopes and keep the same residue |
| FrameDecoder.ChunkingIsOnePush | packages/drivers/src/index.ts:163-210 | a surviving chunking equals one push of the concatenation |
| FrameDecoder.EveryChunkingSurvivesIff | packages/drivers/src/index.ts:181-195 | every chunking of a stream the one-shot push survives behaves like it exactly when each header is at most maximumHeaderBytes - 3 bytes, because a partial terminator counts against the limit |
| FrameDecoder.TightHeaderCanDie | packages/drivers/src/index.ts:163-210 | a stream that decodes in one push and is refused when cut inside the end of its header |
| FrameDecoder.ResidualBounded | packages/drivers/src/index.ts:181-195 | the buffer kept between pushes never exceeds the larger of maximumHeaderBytes and maximumMessageBytes - 1 |
| FrameDecoder.RoundTripAnyChunks | packages/drivers/src/index.ts:84-90 | encoded envelopes, cut into chunks anywhere, decode back in order with nothing left over |
| FrameValidity.BodyIsAcceptedIff | packages/drivers/src/index.ts:92-145 | a frame body is accepted exactly when it parses to a well-formed envelope of this workspace whose payload digest is the digest of its payload |
| FrameValidity.EmittedAreGenuine | packages/drivers/src/index.ts:163-179 | over any chunks, every envelope a surviving decoder emitted is such an envelope, parsed from a body of the stream |
| FrameValidity.OtherBodiesEnd | packages/drivers/src/index.ts:163-179 | a complete body that is no such envelope ends the decoder |
| FrameValidity.HeaderStepIff | packages/drivers/src/index.ts:181-195 | between bodies the decoder waits exactly while no header has ended and the limit is not passed, and takes exactly the header that ends first, if within the limit |
| FrameValidity.HeaderIsReadIff | packages/drivers/src/index.ts:181-210 | a header is read as a length exactly when it is one line that says Content-Length, a colon and, between blanks, that number in decimal without leading zeros, from 1 to the bound |
| SequenceGuard.SequenceGuard.AcceptEnvelope | packages/drivers/src/index.ts:220-250 | the guard accepts the next number once, passes over an exact retransmission, and refuses anything else without changing |
| SequenceGuard.ExactlyOnceIff | packages/drivers/src/index.ts:220-250 | a stream passes the guard with some output exactly when that output is numbered from 0 with distinct identities and the stream is it with exact retransmissions inserted |
| SequenceGuard.HostAdapter.Push | packages/drivers/src/index.ts:474-489 | one push delivers exactly what the guard lets through of what the decoder emits, and a failure of either is final for that push |
| SequenceGuard.DeliveredExactlyOnce | packages/drivers/src/index.ts:474-489 | a numbered stream with retransmissions anywhere, encoded and cut anywhere, is delivered as the original, once each and in order |
| SequenceGuard.DeliveriesAreNumbered | packages/drivers/src/index.ts:474-489 | whatever arrives, surviving deliveries are numbered contiguously from 0 with distinct message identities |
| FrameValidity.DeliveredAreGenuine | packages/drivers/src/index.ts:474-489 | whatever arrives, everything the host adapter delivers is a well-formed envelope of this workspace with a true payload digest, from a body of the stream |
| EventQueue.BoundedQueue.Push | packages/drivers/src/index.ts:304-312 | a push appends in order, fails exactly when the queue is full, and pauses reads at the high-water mark |
| EventQueue.BoundedQueue.Shift | packages/drivers/src/index.ts:314-319 | a shift removes the oldest event and resumes reads exactly at the low-water mark |
| EventQueue.Supervisor.AcceptEvent | packages/drivers/src/index.ts:504-515 | the supervisor admits only the next event, and spends its number even when the queue then refuses it |
| EventQueue.QueueRuns | packages/drivers/src/index.ts:282-320 | over any run, paused means above the low-water mark, not paused means below the high-water mark, and until the first overflow dequeued plus queued events are exactly 0..next-1 in order |
| EventQueue.ContiguousIffNeverFull | packages/drivers/src/index.ts:504-515 | over any run, the events dequeued and queued are contiguous and account for every number spent exactly when no admitted event arrives at a full queue |
| EventQueue.RefusalLeavesGap | packages/drivers/src/index.ts:504-515 | a run in which the reader sees event 0 followed by event 2 |
| EventQueue.OnlyExactNumbers | packages/drivers/src/index.ts:504-515 | over any run an event is admitted exactly when it is known, carries the next number and that number is at most 2^53 - 1 |
| EventQueue.DisciplinedNeverOverflows | packages/drivers/src/index.ts:282-320 | a reader that sends at most capacity - highWater events after a pause never overflows the queue |
| EventQueue.AllowanceIsExact | packages/drivers/src/index.ts:282-320 | that allowance is exact: a larger one overflows on some run |
| SessionLedger.LedgerSession.SetOutcome | packages/drivers/src/driver-session-ledger.ts:62-65 | an outcome stands once it is not completed or the session is terminal |
| SessionLedger.Ledger.Open | packages/drivers/src/driver-session-ledger.ts:116-120 | opening registers a fresh session under its identity |
| SessionLedger.Ledger.CancelEnd | packages/drivers/src/driver-session-ledger.ts:142-145 | a resumed cancel sets the cancelled outcome if none stands and terminates |
| SessionLedger.LedgerSession.Emit | packages/drivers/src/driver-session-ledger.ts:85-97 | an emit delivers the event under the next number; once terminal it delivers nothing, and a sink that throws leaves the sequence where it was |
| SessionLedger.LedgerSession.Terminate | packages/drivers/src/driver-session-ledger.ts:98-105 | termination delivers one closing event carrying the standing outcome, and only once |
| SessionLedger.Ledger.Close | packages/drivers/src/driver-session-ledger.ts:147-157 | close reports the outcome and count of a session, known or already closed, and refuses an unknown one |
| SessionLedger.EveryInterleavingSound | packages/drivers/src/driver-session-ledger.ts:45-164 | over every interleaving of emits, suspended cancels, outcome writes and closes, delivered numbers are 0,1,2,..., at most one closing event is delivered and it is last, and the first failed or cancelled outcome stands |
| SessionLedger.TerminalIsFinal | packages/drivers/src/driver-session-ledger.ts:85-105 | nothing is ever delivered to a session after its closing event |
| SessionLedger.CloseReportsTruth | packages/drivers/src/driver-session-ledger.ts:147-157 | what close reports is the number of events delivered and the outcome in the closing event, and stays true whatever happens later |
| SessionAnswers.InterleavingTells | packages/drivers/src/driver-session-ledger.ts:45-164 | over every interleaving, a session delivers besides its closing event exactly what was emitted to it before without a throw, in order, and its outcome is the first failure or cancellation reported to it, a cancel that ends it counting as one |
| SessionAnswers.CancelEnds | packages/drivers/src/driver-session-ledger.ts:129-146 | a cancel ends an open session at once with a cancelled or the standing outcome and its reason, or leaves one suspended task; a closed, ended or unknown session it leaves alone |
| SessionAnswers.ResumeEnds | packages/drivers/src/driver-session-ledger.ts:129-146 | a suspended cancel ends its session only after the stop has settled and the run of that moment has ended, and changes nothing before |
| SessionAnswers.CloseEnds | packages/drivers/src/driver-session-ledger.ts:147-157 | a close ends an open session with the outcome that stands and closes its id for good; if the sink throws the session stays open |
| SessionAnswers.RunsAreNumbered | packages/drivers/src/driver-session-ledger.ts:79-84 | over any steps no run gets the number of an earlier one |
| SessionLoop.EventLoop.CancelSession | packages/drivers/src/driver-session-ledger.ts:122-146 | calling cancel on the real ledger and sessions is one step of the interleaving: over at once, or suspended until the run stops |
| SessionLoop.EventLoop.ResumeCancel | packages/drivers/src/driver-session-ledger.ts:122-146 | resuming a suspended cancel through the ledger is one step: cancelled is reported unless an outcome stands, and the session terminates |
| SessionLoop.EventLoop.CloseSession | packages/drivers/src/driver-session-ledger.ts:147-157 | closing through the ledger is one step, whether the session is open, closed already or unknown |
| SessionLoop.EventLoop.Perform | packages/drivers/src/driver-session-ledger.ts:107-164 | every step of every interleaving, performed by the ledger's own methods on its own objects, moves their contents exactly as the step says |
| SessionLoop.Drive | packages/drivers/src/driver-session-ledger.ts:107-164 | any sequence of calls, handled one after the other by those methods, ends in the world of the step function and is sound: the interleaving theorems are about the objects |
| HermeticBundle.VerifyBuilt | packages/distribution/src/hermetic-bundle.ts:273-316 | verifying a built bundle gives it back: the normal form is a fixed point, digest included |
| HermeticBundle.VerifyIsNormalForm | packages/distribution/src/hermetic-bundle.ts:278-316 | whatever verification accepts is already the normal form |
| HermeticBundle.BuildIgnoresOrder | packages/distribution/src/hermetic-bundle.ts:239-276 | permuting components, and the references inside each, does not change the bundle or its digest |
| HermeticBundle.AcceptedBundleIsClosed | packages/distribution/src/hermetic-bundle.ts:202-237 | in an accepted bundle identities and paths are distinct, every required kind is present, and every license and attestation reference of a non-evidence component resolves inside it to the required kinds |
| BundleAcceptance.ComponentIsAcceptedIff | packages/distribution/src/hermetic-bundle.ts:140-200 | a component is accepted exactly when identity, kind, path, digest, size, release identity, platform and references all fit, and is kept with its references sorted |
| BundleAcceptance.ClosureIff | packages/distribution/src/hermetic-bundle.ts:202-237 | the closure check passes exactly when identities and paths are distinct, every required kind is there, the two launchers are, and every reference of a component that needs evidence resolves to the kinds it must |
| BundleAcceptance.ManifestIsAcceptedIff | packages/distribution/src/hermetic-bundle.ts:239-276 | a manifest is built exactly when its header, each component and their closure are accepted, and the bundle holds the input's components, sorted, and nothing else |
| Patterns.PathIff | packages/distribution/src/hermetic-bundle.ts:96-119 | a component path is accepted exactly when it is 1 to 1024 characters of slash-joined names of safe characters, none of them a step, ending in a dot, or a device name in any case and with any extension |
| Patterns.SemanticVersionIff | packages/distribution/src/hermetic-bundle.ts:6-7 | a version is accepted exactly when it is three numbers without leading zeros joined by dots, perhaps with a hyphen and a tail |
| BundleAcceptance.PathsStayInside | packages/distribution/src/hermetic-bundle.ts:96-119 | an accepted path is relative, has no backslash and no empty, dot or dot-dot segment |
| TufMetadata.VerifyEnvelope | packages/distribution/src/tuf-publication.ts:683-701 | the signature loop accepts exactly when at least the threshold of distinct role keys have some valid signature |
| TufMetadata.ThresholdIgnoresOrder | packages/distribution/src/tuf-publication.ts:683-701 | reordering or repeating signatures changes nothing and further signatures never lose the threshold |
| TufMetadata.SignersMeetThreshold | packages/distribution/src/tuf-publication.ts:385-398 | an envelope signed by a role's own matching keys always meets that role's threshold |
| TufAcceptance.ThresholdIff | packages/distribution/src/tuf-publication.ts:683-701 | a file is accepted for a role exactly when some threshold-many different keys the role names each have a signature in it that checks out |
| TufPublication.UnionKeys | packages/distribution/src/tuf-publication.ts:337-346 | the key-union loop: first occurrence of each id, or a refusal when one id stands for two public keys |
| TufPublication.UnionHolds | packages/distribution/src/tuf-publication.ts:337-346 | the union fails exactly when one id stands for two keys, and otherwise loses and invents no key |
| TufRefresh.OfflineKeyTable | packages/distribution/src/tuf-publication.ts:806-814 | the loops build one map by id: the root's keys for its root and targets roles, with the delegated entries set last, overwriting equal ids |
| TufRefresh.DelegatedKeyTable | packages/distribution/src/tuf-publication.ts:812-814 | the second loop gathers exactly the delegated keys the components role names |
| TufRefresh.HonestPublishingSucceedsIff | packages/distribution/src/tuf-publication.ts:513-618 | with matching key pairs, publishing succeeds exactly when the input checks pass and no id stands for two keys; every role's file then meets its threshold under the published root |
| TufRefresh.PublicationVerifies | packages/distribution/src/tuf-publication.ts:513-618 | what is published verifies offline exactly until the targets expiry and is accepted by a client exactly until the timestamp expiry |
| TufRefresh.RefreshServesClients | packages/distribution/src/tuf-publication.ts:845-890 | every refresh returned is accepted by a client of the same root over the unchanged offline files exactly until its timestamp expires, with both online versions above the targets version and expiries in order |
| TufRefresh.RefreshKeepsRolesApart | packages/distribution/src/tuf-publication.ts:729-751 | every signer of a refresh is declared by the root for its own role and shares neither id nor key material with any key in the gathered table |
| TufSeparation.SeparatedIff | packages/distribution/src/tuf-publication.ts:723-751 | an accepted refresh shares no id or material with any root, targets or components key, overwritten ones included, exactly when no online signer carries the material of a key whose id the delegation redeclares |
| TufSeparation.OneKeyPerIdSeparates | packages/distribution/src/tuf-publication.ts:723-751 | when root and delegation never give one id two keys, every accepted refresh is fully separated |
| TufSeparation.SeparationIff | packages/distribution/src/tuf-publication.ts:723-814 | for a release that can be refreshed with keys that have holders, all its accepted refreshes are separated exactly when the root declares no usable online key with the material of a key the delegation overwrites |
| TufSeparation.OverwrittenKeySigns | packages/distribution/src/tuf-publication.ts:723-814 | an accepted refresh whose online signer holds the material of a targets key, because the delegation redeclares that key's id |
| TufSeparation.FullOrderIff | packages/distribution/src/tuf-publication.ts:838-864 | an accepted refresh has timestamp <= snapshot <= targets, components <= root exactly when neither offline file outlives the root |
| TufSeparation.TargetsOutliveRoot | packages/distribution/src/tuf-publication.ts:838-864 | an accepted refresh whose targets expire after its root |
| TufRefresh.RefreshAcceptsPublicationIff | packages/distribution/src/tuf-publication.ts:845-890 | a published release can be refreshed by its own online roles exactly when they share no id or key material with the offline ones; publishing itself does not demand this |
| TufSeparation.SharedKeyIsRefused | packages/distribution/src/tuf-publication.ts:729-751 | a release published with one key for targets and timestamp, which its online roles cannot refresh |
| TufAcceptance.InputIsAcceptedIff | packages/distribution/src/tuf-publication.ts:263-335 | the input of a publication is accepted exactly when every role has well-formed, pairwise different signer ids and a threshold they can reach, both versions are positive and the expiries lie in the future in order |
| TufAcceptance.PublicationHolds | packages/distribution/src/tuf-publication.ts:429-618 | whatever the signers, a publication holds exactly the input's targets, components, keys, roles and expiries, each file is signed by its own role's signers alone, and each online file names version and bytes of the files below it |
| TufAcceptance.OfflineVerifiedIff | packages/distribution/src/tuf-publication.ts:762-821 | root, targets and components verify offline exactly when their key ids, roles and thresholds are well-formed, enough of the declared keys vouch for each, the delegation is the one of components, versions agree and nothing has expired |
| TufAcceptance.RefreshedIff | packages/distribution/src/tuf-publication.ts:845-890 | a refresh returns given online files exactly when the offline files stand, both versions exceed the targets version, the expiries are in order, every online signer is declared for its role and is no offline key, and the files pin those very offline files, are signed by their roles' signers alone and are vouched for by enough declared keys |
| TargetPaths.NamesAgreeIff | packages/distribution/src/tuf-publication.ts:412-418 | publisher and client compute the same hashed name exactly when the directory is not the bare root and has no backslash |
| TargetPaths.BundlePathsAgree | packages/distribution/src/tuf-update-client.ts:298-305 | for every path a bundle can carry the two names agree, hashed or not |
| TargetPaths.NamesAreInjective | packages/distribution/src/tuf-publication.ts:412-418 | a hashed name determines both the path and the hash |
| TargetAnswers.PublishedAs | packages/distribution/src/tuf-publication.ts:412-418 | the publisher puts the hash and a dot before the last name of a path and changes nothing else |
| TargetAnswers.ReadAs | packages/distribution/src/tuf-update-client.ts:298-305 | the client reads the same name but for backslashes and a doubled slash at the root, and refuses what is no digest |
| TargetPaths.PublishTargets | packages/distribution/src/tuf-publication.ts:595-600 | publishing targets with distinct paths never overwrites one: as many names as targets, each leading back to its own |
| TargetPaths.GatherBytes | packages/distribution/src/tuf-publication.ts:352-361 | the first loop accepts exactly safe, non-empty entries with distinct paths and maps each path to its bytes |
| TargetPaths.ValidateComponentBytes | packages/distribution/src/tuf-publication.ts:348-370 | the loops accept exactly when the byte list covers the components one to one with the declared sizes and digests |
| TargetPaths.MaterializedBytesCover | packages/distribution/src/release-materializer.ts:133-149 | the bytes a materialization returns always pass that check for the bundle it returns |
| TargetAnswers.CoversIff | packages/distribution/src/tuf-publication.ts:348-370 | bytes cover components exactly when they are as many non-empty entries of different safe paths as there are components, and each component finds its path, size and digest among them |
| TargetAnswers.MaterializedHolds | packages/distribution/src/release-materializer.ts:133-149 | a materialized bundle holds exactly the components of the sources but their licenses and of the evidence, and the bytes returned are theirs |
| ResumableStaging.BoundedBody | packages/distribution/src/tuf-update-client.ts:483-510 | a body is returned whole exactly when it fits the bound |
| ResumableStaging.ReadRange | packages/distribution/src/tuf-update-client.ts:534-614 | an HTTP range is accepted exactly when the status, range and body length agree (section 14.4 of RFC 9110), and then it carries between 1 and the requested number of bytes inside the total |
| ResumableStaging.ReadWholeTarget | packages/distribution/src/tuf-update-client.ts:268-287 | the in-memory loop is the staging loop started from nothing |
| ResumableStaging.StagedComponent.Resume | packages/distribution/src/tuf-update-client.ts:772-799 | the resuming loop appends each answer before asking for the next, at strictly increasing offsets and never below what is held |
| ResumableStaging.StagedComponent.Stage | packages/distribution/src/tuf-update-client.ts:739-808 | one attempt, cut or failing anywhere, does exactly what the attempt function says |
| ResumableStaging.StagingIsSafe | packages/distribution/src/tuf-update-client.ts:772-808 | for one component whose files nothing else writes, against fixed content, over any attempts cut anywhere, even inside a write, the partial file is a prefix of the content and a finished attempt leaves exactly the content |
| ResumableStaging.DownloadFinishes | packages/distribution/src/tuf-update-client.ts:776-799 | with usable answers the loop ends at exactly the size after at most one answer per missing byte |
| ResumableStaging.CorruptionCostsOneAttempt | packages/distribution/src/tuf-update-client.ts:800-806 | for one component whose files nothing else writes between two attempts, whatever partial file is found: an attempt answered to the end stages the content or removes the partial file, and the next one stages it |
| StagingAnswers.DownloadTakes | packages/distribution/src/tuf-update-client.ts:776-799 | against any source, the loop appends only answers of the announced total that are not empty, no longer than asked for and inside the target, in order and in full, and stops with the whole target, at the first other answer with its code, or where it was cut |
| StagingAnswers.FinishedIsVerified | packages/distribution/src/tuf-update-client.ts:739-808 | whatever the source serves and whatever was there, an attempt that finishes leaves bytes of the announced number and digest |
| StagingAnswers.AttemptFinishesIff | packages/distribution/src/tuf-update-client.ts:764-808 | an attempt over an incomplete file finishes exactly when it is not cut, the answers taken fill the target, the result has the digest and there is a file to rename, which an empty target without a partial file lacks |
| ReleaseStaging.ReleaseStage.StageComponent | packages/distribution/src/tuf-update-client.ts:764-808 | staging one component inside the release does what the one-component attempt does to its two files, unless a directory blocks one of its names |
| ReleaseStaging.ReleaseStage.StageRelease | packages/distribution/src/tuf-update-client.ts:852-887 | the loop over the manifest stages the components in order until one does not finish, then writes or compares the receipt |
| StagingAnswers.ItemIsStagedIff | packages/distribution/src/tuf-update-client.ts:764-808 | staging a component touches its own two names only, is refused when a file is in the way, and says it is done only with the component in place |
| ReleaseStaging.VisitsKeep | packages/distribution/src/tuf-update-client.ts:852-887 | with names apart, over any history of honest attempts cut anywhere, the stage holds exactly the first components whole, at most a prefix of the next, and never fewer than before |
| ReleaseStaging.StageableIff | packages/distribution/src/tuf-update-client.ts:764-887 | over every history of honest attempts from an empty stage, what finishes has staged everything and what is answered to the end finishes, exactly when no component lies at or inside the partial file of a later one, inside another component, or at or inside the receipt |
| ReleaseStaging.ShadowedNeverStages | packages/distribution/src/tuf-update-client.ts:764-808 | a release with x.part before x, no longer than x and no beginning of it: every attempt answered to the end fails its integrity check |
| ReleaseStaging.OvertakenLosesFile | packages/distribution/src/tuf-update-client.ts:764-808 | a release with x.part before x and longer than x: the first attempt answered to the end finishes with x.part missing |
| ReleaseStaging.StagingHeals | packages/distribution/src/tuf-update-client.ts:764-887 | from any files under the release's own names, when no component needs another's names, one answered attempt more than there are components always ends with everything staged |
| SchemaSources.ImportTwice | packages/data-probe/src/database-knowledge.ts:154-217 | importing an imported source gives it back, digest included |
| SchemaSources.RecheckAccepts | packages/data-probe/src/database-knowledge.ts:270-293 | the digest recheck never rejects an imported source |
| SchemaSources.RecheckReturnsTheDigested | packages/data-probe/src/database-knowledge.ts:270-293 | what the recheck passes is determined by the digest and passes again unchanged |
| SchemaSources.ImportIgnoresOrder | packages/data-probe/src/database-knowledge.ts:154-217 | the order of entities, and of columns inside them, does not change the imported source |
| SchemaSources.KnowledgeSources | packages/data-probe/src/database-knowledge.ts:294-313 | the merging loop equals its specification, first failure included |
| SchemaSources.MergedSourcesHold | packages/data-probe/src/database-knowledge.ts:294-313 | the merge succeeds exactly when every source rechecks and no identity carries two sources, and returns each once, ordered by kind and identity |
| SchemaSources.MergeIgnoresOrder | packages/data-probe/src/database-knowledge.ts:294-313 | two lists whose sources the recheck makes the same of, in any order and with any repetition, merge alike |
| SourceAcceptance.ImportIff | packages/data-probe/src/database-knowledge.ts:128-217 | a source is imported exactly when its kind, identities, instant, reference, entities and columns fit and no name is repeated, and the import has the same entities and columns, sorted, with each type text as its words in lower case |
| SourceAcceptance.SourceIsTakenIff | packages/data-probe/src/database-knowledge.ts:270-293 | a package takes an offered source exactly when it fits, is of its database and carries the digest of what importing it gives |
| SchemaClaims.EntityUniverse | packages/data-probe/src/database-knowledge.ts:315-325 | the loops gather exactly the columns of each entity over all sources |
| SchemaClaims.ClaimTable.Add | packages/data-probe/src/database-knowledge.ts:362-370 | adding a claim to the nested maps keeps them the tabulation of the claims added |
| SchemaClaims.ClaimTable.AddColumnClaims | packages/data-probe/src/database-knowledge.ts:326-345 | exactly the claims a source makes about the columns of one entity are added |
| SchemaClaims.ClaimTable.AddEntityClaims | packages/data-probe/src/database-knowledge.ts:346-359 | exactly the claims a source makes over the whole universe are added, in whatever order it is walked |
| SchemaClaims.ClaimTable.AddColumn | packages/data-probe/src/database-knowledge.ts:334-344 | exactly the claims a source makes about one column are added |
| SchemaClaims.ClaimTable.AddEntity | packages/data-probe/src/database-knowledge.ts:351-358 | exactly the claims a source makes about one entity are added |
| SchemaClaims.SourceClaims | packages/data-probe/src/database-knowledge.ts:360-373 | the claim table is the tabulation of all claims of all sources; which claims those are is SourceStatements.ClaimedIff |
| SourceStatements.ClaimedIff | packages/data-probe/src/database-knowledge.ts:314-372 | a claim of a value for a fact under a source's identity stands exactly when that source says it: the type, flags and entity type it lists under the name, and, of a complete source, whether each entity or column any source lists is among its own |
| SourceStatements.ColumnTypeIsClaimedIff | packages/data-probe/src/database-knowledge.ts:326-344 | in the program's own texts, for the type of one column: claimed exactly as some source of that identity lists it under that entity and name |
| KnowledgePackage.PrintInjective | packages/data-probe/src/database-knowledge.ts:326-359 | distinct fact keys have distinct dotted texts |
| KnowledgePackage.ClaimsAreFunctional | packages/data-probe/src/database-knowledge.ts:326-359 | no source claims two values for one fact |
| KnowledgePackage.AlternativesPartitionClaimants | packages/data-probe/src/database-knowledge.ts:374-387 | facts are listed once in key order, and each fact's alternatives partition exactly the sources that claim it, by value |
| KnowledgePackage.ContradictoryIffSourcesDisagree | packages/data-probe/src/database-knowledge.ts:374-387 | a fact is contradictory exactly when two sources claim different values for it |
| KnowledgePackage.PackageIgnoresPresentation | packages/data-probe/src/database-knowledge.ts:388-424 | the package depends only on what the recheck makes of the sources offered |
| KnowledgePackage.PackageIgnoresOrder | packages/data-probe/src/database-knowledge.ts:388-424 | the package does not depend on the order of its sources, of the entities in a source or of the columns in an entity, nor on repeated sources, while both lists keep to the same side of the bound of 128 |
| PackageAcceptance.BuildIff | packages/data-probe/src/database-knowledge.ts:388-424 | a package is built exactly of 1 to 128 sources that are all taken, none another version of a source with the same identity, under a valid workspace, database and generation |
| PackageAcceptance.PackageSays | packages/data-probe/src/database-knowledge.ts:388-424 | the package holds those sources once each, lists a value for a fact under a source exactly when that source says it, and its contradictions are exactly the facts with several values, unresolved |
| KnowledgeResolution.RunIsOneChange | packages/data-probe/src/database-knowledge.ts:426-479 | a run of resolutions is accepted exactly when each is admissible and no two differ about one contradiction, and then equals one simultaneous change |
| KnowledgeResolution.ResolutionsCommute | packages/data-probe/src/database-knowledge.ts:426-479 | the same resolutions in any order, with any repetitions, are accepted together and give the same package and digest |
| KnowledgeResolution.RunKeepsFacts | packages/data-probe/src/database-knowledge.ts:426-479 | facts and sources never change and the generation grows by the number of contradictions newly settled |
| PackageAcceptance.RunResolves | packages/data-probe/src/database-knowledge.ts:426-479 | a run is accepted exactly when each request names a contradiction, an offered value and a review and agrees with an earlier resolution, and no two differ about one contradiction; then each named contradiction carries its request's digest, review and instant, and nothing else changed but the generation |
| KnowledgeResolution.BuildIsWellFormed | packages/data-probe/src/database-knowledge.ts:404-423 | a built package pairs each contradictory fact with exactly one contradiction |
| KnowledgeResolution.RunKeepsWellFormed | packages/data-probe/src/database-knowledge.ts:426-479 | every accepted run keeps that pairing, and every resolution selects an offered value |
| KnowledgeResolution.SelectedFactIff | packages/data-probe/src/database-knowledge.ts:768-774 | a fact has a selected value exactly when it is not an unresolved contradiction, and the value is one of its alternatives: the only one or the one resolved |
| KnowledgeResolution.ResolvedPackageAnswersEverything | packages/data-probe/src/database-knowledge.ts:768-774 | once none is unresolved every fact has a selected value |
| ProbeOperation.KeyObjects | packages/data-probe/src/index.ts:430-445 | the object loop keeps one object per typed name in insertion order, or refuses |
| ProbeOperation.NormalizeOperation | packages/data-probe/src/index.ts:405-470 | the normalizing loop equals its specification, errors in order |
| ProbeOperation.AcceptableIff | packages/data-probe/src/index.ts:405-446 | the ordered refusals accept exactly the operations all of whose parts are acceptable |
| ProbeOperation.NormalIsNormal | packages/data-probe/src/index.ts:191-200 | an accepted operation becomes normal: objects once in typed-name order, functions once in lower case, classifications sorted |
| ProbeOperation.NormalIsFixed | packages/data-probe/src/index.ts:405-470 | normalization is the identity on a normal operation |
| ProbeOperation.NormalKeeps | packages/data-probe/src/index.ts:429-470 | normalizing keeps the last object of each typed name, every function in lower case, every classification as often as given, and the rest |
| ProbeOperation.NoObjectIsLostIff | packages/data-probe/src/index.ts:429-456 | it loses no object exactly when different objects have different typed names |
| ProbeOperation.DottedNamesCollide | packages/data-probe/src/index.ts:429-439 | an identifier may hold a dot, so two acceptable objects can share the typed name, and only the second is planned |
| ProbeOperation.TwoKeysOneOrder | packages/data-probe/src/index.ts:450-454 | the parser's sort key and the planner's longer one give the same order when all characters come after the dot |
| ProbeOperation.TwoKeysCanDisagree | packages/data-probe/src/index.ts:450-454 | without that condition they disagree on two objects the planner accepts; no parser emits such a pair |
| PostgreSqlProbe.PlaceholdersMatch | packages/data-probe/src/postgresql-adapter.ts:210-220 | comparing the maximum and the number of distinct placeholders accepts exactly the set 1..n with n at most 64 |
| PostgreSqlProbe.CommonTableExpressions | packages/data-probe/src/postgresql-adapter.ts:156-162 | the loop gathers exactly the lower-cased expression names |
| PostgreSqlProbe.Execute | packages/data-probe/src/postgresql-adapter.ts:344-365 | the worker refuses a statement that does not parse, does not read as the plan's operation, or brings another number of parameters than its largest placeholder |
| PostgreSqlProbe.PostgreSqlObjects | packages/data-probe/src/postgresql-adapter.ts:185-197 | the object loop equals its specification, first failure included |
| PostgreSqlProbe.PostgreSqlFunctions | packages/data-probe/src/postgresql-adapter.ts:199-208 | the function loop gathers each approved function once or refuses |
| PostgreSqlProbe.ParseReadOperation | packages/data-probe/src/postgresql-adapter.ts:222-243 | the parser equals its specification over what its patterns find |
| SqlAcceptance.StatementIsAcceptedIff | packages/data-probe/src/postgresql-adapter.ts:156-243 | a statement is accepted exactly when no statement rule is broken, the request and classifications are valid, every one-part relation is an expression of the statement, every two-part one a table or, to introspect, an approved catalog, some relation is a table, every call is of an expression, of syntax or of an approved function, and the placeholders are 1..n for n classifications |
| SqlAcceptance.StatementIsReadAs | packages/data-probe/src/postgresql-adapter.ts:156-243 | and it is read as the operation that lists exactly the tables it names and the functions it calls, once each and sorted |
| SqlAcceptance.RunningStaysInPlan | packages/data-probe/src/postgresql-adapter.ts:344-365 | the worker runs a statement exactly when reading it gives the plan and it brings one parameter per classification; then every table it names and every function it calls is in the plan |
| PostgreSqlProbe.PlannerKeepsParsedOperations | packages/data-probe/src/index.ts:405-470 | the planner leaves a parsed operation exactly as it is |
| PostgreSqlProbe.PlannerAcceptsIff | packages/data-probe/src/index.ts:405-470 | it accepts one exactly when the kind is a read kind, there are at most 128 objects and every name is also a planner identifier, which a one-letter name or a trailing underscore is not |
| PostgreSqlProbe.OneTableIsPlannedIff | packages/data-probe/src/postgresql-adapter.ts:165-184 | every statement over one table parses, and the planner accepts it exactly when schema and table are also planner identifiers |
| PostgreSqlProbe.ReadableNamesCanBeRefused | packages/data-probe/src/postgresql-adapter.ts:165-184 | a one-letter schema and a table with a trailing underscore are parsed and then refused by the planner |
| PostgreSqlProbe.PlannedStatementNeverMismatches | packages/data-probe/src/postgresql-adapter.ts:344-365 | a planned statement is never refused as a mismatch and runs exactly when it brings one parameter per classification |
| MongoDbCommand.Preflight.Check | packages/data-probe/src/mongodb-adapter.ts:35-50 | the counting traversal equals its specification, first refusal included |
| MongoDbCommand.PreflightExact | packages/data-probe/src/mongodb-adapter.ts:35-50 | the preflight passes exactly the commands within depth, size and width that contain no denied key at any depth |
| MongoDbCommand.Validator.Filter | packages/data-probe/src/mongodb-adapter.ts:108-115 | the recursive filter validation refuses as specified, and otherwise adds exactly the parameters and operators a generic traversal finds |
| MongoDbCommand.Validator.Parameter | packages/data-probe/src/mongodb-adapter.ts:68-78 | a parameter token with a number from 0 to 63 adds exactly that number; anything else is refused as a literal |
| MongoDbCommand.Validator.ConditionOperator | packages/data-probe/src/mongodb-adapter.ts:87-95 | the existence test takes a flag, the approved comparisons a parameter, and every other operator is refused |
| MongoDbCommand.Validator.Stage | packages/data-probe/src/mongodb-adapter.ts:132-148 | one stage is refused as specified or adds exactly what a generic traversal of it finds |
| MongoDbCommand.Validator.FieldFilter | packages/data-probe/src/mongodb-adapter.ts:96-107 | the same for one field condition |
| MongoDbCommand.Validator.LogicalFilter | packages/data-probe/src/mongodb-adapter.ts:79-86 | the same for a logical operator and its operands |
| MongoDbCommand.Validator.Pipeline | packages/data-probe/src/mongodb-adapter.ts:132-148 | the same for a pipeline |
| MongoDbProbe.CommandBody | packages/data-probe/src/mongodb-adapter.ts:182-200 | validating the body of a command of any kind collects exactly the parameters and operators of the whole command |
| MongoDbProbe.BodyHolds | packages/data-probe/src/mongodb-adapter.ts:182-200 | all parameters and operators of an accepted command are in its filter or pipeline |
| MongoDbProbe.ParseReadOperation | packages/data-probe/src/mongodb-adapter.ts:202-235 | parsing accepts exactly when every check passes and the operands found by the generic traversal are 0..n-1, and reads the operation off the command |
| MongoDbAcceptance.CommandIsReadIff | packages/data-probe/src/mongodb-adapter.ts:35-235 | a command is read exactly when it is in the grammar of find, explained find, aggregation and collections listing, with field names, conditions, filters, flags, stages, database and collection stated on the JSON itself, at most 16 deep and 512 nodes, and its parameter tokens are 0..n-1 for n classifications |
| MongoDbAcceptance.CommandIsReadAs | packages/data-probe/src/mongodb-adapter.ts:202-235 | and it is read as one statement on the database and collection it names, a listing of the catalog or a selection, with exactly the operators that occur in it at any depth |
| MongoDbAcceptance.WritesAreDenied | packages/data-probe/src/mongodb-adapter.ts:150-156 | within the structural bounds a command of a writing kind is refused as a write, and one that maps and reduces as server execution, whatever else is wrong with it |
| MongoDbAcceptance.CleanIff | packages/data-probe/src/mongodb-adapter.ts:35-50 | a value is clean exactly when none of the five keys that write or run code on the server occurs in it at any depth |
| MongoDbBinding.ReferenceCollector.Collect | packages/data-probe/src/mongodb-adapter.ts:355-366 | the worker's traversal collects exactly the token operands |
| MongoDbBinding.AcceptedIsBindable | packages/data-probe/src/mongodb-adapter.ts:289-294 | every accepted command is bindable by as many parameters as it has classifications and holds no denied key |
| MongoDbBinding.BindsOnlyTokens | packages/data-probe/src/mongodb-adapter.ts:289-294 | a value without tokens is left exactly as it is |
| MongoDbBinding.BindTokensIsIdentity | packages/data-probe/src/mongodb-adapter.ts:289-294 | binding each token to itself changes nothing |
| MongoDbBinding.BoundReferences | packages/data-probe/src/mongodb-adapter.ts:289-294 | the tokens of a bound command are exactly those the inserted parameters bring: inserted values are not scanned again |
| MongoDbBinding.BindComposes | packages/data-probe/src/mongodb-adapter.ts:289-294 | binding twice is binding once with bound parameters |
| MongoDbBinding.BoundIsCleanIff | packages/data-probe/src/mongodb-adapter.ts:289-294 | once the command is clean the bound command is clean exactly when every inserted parameter is |
| MongoDbBinding.ScalarsBindClean | packages/data-probe/src/mongodb-adapter.ts:281-294 | scalar parameters always bind a clean command clean |
| MongoDbBinding.AlwaysCleanIff | packages/data-probe/src/mongodb-adapter.ts:275-294 | all parameter lists the worker accepts bind a clean command clean exactly when it refers to no parameter, because an accepted array may hold a denied key |
| MongoDbBinding.Execute | packages/data-probe/src/mongodb-adapter.ts:343-369 | the worker returns the bound command exactly when the command reads as the plan's operation and brings one parameter per classification |
| MongoDbPlanning.CommandNames | packages/data-probe/src/mongodb-adapter.ts:182-200 | an accepted command contributes approved operator and stage names only |
| MongoDbPlanning.ReadingIsNormal | packages/data-probe/src/index.ts:405-470 | what the MongoDB parser read is normal, so the planner leaves it exactly as it is |
| MongoDbPlanning.PlannerAcceptsReadingIff | packages/data-probe/src/index.ts:405-470 | the planner accepts it exactly when database and collection are also planner identifiers |
| MongoDbPlanning.ListingIsPlannedIff | packages/data-probe/src/mongodb-adapter.ts:194-232 | listing the collections of any database is read, and planned exactly when the database is also a planner identifier |
| MongoDbPlanning.OneLetterDatabaseIsRefused | packages/data-probe/src/mongodb-adapter.ts:194-232 | listing a one-letter database is read and then refused by the planner |
| MongoDbPlanning.PlannedCommandNeverMismatches | packages/data-probe/src/mongodb-adapter.ts:343-355 | a planned command read again under its plan reads as the plan's operation and is bindable, so it is never refused as a mismatch |
| MongoDbBinding.RereadingAgrees | packages/data-probe/src/mongodb-adapter.ts:343-355 | reading the same command again under the operation it was read as gives that operation |

## Left out

- Real filesystem behaviour: symbolic links, modes, retries on busy files, path resolution and directory creation;
  file contents of the activation side appear as the size and digest an integrity check observes.
- Staging directories during activation appear as those observations and do not change while one operation runs.
- `fetch`, timeouts, child processes, aborts, and the HTTP metadata reads.
- tuf-js: `ClientAccepts` is a definition after the TUF specification, not a model of that library, and the
  equal-version collision check is not modelled.
- JSON text: parsing and printing of metadata, bundles and records is the identity; driver envelope bodies are an
  oracle with the round trip as its law.
- Calendar validity of instants: the shape is modelled, `Date.parse` rejections of impossible dates are not; in TUF
  metadata instants are integers.
- The failure of the rename back in the lock reclaim, which the program ignores.
- Exact field-shape checks (unknown or missing keys, wrong JSON types), except in MongoDB commands.
- SQL text scanning: what the patterns find in a statement is the input of `PostgreSqlProbe`; the other SQL adapters
  repeat its shape.
- The planner's policy checks, bounds and registrations: single-branch facts.
- PostgreSqlProbe.ParseReadOperation: the seven statement rules appear as the first broken one, because they are
  patterns over the text.
- TufPublication.UnionKeys: the key's type and scheme fields are constants and are not modelled.
- TufRefresh.RefreshServesClients: versions are compared with the targets version only, as the program does; that a
  refresh also exceeds an earlier refresh is the caller's business and is not promised.
- Records, receipts and journals that do not parse: such a file is absent or well formed here, and in place of a
  record or receipt any other file reads as none.
- File systems that ignore case: paths are compared exactly.
- ReleaseStaging.ReleaseStage.StageComponent: a name blocked by a directory gives one error code here, several in the
  program.
- The envelope of a protected MongoDB request (UTF-8, JSON, its three keys); its check of the parameters is
  `ParametersDecode`.
- ResumableStaging.StagedComponent.Stage: the concurrent-writer check on the open file and the provenance checks before
  staging are not modelled.
- MongoDbProbe.ParseReadOperation: `exactKeys` compares joined key lists; the model compares the keys themselves, which
  agrees because every key whose text could hide in such a join is required to be present by another check.
- Seed planning, evidence promotion, candidate verification, the air-gapped source, CLI, doctor, site configuration and
  the provider drivers.
