# Replay plane: a verified model

The replay plane turns a recorded match into phase streams, metrics and scores, and lets
people correct the result. This project models its core as Dafny programs and proves what
its parts promise each other.

| files | subject |
|---|---|
| `Phases` | phase intervals, tilings and the label of a second, shared by all |
| `EngineSpec`, `PhaseEngine` | the online phase engine: specification, and the class with per-second maps that refines it |
| `EngineTiling`, `EngineEvidence`, `EngineCausality`, `EngineRules` | what every run of the engine emits, and by which rules |
| `EventRefs`, `EditorSpec`, `PhaseOverlay` | the phase editor: references, seven operations, and the array program that refines them |
| `Splicing`, `EditorProperties`, `EditorOutcomes` | what each edit means per second, when it is accepted and which stream it leaves |
| `ReviewModel`, `ReviewDocuments`, `ReviewRecords`, `ReviewProperties` | the review documents, what each mutation keeps, when it is accepted and what it records, and what holds after every replay |
| `ReviewStore`, `ReviewRuns` | the journalled two-file commit under failures and crashes, and whole runs of it |
| `Sequences` | subsequences, shared by the two logs |
| `RawLines`, `RawLog` | the session log: lines, appends with rollback, sealing and recovery |
| `LifeSpans`, `LifeCompleteness`, `LifePhases`, `LifeDeaths`, `LifeParts` | proven lives, their time per phase, and death counts |
| `MetricFacts`, `MetricReconciliation`, `MetricTotals` | the accumulators of the whole match and of each phase, how they balance and what they hold |
| `Percentiles`, `Aggregation`, `PoolMeaning`, `TwoLevel` | mid-rank percentiles and pooling by declared rules |
| `TeamGraph`, `TeamValues` | team pools, and what a team's value is |
| `LineageCheck`, `LineageExactness`, `LineageSoundness`, `LineageCompleteness`, `LineageCollisions` | the checks on the aggregation lineage, what acceptance means, what is always accepted, and colliding ids |

Programs that change state (the engine, the editor's working slice, the review store, the
raw log, the calculator, the corpus) are classes or array methods. Each is proved equal to
a specification function over values, and the theorems are about those functions and about
whole runs of them. A schedule of faults is a sequence consumed one element per I/O call,
so a statement for every sequence is a statement for every failure and crash.

Inputs the model takes as parameters: the fault schedule, the time of a mutation, the
machine's phases and category, the metric registry and the scoring contract.

Where the code and the obvious expectation part ways, the model follows the code:

- The engine advances its last second before it drops inputs later than the game end, so
  a guard can fire past the end. `EngineTiling.TilesExactlyWhen` and `EngineTiling.ExactWhen`
  give the exact conditions, `EngineTiling.OverrunWitness` and `EngineTiling.LateResetWitness`
  runs that fail them.
- The editor requires Laning to be one block, not the first one. The engine does emit it
  first.
- A life that ends exactly on the start of a phase interval counts for the whole match and
  possibly for no phase. `LifeDeaths.DeathsReconcile` says exactly when totals agree and
  `LifeDeaths.BoundaryDeathIsLost` shows such a life.
- A death without a victim account, as every creep and building leaves one
  (internal/replay/facts/facts.go:648-672), counts for nobody when accepted, but its refusal
  is noted for the killer and the assistants. So is the refusal of a hit without a value.
  `MetricReconciliation.CreditedOrRefused` is the exact balance, `CountedOrRefusedWhen` the
  exact condition, `PhantomKill` and `PhantomHit` are lists that fail it.
- A match without a positive denominator leaves a two-level rate together with its
  numerators (`TwoLevel.RatesAgreeWhen`, `TwoLevel.SilentMatchDrops`), and raw averages weigh
  matches, not rows (`TwoLevel.AveragesAgreeWhen`, `TwoLevel.MeansOfMeansDiffer`).
- Reference ids of different metrics can coincide (`LineageCollisions.IdsCollide`), and the
  tournament check alone is then deceived (`LineageCollisions.TournamentCheckAloneIsUnsound`).
  Its soundness rests on the entity check that precedes it. Both are deceived only where the
  registry lists a metric under the empty name (`LineageSoundness.AcceptedIsSound`).
- Match ids that the path check rejects share one file. The audit of an id agrees with its
  document exactly when no other id wrote to the document's histories
  (`ReviewProperties.AuditAgreement`). That can fail for a rejected id or for a match of the
  very name of that file (`ReviewProperties.FallbackDisagrees`), and for no other match
  (`ReviewProperties.OwnAuditAgrees`).

## Model

| member | source | states |
|---|---|---|
| PhaseEngine.Engine.constructor | internal/replay/phase/phase.go:138-159 | a new engine is in Laning at second 0 with nothing fed |
| PhaseEngine.Engine.Feed | internal/replay/phase/phase.go:163-225 | feeding one input takes the engine from its abstract state to the specified next one: drops negative and later inputs, settles the second left behind, logs the rest |
| PhaseEngine.Engine.Finalize | internal/replay/phase/phase.go:228-264 | settling a second: an ancient death ends the game, otherwise at most one transition, guards in the order of the current phase |
| PhaseEngine.Engine.CountInWindow | internal/replay/phase/phase.go:349-355 | the map-based window sum equals the count over the whole log |
| PhaseEngine.Engine.MajorFight | internal/replay/phase/phase.go:312-327 | true just when the log holds the deaths and distinct fighters a major fight needs in its window |
| PhaseEngine.Engine.ShouldEnterMidgame | internal/replay/phase/phase.go:266-274 | the guard read off the per-second maps is the guard over the log |
| PhaseEngine.Engine.ShouldEnterDecisive | internal/replay/phase/phase.go:293-310 | the guard read off the per-second maps is the guard over the log |
| PhaseEngine.Engine.ShouldReset | internal/replay/phase/phase.go:329-347 | the extra scan for buildings and deaths never matters: the reset is the debounce alone |
| PhaseEngine.Engine.MoveTo | internal/replay/phase/phase.go:357-371 | a transition closes the interval, opens the next, counts the round on entering Decisive |
| PhaseEngine.Engine.CloseCurrent | internal/replay/phase/phase.go:375-404 | closing emits the interval with its evidence and, for a reset, one episode of 90 seconds |
| PhaseEngine.Engine.End | internal/replay/phase/phase.go:423-468 | the last second is settled, a fallen ancient or the clock closes the stream, and the output is the summary of that state |
| PhaseEngine.BuildPhases | internal/replay/phase/phase.go:163-468 | an engine fed a list of inputs and ended emits the specified output of that list |
| EngineSpec.RunSplit | internal/replay/phase/phase.go:163-225 | feeding a list is feeding any prefix and then the rest |
| EngineTiling.FinalizeKeepsInvariant | internal/replay/phase/phase.go:228-264 | closed intervals plus the open one always form an exact tiling with counted rounds and matched resets |
| EngineTiling.FeedKeepsInvariant | internal/replay/phase/phase.go:163-225 | every feed keeps that tiling |
| EngineTiling.ExactTiling | internal/replay/phase/phase.go:163-468 | for every ordered run in which no transition fires past the game end: positive-width intervals tile the eligible time, labels are optional Laning then alternating Midgame and Decisive, the round index counts Decisive intervals, resets match Decisive-to-Midgame boundaries one to one |
| EngineTiling.WellTimedNeverOverruns | internal/replay/phase/phase.go:170-176 | inputs later than the game end are harmless once an ancient death came in time |
| EngineTiling.WellTimedIsOfficial | internal/replay/phase/phase.go:163-468 | so every ordered, well-timed run emits an exact stream that is officially valid |
| EngineTiling.TilesExactlyWhen | internal/replay/phase/phase.go:163-468 | every ordered run tiles its eligible time if and only if no guard holds at a fed second beyond the one after the game end |
| EngineTiling.ExactWhen | internal/replay/phase/phase.go:163-468 | every ordered run emits an exact stream with matching resets if and only if no guard holds at a fed second beyond the one after the game end and no reset guard holds at that one |
| EngineTiling.LateResetWitness | internal/replay/phase/phase.go:163-468 | a concrete run that tiles yet reports a reset with no Midgame interval after it |
| EngineTiling.OverrunWitness | internal/replay/phase/phase.go:170-176 | a concrete run of four inputs whose output does not tile: the last second advances before late inputs are dropped |
| EngineTiling.ExactOutputIsOfficial | internal/replay/phase/phase.go:440-468 | an exact output is a valid official stream and covers every eligible second |
| EngineRules.LabelOfSecond | internal/replay/phase/phase.go:228-353 | the label of every second of every ordered run, from the label before it and the inputs alone: Laning is left iff a tower falls in that second; Midgame iff two buybacks lie in the last 120 seconds, or a barracks falls, or six different accounts are named by deaths and damage of the last 21 seconds and two heroes died in the last 31; Decisive iff no death, buyback, tower or barracks fell in the last 30; seconds without an input, and the one in which the ancient falls, change nothing |
| EngineRules.StartsWhereLabelsChange | internal/replay/phase/phase.go:357-404 | in an exact output an interval starts just where the label changes |
| EngineRules.MatchLength | internal/replay/phase/phase.go:440-487 | the match ends with the first second in which the ancient falls, else with the clock, and only then is the output censored |
| EngineRules.CoveredSeconds | internal/replay/phase/phase.go:440-468 | the covered seconds are never fewer than the eligible ones, and as many if and only if no guard fires later than the second after the game end |
| EngineEvidence.EvidenceConserved | internal/replay/phase/phase.go:178-224 | in every ordered run the emitted intervals cite exactly the deaths, buybacks, buildings, damage and first ancient death at eligible seconds, in feed order, each once, each in the interval that begins before it and ends with it or later |
| EngineEvidence.AttributedCites | internal/replay/phase/phase.go:375-404 | intervals whose evidence is a partition of the fed inputs cite exactly their numbers |
| EngineEvidence.ResetsCiteTheirRound | internal/replay/phase/phase.go:375-404 | every reset a run reports lasts 90 seconds from the end of a Decisive interval and cites exactly its evidence |
| EngineCausality.Swap | internal/replay/phase/phase.go:163-225 | two inputs of one second may be fed in either order: the states differ only in evidence order |
| EngineCausality.OrderWithinSecond | internal/replay/phase/phase.go:163-371 | ordered runs over the same bag of inputs end in states that differ only in evidence order |
| EngineCausality.OrderNeverShows | internal/replay/phase/phase.go:163-468 | so their intervals, labels, round numbers, reset starts and eligible time are equal |
| EngineCausality.NoLookAhead | internal/replay/phase/phase.go:228-371 | dropping all inputs after second t leaves the label of second t unchanged |
| EngineCausality.LabelIsCausal | internal/replay/phase/phase.go:163-468 | the label of a second is decided by the bag of inputs up to it, whatever their order inside a second and whatever follows |
| EventRefs.RefRoundTrip | internal/replay/review/phase_ops.go:49-70 | parsing a canonical reference returns the bounds it was written for, for every 0 <= start < end in the integer range |
| EventRefs.DecimalReadsBack | internal/replay/review/phase_ops.go:49-70 | decimal rendering and parsing are inverse on natural numbers |
| EventRefs.BoundsRead | internal/replay/review/phase_ops.go:49-70 | bounds that enclose nothing do not read as a reference |
| EventRefs.ShortRefsRead | internal/replay/review/phase_ops.go:49-70 | the prefix may be left out, and a start alone reads as an open reference |
| EditorSpec.FindFrom | internal/replay/review/phase_ops.go:469-483 | finds the first interval whose bounds the parsed reference names, and nothing only when there is none |
| EditorProperties.CanonicalRefResolves | internal/replay/review/phase_ops.go:469-483 | in a tiling, the canonical reference of interval i resolves to exactly i |
| EditorProperties.SortSorts | internal/replay/review/phase_ops.go:491-530 | the sort orders by start and keeps every interval |
| EditorProperties.FaultMeansInvalid | internal/replay/review/phase_ops.go:491-530 | the whole-stream scan finds no fault if and only if the sorted stream is positive-width, gap-free, covers the eligible time, is officially labelled and never re-enters Laning |
| EditorProperties.OnlyReentryRemains | internal/replay/review/phase_ops.go:520-528 | on a tiling with official labels the only possible fault is Laning re-entry, found just when it occurs |
| EditorProperties.PatchFits | internal/replay/review/phase_ops.go:227-464 | every operation that passes its own guards replaces a run of intervals by a tiling of the same range |
| EditorProperties.GuardsSuffice | internal/replay/review/phase_ops.go:187-464 | on any tiling base each of the seven operations, once its guards pass, yields a tiling of the eligible time; validation can then reject for Laning re-entry only, and rejects just then |
| EditorProperties.NeverRejected | internal/replay/review/phase_ops.go:227-464 | accept, split, move, delete and merge without an explicit label are never rejected on a valid base after their guards |
| EditorProperties.AcceptedMeansValid | internal/replay/review/phase_ops.go:187-223 | whatever the base stream, an accepted edit leaves a valid stream |
| EditorProperties.SplitAndAcceptKeepLabels | internal/replay/review/phase_ops.go:227-283 | split and accept change the label of no second |
| EditorProperties.RelabelMeans | internal/replay/review/phase_ops.go:238-258 | relabel changes the label of exactly the seconds of the named interval |
| EditorProperties.AddMeans | internal/replay/review/phase_ops.go:382-423 | add gives exactly the seconds of the new range the new label |
| EditorProperties.MergeMeans | internal/replay/review/phase_ops.go:288-326 | merge gives the seconds of both intervals the requested label, or the left one, and no others |
| EditorProperties.DeleteMeans | internal/replay/review/phase_ops.go:428-464 | delete gives the seconds of the target the label of its absorber and changes no other |
| EditorProperties.MoveMeans | internal/replay/review/phase_ops.go:330-377 | move changes labels only between the old and the new boundary |
| EditorProperties.SplitThenMerge | internal/replay/review/phase_ops.go:261-326 | splitting and merging the halves restores the stream up to the interval reference |
| EditorProperties.SplitThenDelete | internal/replay/review/phase_ops.go:261-283 | splitting and deleting either half into the other restores the stream up to the interval reference |
| EditorProperties.SplitIsUndoable | internal/replay/review/phase_ops.go:187-223 | both also through the whole editor with its validation, on every valid stream |
| EditorOutcomes.AcceptOutcome | internal/replay/review/phase_ops.go:227-234 | on every valid stream accept succeeds if and only if the reference names an interval, and changes nothing |
| EditorOutcomes.SplitOutcome | internal/replay/review/phase_ops.go:261-283 | split succeeds if and only if the second lies strictly inside the named interval; exactly its two parts replace it, with their references and its label and round |
| EditorOutcomes.MoveOutcome | internal/replay/review/phase_ops.go:330-377 | move succeeds if and only if exactly one bound of the named interval changes, the label is absent or equal, a neighbour is there and the new bound lies strictly between the outer bounds of the two; exactly those two intervals are replaced |
| EditorOutcomes.DeleteOutcome | internal/replay/review/phase_ops.go:428-464 | delete succeeds if and only if target and absorber are both named and adjacent; one interval with the label and round of the absorber replaces them |
| EditorOutcomes.RelabelOutcome | internal/replay/review/phase_ops.go:238-258 | relabel succeeds if and only if the bounds are those of the named interval, the label is official and no second of Laning would follow another label that follows Laning; only that interval is replaced |
| EditorOutcomes.AddOutcome | internal/replay/review/phase_ops.go:382-423 | add succeeds if and only if the range has an official label, lies inside one interval and brings no such return; the range and what is left on either side replace that interval |
| EditorOutcomes.MergeOutcome | internal/replay/review/phase_ops.go:288-326 | merge succeeds if and only if both references name adjacent intervals, the label is official or absent and brings no such return; one interval with the round of the left one replaces them |
| EditorOutcomes.BaseIsSorted | internal/replay/review/phase_ops.go:187-200 | the order in which the base stream is given never matters |
| EditorOutcomes.MembersDecide | internal/replay/review/phase_ops.go:491-530 | two tilings of one range that hold the same intervals are equal, so each outcome above is one stream |
| PhaseOverlay.Overlay.Apply | internal/replay/review/phase_ops.go:187-223 | the array editor, working on a private copy, returns exactly the specified stream or the specified error |
| PhaseOverlay.SortInPlace | internal/replay/review/phase_ops.go:491-500 | the in-place sort leaves the specified sorted stream |
| PhaseOverlay.ValidateStream | internal/replay/review/phase_ops.go:491-530 | the validating loop over flags sorts in place and returns the specified fault |
| PhaseOverlay.FindIndex | internal/replay/review/phase_ops.go:469-483 | the loop returns the specified index |
| PhaseOverlay.ApplyAccept | internal/replay/review/phase_ops.go:227-234 | in-place form of accept, with its error |
| PhaseOverlay.ApplyRelabel | internal/replay/review/phase_ops.go:238-258 | writes the specified relabelled stream, or nothing on error |
| PhaseOverlay.ApplySplit | internal/replay/review/phase_ops.go:261-283 | returns the specified split stream or error, input untouched |
| PhaseOverlay.ApplyMerge | internal/replay/review/phase_ops.go:288-326 | returns the specified merged stream or error, input untouched |
| PhaseOverlay.ApplyMove | internal/replay/review/phase_ops.go:330-377 | writes the specified moved boundary, or nothing on error |
| PhaseOverlay.ApplyAdd | internal/replay/review/phase_ops.go:382-423 | returns the specified stream with the added range, or the error |
| PhaseOverlay.ApplyDelete | internal/replay/review/phase_ops.go:428-464 | writes and returns the specified stream without the target, or nothing on error |
| Splicing.SpliceTiles | internal/replay/review/phase_ops.go:227-464 | replacing a run of a tiling by a tiling of the same range gives a tiling |
| Splicing.SpliceLabel | internal/replay/review/phase_ops.go:227-464 | a splice changes labels inside the replaced range only |
| ReviewStore.Store.constructor | internal/replay/review/review.go:339-355 | an empty root holds no documents, no log and no journal |
| ReviewStore.Store.RestoreTransaction | internal/replay/review/review.go:1170-1186 | rolling back, cut at any I/O call, never changes the committed contents; on success both files hold them and the journal is gone |
| ReviewStore.Store.RecoverPending | internal/replay/review/review.go:1191-1211 | recovery, cut anywhere, never changes the committed contents; on success no journal is left; it succeeds when no call fails |
| ReviewStore.Store.RollBack | internal/replay/review/review.go:1218-1291 | after a failed promotion the contents are unchanged whatever the rollback does; when no call fails the journal is gone |
| ReviewStore.Store.PrepareAndPromote | internal/replay/review/review.go:1218-1291 | journal first, both files next, journal last: success is both new, failure both old, a crash one of the two; it succeeds when no call fails, and after one failing call the files themselves are as before |
| ReviewStore.Store.CommitReviewAndAudit | internal/replay/review/review.go:1218-1291 | a nil return means both files changed, an error return neither, a crash one or the other; nil when no call fails |
| ReviewStore.Store.Load | internal/replay/review/review.go:391-398 | reading recovers first and never shows a half-committed transaction; it answers when no call fails |
| ReviewStore.Store.Apply | internal/replay/review/review.go:414-893 | each of the six mutators: a result means the specified change was committed and is the stored document, a refusal or storage error means no change, a crash means one of the two; when no call fails it answers or refuses, and one failing call leaves no trace in the files |
| ReviewRuns.RunCall | internal/replay/review/review.go:391-893 | one call of a client history: the committed contents stay those of replaying a list of transactions, and a reply shows the committed document |
| ReviewRuns.RunCalls | internal/replay/review/review.go:1170-1291 | crash atomicity: over any history of calls and any schedule of failures and crashes, recovery included, the contents are those of replaying exactly the acknowledged transactions plus possibly lost ones, and no document shown to a client is taken back; after a successful recovery the two files hold them, every sign-off there is sound, and the audit lists every acknowledged mutation and beyond those only lost ones, in call order; when no call fails every call is answered in turn and the files hold the outcome |
| ReviewRuns.AccountsNext | internal/replay/review/review.go:1218-1291 | one more call keeps the account: acknowledged mutations are in the replayed list in order, refused and failed ones are not, a crashed one may be |
| ReviewRuns.AnswerNext | internal/replay/review/review.go:391-893 | without faults the k-th reply is what the calls before it leave to answer |
| ReviewRuns.AccountsBetween | internal/replay/review/review.go:1218-1291 | the committed list lies between the acknowledged mutations and those not refused, as subsequences |
| ReviewRuns.CommittedAreAnswered | internal/replay/review/review.go:1218-1291 | when no mutation is cut by a crash, the committed list is exactly the acknowledged mutations |
| ReviewRuns.AuditOfTheCalls | internal/replay/review/review.go:1218-1291 | the audit a run leaves is numbered 1..n and lists, in call order, every acknowledged mutation and beyond those only some cut by a crash |
| ReviewRuns.ReplayedDocuments | internal/replay/review/review.go:223-893 | of the contents a run leaves: every sign-off is sound, and audit and document of an id agree just when no other id wrote to the document's histories |
| ReviewRuns.NoAnsweredUpdateIsLost | internal/replay/review/review.go:486-893 | over any run, no two acknowledged edits, decisions or sign-offs of one file quoted the same revision |
| ReviewRuns.StillShown | internal/replay/review/review.go:391-893 | a committed transaction takes back nothing a client was shown |
| ReviewDocuments.MutateIsSound | internal/replay/review/review.go:223-893 | every accepted mutation keeps numbered snapshots, a revision that is the digest, usable tokens, and status and snapshot in step |
| ReviewDocuments.MutateSigns | internal/replay/review/review.go:223-893 | a sign-off is sound for the artifacts it quotes; any other mutation withdraws it or leaves it as it was |
| ReviewDocuments.FinalizeSigns | internal/replay/review/review.go:825-893 | finalizing adds one snapshot of the current stream and the latest decision and names it |
| ReviewDocuments.InvalidateWithdraws | internal/replay/review/review.go:223-228 | invalidating leaves a sound unsigned document, changes only status and current snapshot, and changes nothing exactly when the document was unsigned |
| ReviewRecords.CommitsExactly | internal/replay/review/review.go:400-893 | after every replay, for each of the six commands: accepted if and only if its guards hold on the document before it; the document after it is then that one with the written-out record, status and withdrawn sign-off, under a new digest; no other file changes; the audit gains the entry that says so; refused as stale if and only if it quotes another revision |
| ReviewRecords.MutateExactly | internal/replay/review/review.go:414-893 | the same of one command on any sound document: the correction with the server truth, the edit with both streams, the decision with the requested or confirmed category, the snapshot with stream, decision and checklist |
| ReviewRecords.StoredRefs | internal/replay/review/phase_ops.go:173-181 | stored streams carry the references of their own bounds |
| ReviewRecords.FileIs | internal/replay/review/review.go:360-379 | an empty id, or one with a separator, a dot or a control character, has the file of the fallback id; any other its own |
| ReviewRecords.UnwrittenReads | internal/replay/review/review.go:895-912 | a document never written reads as pending without histories, under the digest of that |
| ReviewProperties.AuditAgreement | internal/replay/review/review.go:409-893 | after every replay and for every match id: the audit entries of each of the four history-bearing actions name exactly that history of the document, in order, if and only if no history of its file was entered under another id |
| ReviewProperties.AuditIsNumbered | internal/replay/review/review.go:1218-1291 | the audit is numbered 1..n across all matches, whatever transactions were committed |
| ReviewProperties.OwnFile | internal/replay/review/review.go:360-379 | a valid match id other than the name of the fallback file shares its file with no id at all |
| ReviewProperties.OwnAuditAgrees | internal/replay/review/review.go:360-893 | so the audit of every such match agrees with its document after every replay |
| ReviewProperties.FallbackDisagrees | internal/replay/review/review.go:360-379 | one correction filed under an id the path check rejects breaks the agreement for the match named like the fallback file |
| ReviewProperties.AuditIsTheLog | internal/replay/review/review.go:1218-1291 | the audit has one entry per committed transaction, with its match and action, in commit order |
| ReviewProperties.SignOff | internal/replay/review/review.go:223-228 | after every replay, whatever artifacts the edits quoted: reviewed iff a snapshot is named; it is then the only one with that id, its decision the latest, its stream the current one and a tiling of the eligible time, both against the artifacts the last sign-off quoted |
| ReviewProperties.HistoriesGrow | internal/replay/review/review.go:414-893 | between any two moments of any replay each history of every document is only extended |
| ReviewProperties.CorrectionChain | internal/replay/review/review.go:486-614 | without direct overlay writes to the file the phase corrections lead from the machine stream of the first edit to the effective stream, each after-stream being the next before-stream, each valid for the artifacts its edit quoted and each the edit its record names |
| ReviewProperties.QuotesWhatItChanges | internal/replay/review/review.go:558-573 | a committed phase edit, category decision or sign-off quotes the digest of the very document it replaced |
| ReviewProperties.NoLostUpdate | internal/replay/review/review.go:486-893 | of all phase edits, decisions and sign-offs of one file quoting one revision at most one is ever committed |
| ReviewProperties.SignOffIsReachable | internal/replay/review/review.go:773-893 | from any sound document with an identity and a valid current stream, one decision and one sign-off quoting the revisions they read are both accepted and leave it reviewed |
| ReviewDocuments.NormalizeKeeps | internal/replay/review/review.go:895-970 | normalising a loaded document keeps what a sound one holds |
| RawLines.EncodeReadsBack | internal/session/store.go:114-156 | a record reads back from its line, and the line holds no newline |
| RawLines.ScanAccepts | internal/session/store.go:192-254 | recovery accepts a file if and only if every terminated line is valid in its place, and then counts them |
| RawLines.BelongsWhen | internal/session/store.go:230-254 | a line belongs at its place if and only if it decodes to an unnumbered record or to one of the session with that number |
| RawLines.ScanCounts | internal/session/store.go:192-228 | on a log with any unterminated tail recovery counts exactly the records |
| RawLines.CommittedIsText | internal/session/store.go:192-228 | cutting at the last newline leaves exactly the text of the records |
| RawLines.TextLines | internal/session/store.go:192-228 | the terminated lines of a log are its records, whatever tail follows |
| RawLog.Log.constructor | internal/session/store.go:79-108 | a new session is an empty file that no process has open |
| RawLog.Log.Append | internal/session/store.go:114-156 | a reply carries the next number and the record is in the file; malformed input and a sealed, closed or dead store are refused as such and change nothing; a failure is rolled back or seals the store, and one that leaves it open leaves the file as it was; an open store accepts when no call fails, and one failing call never seals it |
| RawLog.Log.Recoil | internal/session/store.go:130-156 | after a short write: rolled back, or sealed with at most this one record in flight |
| RawLog.Log.Rollback | internal/session/store.go:158-177 | the file is cut back to the offset, or unchanged |
| RawLog.Log.Close | internal/session/store.go:179-190 | nothing is accepted after closing, the file stays |
| RawLog.Log.CommittedPrefix | internal/session/store.go:192-228 | the backward search finds the length up to the last newline |
| RawLog.Log.CheckLines | internal/session/store.go:192-254 | the loop over lines gives the specified count or refusal |
| RawLog.Log.Reopen | internal/session/store.go:192-228 | reopening never fails because of the contents, keeps every record, drops the tail and resumes at the next number; it succeeds when no call fails |
| RawLog.RunCalls | internal/session/store.go:114-228 | over any history of appends, short writes, failed rollbacks, seals, crashes and reopenings: terminated lines carry 1..N, acknowledged records are all present in order, and each process that opened the log adds at most one record never acknowledged; when no call fails every call is answered in turn and the file holds exactly the acknowledged records |
| RawLog.RunCall | internal/session/store.go:114-228 | one call keeps every record, adds what it acknowledges, and leaves at most one record in flight for each process |
| RawLog.FileIsRecords | internal/session/store.go:192-254 | line k of the file decodes to record k |
| RawLog.InFlightIsSound | internal/session/store.go:114-156 | a record that reached the file unacknowledged leaves every acknowledged record in place and order, and is the only one beyond them |
| LifeSpans.ProvenLifeIntervals | internal/replay/metrics/metrics.go:639-701 | the loop over sorted liveness events computes the specified automaton |
| LifeSpans.StepKeeps | internal/replay/metrics/metrics.go:639-701 | each event keeps lives ordered and disjoint and every gap outside them |
| LifeSpans.LivesAreProven | internal/replay/metrics/metrics.go:639-701 | for every event list: lives are ordered, disjoint and of positive length, each runs from an alive to a dead event of the bound hero, and no gap lies strictly inside one |
| LifeCompleteness.LivesAreComplete | internal/replay/metrics/metrics.go:639-701 | a life is proven if and only if it runs from an event that shows the bound hero alive where no life stands to the first later one that shows it dead, with positive length and no undecided sample between |
| LifeCompleteness.GapsAreComplete | internal/replay/metrics/metrics.go:639-701 | the gaps are exactly the undecided samples of the bound hero while a life of it stands, each once, in order |
| LifeCompleteness.SortIsStable | internal/replay/metrics/metrics.go:640-646 | events are taken by second, then number, and equal ones in the order recorded |
| LifeCompleteness.EventsTell | internal/replay/metrics/metrics.go:667-680 | which events show a hero alive, dead or neither |
| LifePhases.ValidOfficialPhaseCoverage | internal/replay/metrics/metrics.go:994-1007 | true if and only if the eligible time is positive, the stream tiles it and every label is official |
| LifePhases.OfficialPhaseAt | internal/replay/metrics/metrics.go:704-718 | the first official interval holding the instant |
| LifePhases.LifeIntersections | internal/replay/metrics/metrics.go:1028-1062 | the nested loops compute the specified parts, gaps and duration |
| LifeParts.PartsAreExact | internal/replay/metrics/metrics.go:1028-1062 | the parts in a scope are exactly what the lives have in common with its official intervals, from the later start to the earlier end |
| LifeParts.PartsInOrder | internal/replay/metrics/metrics.go:1028-1062 | over a tiling the parts of disjoint lives come in order of time and do not overlap |
| LifeParts.TimeIsLength | internal/replay/metrics/metrics.go:1028-1062 | the time in a scope is the summed length of the parts there |
| LifeParts.GapsAreExact | internal/replay/metrics/metrics.go:1028-1062 | the gaps in a scope are exactly those an official interval of it holds, in their order |
| LifePhases.PhaseDurationMap | internal/replay/metrics/metrics.go:981-992 | per official phase the sum of its interval widths |
| LifeParts.PhaseLasts | internal/replay/metrics/metrics.go:981-992 | over a tiling a phase lasts as many seconds as carry its label |
| LifePhases.PhaseTimesSum | internal/replay/metrics/metrics.go:1028-1062 | the three phase durations sum to the whole-match duration, for any lives and stream |
| LifePhases.WholeTimeIsTotal | internal/replay/metrics/metrics.go:1028-1062 | over a tiling the whole-match duration is the total length of the lives |
| LifePhases.CoverageAtMostOne | internal/replay/metrics/metrics.go:1028-1062 | disjoint lives never exceed the duration of a phase |
| LifePhases.LifeTimeConserved | internal/replay/metrics/metrics.go:639-1062 | all of it for every event list inside the match |
| LifeDeaths.DeathNumerator | internal/replay/metrics/metrics.go:1081-1102 | counts the distinct lives that end by a death in the scope and cites the fact ending each of them, each fact once |
| LifeDeaths.DeathIdsAreLives | internal/replay/metrics/metrics.go:1028-1102 | counting over cut parts is counting the lives that touch the scope and end by a death in it |
| LifeParts.DeathCountsWhen | internal/replay/metrics/metrics.go:1081-1102 | over a tiling a death counts in a scope if and only if the life ends by a death, has time there and, for a phase, ends while an interval of it lasts |
| LifeDeaths.DeathsReconcile | internal/replay/metrics/metrics.go:1081-1102 | the phases never count more deaths than the whole match, and as many if and only if no death is lost |
| LifeDeaths.OnlyBoundaryDeathsAreLost | internal/replay/metrics/metrics.go:1081-1102 | over a tiling a death is lost if and only if it counts for the match and its life ends past the match, or on the first second of an interval of a phase it has no time in |
| LifeDeaths.BoundaryDeathIsLost | internal/replay/metrics/metrics.go:1081-1102 | a concrete life ending as Laning gives way to Midgame: one death for the match, none for any phase |
| LifeDeaths.InteriorDeathsReconcile | internal/replay/metrics/metrics.go:1081-1102 | when no life ends on an interval start the phases account for every death |
| MetricFacts.Calculator.constructor | internal/replay/metrics/metrics.go:304-329 | a new calculator has counted nothing |
| MetricFacts.Calculator.Feed | internal/replay/metrics/metrics.go:426-438 | feeding only buffers the fact |
| MetricFacts.Calculator.FeedAccepted | internal/replay/metrics/metrics.go:442-595 | the accumulators, evidence, liveness events and hero bindings after one accepted fact |
| MetricFacts.Calculator.AddLifeEvent | internal/replay/metrics/metrics.go:621-634 | a liveness event is kept for a real hero of an account with a team only |
| MetricFacts.Calculator.RecordRejected | internal/replay/metrics/metrics.go:756-786 | a refused fact is noted once per account and metric it names |
| MetricFacts.Calculator.PrepareFacts | internal/replay/metrics/metrics.go:804-832 | the whole-match calculator holds exactly the accepted facts, each phase calculator exactly those of its phase; all share the whole-match lives; without valid coverage everything is refused |
| MetricFacts.PostAddsItsWorth | internal/replay/metrics/metrics.go:455-580 | one fact adds to each account and metric exactly its worth and cites itself once per credit |
| MetricFacts.RefusedNoted | internal/replay/metrics/metrics.go:756-786 | refusing adds exactly one note per credit |
| MetricTotals.FactIsWorth | internal/replay/metrics/metrics.go:455-580 | what one fact counts and is worth under each of the eleven metrics, written out over its fields and the two teams |
| MetricTotals.PrepareAndTotal | internal/replay/metrics/metrics.go:804-846 | preparing any buffer under an official stream leaves, for every account and metric, the sum over the facts with a clock inside the scope, and cites exactly their numbers in order |
| MetricTotals.RefusedIsNoted | internal/replay/metrics/metrics.go:756-786 | which accounts and metrics a refused fact is noted for |
| MetricTotals.EventsAreTold | internal/replay/metrics/metrics.go:621-634 | the liveness events of an account are exactly what its facts tell of a real hero, in the order fed |
| MetricTotals.HeroIsIntroduced | internal/replay/metrics/metrics.go:443-449 | an account is bound to the hero its last participant fact introduces |
| MetricReconciliation.PhasesReconcile | internal/replay/metrics/metrics.go:804-832 | over every fact list: whole-match value equals the sum over phases, and every citation belongs to exactly one phase |
| MetricReconciliation.ReportsReconcile | internal/replay/metrics/metrics.go:804-832 | the same of the accumulators of the four calculators, for every metric and account |
| MetricReconciliation.PrepareAndReconcile | internal/replay/metrics/metrics.go:804-832 | preparing any buffer leaves four calculators that reconcile |
| MetricReconciliation.CreditedOrRefused | internal/replay/metrics/metrics.go:455-786 | over every fact list, metric and account: credits plus notes for refused facts that acceptance would drop equal the credits given plus the notes kept plus the credits no note is kept for |
| MetricReconciliation.CreditsAreCited | internal/replay/metrics/metrics.go:834-846 | every credit under a published metric is one citation |
| MetricReconciliation.CountedOrRefused | internal/replay/metrics/metrics.go:455-786 | the same balance over the citations of every published metric, damage included, and over the values of the counts |
| MetricReconciliation.CountedOrRefusedWhen | internal/replay/metrics/metrics.go:756-786 | for every named account and each metric with notes, credits are exactly cited or noted if and only if no refused death without a victim names the account as killer or assistant and no refused hit without a value as attacker |
| MetricReconciliation.PhantomKill | internal/replay/metrics/metrics.go:756-786 | a concrete list where they differ: one creep killed off the clock leaves its killer a refused kill that counts nowhere |
| MetricReconciliation.PhantomHit | internal/replay/metrics/metrics.go:756-786 | another: one hit without a value off the clock leaves its attacker a refused hit and no damage |
| MetricReconciliation.CountsAreCited | internal/replay/metrics/metrics.go:834-846 | a published count equals the number of its citations |
| MetricReconciliation.DamageIsReconstructible | internal/replay/metrics/metrics.go:834-846 | a damage total is rebuilt exactly from its citations when facts are numbered |
| MetricReconciliation.EventsIdentified | internal/replay/metrics/metrics.go:621-634 | numbered facts give identified liveness events |
| MetricReconciliation.FactDeathsReconcile | internal/replay/metrics/metrics.go:804-1102 | over every numbered fact list phase death counts are at most the whole-match count, equal iff none is lost |
| Percentiles.MidRankPercentile | internal/replay/scoring/scoring.go:374-391 | the loop over a sorted copy gives the mid-rank percentile, nothing for an empty cohort |
| Percentiles.PercentileIsShare | internal/replay/scoring/scoring.go:374-391 | the percentile is the share of members below, ties counting half |
| Percentiles.WithinScale | internal/replay/scoring/scoring.go:374-391 | always within 0 and 100, strictly for members |
| Percentiles.StrictlyIncreasing | internal/replay/scoring/scoring.go:374-391 | never decreasing, and strictly higher if and only if a cohort member separates the two values |
| Percentiles.OrderNeverMatters | internal/replay/scoring/scoring.go:374-391 | depends on the cohort as a multiset only |
| Percentiles.AveragesFifty | internal/replay/scoring/scoring.go:374-391 | averages exactly 50 over the cohort |
| Percentiles.LeadsOppose | internal/replay/scoring/scoring.go:374-391 | over two cohorts what one side leads the other trails |
| Percentiles.NegatingInverts | internal/replay/scoring/scoring.go:374-405 | ranking negated values is inverting the percentile |
| Aggregation.AggregateValues | internal/replay/scoring/scoring.go:709-793 | the loop yields the specified aggregate or none, under each rule |
| Aggregation.LineageKeepsSources | internal/replay/scoring/scoring.go:743-752 | merged lineage holds each key of its inputs exactly once and nothing else |
| PoolMeaning.RuleIsDeclared | internal/replay/scoring/scoring.go:709-793 | the first of four phrases that the registry text holds decides the rule |
| PoolMeaning.PublishesWhen | internal/replay/scoring/scoring.go:709-764 | a metric is published if and only if its observations agree in metric and version and, for a rate, have a positive denominator |
| PoolMeaning.PoolIs | internal/replay/scoring/scoring.go:709-793 | value, numerator and denominator under each rule as sums, quotients or the largest member, and what is taken from the first observation |
| PoolMeaning.LineageIsFirsts | internal/replay/scoring/scoring.go:743-752 | merged lineage lists, in order, every reference that no earlier one equals in match, kind and id |
| TwoLevel.PoolsCarry | internal/replay/scoring/scoring.go:846-914 | match pools carry exactly the totals their rule needs |
| TwoLevel.TwoLevelsAreFlat | internal/replay/scoring/scoring.go:709-914 | under every rule two levels equal one over the rows of the matches that publish, opportunities included; raw averages given a positive total denominator |
| TwoLevel.TwoLevelsAgree | internal/replay/scoring/scoring.go:709-914 | sum, seconds and maximum equal flat pooling always; rates when every match has a positive denominator; raw averages when the total denominator is positive |
| TwoLevel.RatesAgreeWhen | internal/replay/scoring/scoring.go:709-914 | with non-negative denominators, a two-level rate equals the flat one iff the matches dropped for lack of a denominator have no numerator in sum |
| TwoLevel.SilentMatchDrops | internal/replay/scoring/scoring.go:757-764 | a concrete pair of matches whose two-level rate is a half and whose flat rate is two |
| TwoLevel.AveragesAgreeWhen | internal/replay/scoring/scoring.go:765-774 | raw averages agree with the flat one if and only if the total denominator is positive or the reports of the matches balance their rows |
| TwoLevel.SilentAveragesAgreeWhen | internal/replay/scoring/scoring.go:765-774 | with non-negative denominators summing to zero, M matches and N rows, they agree if and only if the sum over matches of (N - M * size) * mean is zero |
| TwoLevel.EqualMatchesAgree | internal/replay/scoring/scoring.go:765-774 | matches of one size always agree |
| TwoLevel.MeansOfMeansDiffer | internal/replay/scoring/scoring.go:765-774 | a concrete case where averages without denominators differ |
| TeamGraph.SortedKeys | internal/replay/scoring/scoring.go:862-866 | the keys of a map in increasing order, each once |
| TeamGraph.GroupRows | internal/replay/scoring/scoring.go:848-860 | rows grouped by named team and match |
| TeamGraph.Corpus.PoolMatch | internal/replay/scoring/scoring.go:882-908 | a team match holds exactly the metrics that publish, each with its own reference, and the number of its rows |
| PoolMeaning.RowsAreTheTeams | internal/replay/scoring/scoring.go:848-860 | the rows of a team match are exactly the players of that team in that match |
| PoolMeaning.RowsAreSorted | internal/replay/scoring/scoring.go:875 | pooled by account |
| PoolMeaning.ObservedIsPublished | internal/replay/scoring/scoring.go:878-887 | observed of a metric is exactly what each row publishes of it |
| PoolMeaning.ChildrenArePublished | internal/replay/scoring/scoring.go:888-908 | a tournament pools exactly what each match publishes, every figure present |
| LineageExactness.TeamMatchPublishes | internal/replay/scoring/scoring.go:888-900 | a team match publishes exactly its pools, each over its own reference |
| LineageExactness.TournamentPublishes | internal/replay/scoring/scoring.go:903-912 | a tournament publishes exactly its pools, each over its own reference |
| TeamGraph.Corpus.BuildTeam | internal/replay/scoring/scoring.go:867-914 | every match of the team is pooled once, the tournament pools the matches in order, and an unpublished metric keeps the first row that lacked it |
| TeamGraph.AbsentWhen | internal/replay/scoring/scoring.go:886-912 | a team reports a metric as unavailable if and only if it does not publish it and some row of its matches lacks it |
| TeamGraph.Corpus.BuildTeams | internal/replay/scoring/scoring.go:846-915 | one tournament for each named team, over exactly its matches |
| LineageCheck.ValidateTeamMatchEntities | internal/replay/scoring/store.go:403-455 | accepts if and only if every entity is present, under its own keys, stamped, of a persisted match, and every metric registered with exactly one aggregation reference, its own |
| LineageCheck.ValidateTeamTournamentAggregates | internal/replay/scoring/store.go:457-561 | accepts if and only if teams are distinct and resolve, coverage is exact, and every metric is registered, correctly counted, linked and reconciled |
| LineageCheck.ValidateCoverage | internal/replay/scoring/store.go:468-490 | accepts iff match ids are distinct, counted, and exactly the present matches |
| LineageCheck.ValidateTournamentMetric | internal/replay/scoring/store.go:491-552 | accepts iff the metric is registered, its child count, lineage and totals right |
| LineageCheck.ValidateTournamentLineage | internal/replay/scoring/store.go:513-548 | accepts iff the own reference occurs once, every expected child once, and nothing else |
| LineageCheck.TournamentIsNoMatch | internal/replay/scoring/scoring.go:930-943 | a tournament reference is never a team-match reference |
| LineageExactness.EntityMetricExactly | internal/replay/scoring/store.go:425-450 | an entity metric is accepted if and only if it is registered under its key and exactly one of its references is an aggregation, its own |
| LineageExactness.TournamentMetricExactly | internal/replay/scoring/store.go:491-552 | where no two matches share a reference id, a tournament metric is accepted if and only if it is registered under its key and names exactly its matches |
| LineageExactness.ReconcilesWhen | internal/replay/scoring/store.go:548-552 | totals reconcile when they agree to a billionth and opportunities exactly |
| LineageSoundness.IdsTellMatchesApart | internal/replay/scoring/store.go:399-401 | for one team, metric and version the reference id determines the match |
| LineageCollisions.IdsCollide | internal/replay/scoring/store.go:399-401 | across metrics two matches can share an id when a colon may sit on either side |
| LineageCollisions.PlainIdsDecide | internal/replay/scoring/store.go:399-401 | match ids without a colon are told apart whatever the metrics and versions; metric ids without a colon too |
| LineageSoundness.AcceptedNamesWhen | internal/replay/scoring/store.go:491-552 | a metric that passes the tournament check alone names exactly its matches if and only if no two of them share a reference id |
| LineageCollisions.PlainMatchesAreNamed | internal/replay/scoring/store.go:491-552 | so it does whenever match ids hold no colon |
| LineageCollisions.TournamentCheckAloneIsUnsound | internal/replay/scoring/store.go:403-561 | a concrete graph that the tournament check accepts although one counted match is never named; the entity check accepts it too if and only if the metric is filed under the empty name |
| LineageSoundness.AcceptedIsSound | internal/replay/scoring/store.go:599-690 | in every accepted graph each tournament metric names itself once, each team-match entity of the team holding it once and with its match, nothing else, the entity carries that id and totals are those of the named entities, if and only if no two matches share its reference id; none do unless metric and registry use the empty name |
| LineageCompleteness.BuiltEntitiesPass | internal/replay/scoring/store.go:403-455 | every graph built from rows with registered versions, no aggregation among their sources and sources of their own match passes the entity check |
| LineageCompleteness.BuiltTournamentsPass | internal/replay/scoring/store.go:457-561 | every graph built from rows with registered versions and no aggregation among their sources passes the tournament check |
| LineageCompleteness.ComputeScores | internal/replay/scoring/store.go:761-843 | building, scoring and checking a corpus of such rows always succeeds |
| LineageCompleteness.CleanEntityPassesWhenLocal | internal/replay/scoring/store.go:425-450 | a pooled metric passes the entity check if and only if its sources are of its match |
| LineageCompleteness.MergedCounts | internal/replay/scoring/scoring.go:846-943 | each child occurs once among the merged sources of a tournament metric |
| TeamValues.TeamValueIsTwoLevel | internal/replay/scoring/scoring.go:846-914 | the published tournament value of a team is that of two-level pooling of its rows |
| TeamValues.TeamValueIsFlat | internal/replay/scoring/scoring.go:846-914 | the published tournament value of a team is that of all its rows pooled at once, under the conditions of `TwoLevel.TwoLevelsAgree` |

## Left out

- Positions, anchors, confidence, missing-input lists and the structure test of lanes in
  the engine: none of them influences a transition in this version (internal/replay/phase/phase.go:279-291, 406-419, 489-505).
- JSON: documents are values, encoding is the identity. The session log uses a concrete
  newline-free line format instead of JSON objects, and whether input is well-formed JSON is
  given as a flag.
- fsync, rename and path checks: each is one disk step that happens or does not. A journal
  removal that took effect although syncing its directory failed (internal/replay/store/store.go:231-241) is outside the claim:
  a failing removal has no effect.
- SHA-256: the revision of a document is an injective digest of the fields it covers.
- Timestamps: opaque. They order nothing.
- Migration of older documents, and documents with older schemas: histories start from an
  empty root in the current schema.
- Reading the audit on its own, the summary fields of a correction (author, reason, delta,
  evidence) beyond what the invariants use, and error texts: errors are named cases.
- Order among equal keys: sorts that the code leaves unstable are modelled as stable.
- Integer width: counters and sequence numbers are unbounded, except that event references
  parse within the signed 64-bit range.
- Floating point: seconds, damage, percentiles and pooled values are reals; NaN and infinity
  do not occur.
- The zero-separated string keys of lineage and of per-account metrics are tuples.
- MetricFacts.Calculator.FeedAccepted: covers participants, deaths, respawns, buybacks, damage,
  healing, gold, experience and hero states. Last hits and net worth (running maxima), items,
  modifiers, grid seconds, samples and opportunity counts are left out, as are the second
  lists that only derived metrics read.
- LineageSoundness.AcceptedIsSound: takes the team part of the corpus check only; the checks
  on players and players' tournaments are not part of this model.
- Roles, axes, totals and player tournaments in scoring: weighted sums over the values
  modelled here.
- Which error a lineage check reports first: it depends on map order in the code, so the
  checks return a verdict.
- Which target names are objectives is given with each hit (internal/replay/metrics/metrics.go:1734-1770).
- Registry lookups match lower-cased rule text; lower-casing itself is not modelled.
- HTTP handlers, the command line, drains, event rings and archive verification.
