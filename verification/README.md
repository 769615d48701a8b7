# ds-harness-go in Dafny

A model of the parts of ds-harness-go whose correctness no single branch settles, with proofs about
all inputs, all runs and all interleavings. `dafny verify dfyconfig.toml` checks everything.

| files | models |
|---|---|
| `SessionEvents`, `LlmContent`, `Outcomes`, `Decimals` | event, content and result values; decimal identifiers |
| `Surface`, `SurfaceRules`, `SurfaceTrim`, `TrimmedFold`, `SurfaceFolder` | the model-visible surface of a session log: planning, splicing, batch and incremental folds, trimming the head of the log; `SurfaceRules` says what it accepts without the planner |
| `TurnTrace`, `TraceRules`, `Repair`, `RepairTheorems`, `RepairCalls`, `RepairReport` | the trace validator, with its rules read off the log, and the repairer that closes a crashed turn |
| `ChunkRows`, `ChunkRules` | runs of delta events packed into storage rows, over wrapping 64-bit integers; which records that gives |
| `Utf8`, `Utf8Scalars`, `TextDecoder` | valid UTF-8, checked against the encodings of scalar values; streaming UTF-8 decoding and CRLF folding over arbitrary chunks |
| `JobTypes`, `DomainJobs`, `DomainJobsSafety`, `DomainJobsTheorems`, `DomainJobsAccess`, `DomainJobsRace`, `DomainJobsProgress`, `DomainRegistry` | the job registry that several replicas run over one table |
| `LocalJobs`, `LocalJobsSafety`, `LocalJobsTheorems`, `LocalJobsProgress`, `LocalRegistry` | the in-process job registry and its locked sections |
| `StreamGrammar`, `GrammarRules`, `Assembler`, `AssemblyRules` | the chunk stream grammar, with its rules by positions in the stream, and the block assembler |
| `ImageOffload`, `ImageReplacement`, `ImageBudget`, `ImageOffloadLoops`, `ImageFit` | image budgets of a request; the size of a single image |
| `ScopeTree`, `ScopeTeardown`, `ScopeTeardownSafety`, `ScopeCleanup` | scope parents on the heap; exactly-once teardown |
| `SchemaCodec`, `SchemaAcceptance`, `SchemaLoops`, `SettingsPaths` | the tool schema printer and parser; path edits and layers of settings |

Code that computes is a function with lemmas about it. Code that changes state step by step is a
class or a method with loops, proved equal to such a function. The two job registries and the
teardown of a scope are step systems: a call is a task that runs one table operation or one locked
section at a time, and a run is any sequence of actions, so the theorems about runs cover every
interleaving, crash and restart. Storage, clocks, producers and cancel hooks are inputs of the steps;
a storage operation may fail at any step, without effect.

## What the proofs turned up

- Trimming the head of a log can make the fold of the rest fail, not only degrade: when a later
  replacement's end was trimmed away it becomes an append, the surface order changes, and another
  replacement then finds its range reversed (`SurfaceTrim.TrimCanBreakTheFold`, four events).
  `TrimmedFold.TrimmedLogFoldsExactly` says exactly when the rest folds: when each later replacement
  fits the surface the rest has built. `SurfaceTrim.TrimCommutesExactly` is about more than that: it
  says exactly when the rest folds to the surviving nodes at every later point.
  `TrimmedFold.RefusalHasACause` ties the two together, and `SurfaceTrim.TrimCommutes` gives the
  guard a caller can check.
- On a log the validator accepts, repair fails exactly when the log holds a tool result whose message
  has no tool as its source (`RepairTheorems.ScanFailsExactly`), and never when every replacement's
  end lies inside the log (`RepairTheorems.RepairSucceeds`). Such logs exist: an open turn and a
  replacement whose end was trimmed away pass validator and surface, and repair returns an error
  (`RepairTheorems.RepairCanFail`).
- In the multi-replica registry a kill can end up at a stranger's job: it looks at its own job's record,
  that job's Start fails and withdraws the record, another session's Start takes the number, and the
  kill finds that job's handle (`DomainJobsRace.KillCanReachAStranger`, sixteen steps). It takes a record
  whose Start has not returned: for a returned id the fence holds for good
  (`DomainJobsAccess.NoStrangerInside`).
- Packing is lossless exactly when no event's type is one of the three row tags; otherwise reading
  the records back fails (`ChunkRows.PackingIsLossless`).
- The dash that `admit` forbids in a job kind (adapter/domainjobs/registry.go:256-262) is not needed
  for numbering: an id gives its number back for its own kind and for no other, whatever characters
  kinds contain (`Decimals.OrdinalOfJobId`), which is also why local ids never collide.
- The schema decoder's comment (tools/jsonschema.go:204-205) says that what cannot be decoded becomes
  an error. The code takes null for a type, a description, a title, a required list, an enum, a
  list of examples or a boolean, and anything at all for oneOf and enum; a null
  `additionalProperties` even forbids undeclared properties (`SchemaAcceptance.NullIsTakenLeniently`).
  The model follows the code; `SchemaAcceptance.ParseAcceptsExactly` says exactly what is accepted.
- Removing images for the count limit can break the byte limit, and applying the policy twice can
  remove more, when a route reports a negative length (`ImageBudget.NegativeLengthBreaksTheLimit`, two
  images). `ImageBudget.OffloadMeetsTheBudget` and `ImageBudget.OffloadIsIdempotent` hold for all
  lengths under an exact condition, `CountBreaksBytes`: the bytes fit before, and the images that go
  for the count are together worth less than the slack. It never holds for lengths that are not
  negative, so base64 budgets hold without a condition (`ImageBudget.Base64OffloadFits`).
- A newer image of negative length can bring an older one back (`ImageBudget.NegativeLengthBringsBack`);
  `ImageBudget.RemovalIsStable` gives the exact condition.
- Doubles do no harm to image sizes: for images below 2^52 pixels rounding the double quotient is
  rounding the exact one (`ImageFit.FloatSideIsExact`), and no rounding leaves an image over budget
  unscaled (`ImageFit.ScaleIsTheRoot`).
- An unset of the empty path leaves an empty section, not an absent one (`SettingsPaths.EditReadsBack`).
- A refused Start leaves no trace in the ledger unless the store also refuses the deletion; the record
  left behind then fails at the next takeover (`DomainRegistry.Registry.Start`, `DomainJobsTheorems.LostJobsFail`).

## Model

| member | source | states |
|---|---|---|
| Surface.IndexOf | sessionlog/surface.go:246-270 | finds the first position of a node, or none when it is absent |
| Surface.PlanShape | sessionlog/surface.go:369-425 | an accepted event has the expected seq, is planned onto the surface exactly when it is a surface event, and replaces only if it says so |
| Surface.FoldedLog | sessionlog/surface.go:464-477 | after any accepted prefix the seqs are consecutive and every node is a surface event already folded |
| Surface.PlanReadsOnlyPast | sessionlog/surface.go:279-312 | planning with the whole log at hand decides as planning with the prefix does |
| Surface.BatchEqualsIncremental | sessionlog/surface.go:464-524 | folding the first n events with the whole log in reach equals folding the log that ends there, first failure included |
| Surface.SpliceConserves | sessionlog/surface.go:432-451 | a splice moves exactly the replaced nodes out of the surface and puts one new node in |
| Surface.Conservation | sessionlog/surface.go:432-477 | nodes and hidden nodes together are exactly the seqs of the surface events so far, as multisets |
| Surface.EachSurfaceEventOnce | sessionlog/surface.go:432-477 | each surface event's seq occurs exactly once among nodes and shadowed seqs together, and nothing else occurs there |
| SurfaceRules.NextEventMovesExactly | sessionlog/surface.go:168-477 | after a log that folds, the next event is accepted exactly when the rules allow it, read off positions, citations and the events in the log; the new surface is the one they give, and the error is malformed exactly where a payload to compare does not decode |
| SurfaceRules.RewriteAllowedExactly | sessionlog/surface.go:279-343 | a tool result may take the place of one node exactly when that node is a tool result and the new payload is the old one with other content in its single result block |
| SurfaceRules.EveryContentIsAllowed | sessionlog/surface.go:315-343 | whatever content is put into a well-formed tool result, the rewrite is allowed |
| SurfaceRules.OnlyContentIsAllowed | sessionlog/surface.go:315-343 | an allowed rewrite agrees on turn, step, error, meta, id, role, source, call and error flag |
| SurfaceFolding.SurfaceState.Append | sessionlog/surface.go:432-451 | the node slice grows by one, in place or in a larger buffer |
| SurfaceFolding.SurfaceState.Splice | sessionlog/surface.go:432-451 | the in-place splice leaves prefix, new node, suffix |
| SurfaceFolding.SurfaceState.Apply | sessionlog/surface.go:432-451 | applying a plan to the mutable state is the plan's transition, and counts replacements |
| SurfaceFolding.FoldOneMore | sessionlog/surface.go:369-477 | one more event folds to the plan made from the earlier events alone, or to its error |
| SurfaceFolding.FoldSurface | sessionlog/surface.go:464-477 | the batch loop computes the fold, or its first error |
| SurfaceFolding.FailurePersists | sessionlog/surface.go:464-477 | once a prefix fails every longer prefix fails with the same error |
| SurfaceFolding.SurfaceFolder.ValidateNext | sessionlog/surface.go:507-510 | succeeds exactly when the log with that event still folds, with the fold's error otherwise, and changes nothing |
| SurfaceFolding.SurfaceFolder.Push | sessionlog/surface.go:516-524 | moves to the fold of the longer log, or fails with its error and changes nothing |
| SurfaceFolding.PushAll | sessionlog/surface.go:516-524 | pushing a whole log ends in the batch fold's state or its first failure |
| SurfaceTrim.RangeAfterTrim | sessionlog/surface.go:246-270 | where a replacement's range lands on the surviving nodes, in every case of lost ends |
| SurfaceTrim.ReplacementAgreesExactly | sessionlog/surface.go:246-270 | one replacement gives the same survivors on the trimmed log exactly when its lost end had nothing surviving in or after its range, and its lost start nothing before it |
| SurfaceTrim.StepAgreesExactly | sessionlog/surface.go:369-451 | one event keeps trimmed and full fold in agreement exactly when it is trim-safe |
| SurfaceTrim.TrimCommutesExactly | sessionlog/surface.go:369-477 | the rest folds to the surviving nodes at every later prefix exactly when every later event is trim-safe |
| SurfaceTrim.TrimmedNodesFormPrefix | sessionlog/surface.go:464-477 | while no later replacement names a trimmed end, nodes below the cut stay in front of all others |
| SurfaceTrim.TrimCommutes | sessionlog/surface.go:246-477 | if no later replacement's end was trimmed, the trimmed log folds, to exactly the surviving nodes in the same order |
| SurfaceTrim.TrimCanBreakTheFold | sessionlog/surface.go:246-477 | a log that folds while the same log without its first event does not |
| TrimmedFold.PlanFitsTrimmed | sessionlog/surface.go:246-425 | of the events the whole log accepts a trimmed surface refuses only replacements, and exactly those whose untrimmed ends are missing, whose range is reversed, hides an uncited node or, for a tool result, more than one |
| TrimmedFold.TrimmedLogFoldsExactly | sessionlog/surface.go:246-477 | the rest of a log that folds, folds up to any later point exactly when each event in between fits the surface it meets |
| TrimmedFold.RefusalHasACause | sessionlog/surface.go:246-477 | the first event the rest refuses is a replacement with an end that was not trimmed, and it or an earlier event after the cut was not trim-safe |
| TurnTrace.ReplayWellNested | sessionlog/invariant.go:125-328 | after every accepted log a step is open only inside a turn and calls pend only inside a step |
| TraceRules.AcceptsExactly | sessionlog/invariant.go:125-328 | a log is accepted exactly when every event may follow those before it, by what stands open, what has ended and which calls wait in the log; the account then says the same of turns, steps, their numbers and calls |
| TraceRules.NextEventExactly | sessionlog/invariant.go:125-310 | the next event is accepted exactly when it may follow, and is called malformed exactly when it is in order but does not read as its type |
| TurnTrace.Trace.Apply | sessionlog/invariant.go:297-310 | the mutable trace moves by exactly the validated transition |
| TurnTrace.ValidateLog | sessionlog/invariant.go:318-328 | the loop computes the replay of the log, or its first violation |
| Repair.ScanTracked | sessionlog/repair.go:64-127 | the order list and the pending map always hold the same calls, each once, and only in an open step |
| Repair.RemoveCallId | sessionlog/repair.go:207-215 | removes the call and keeps the order of the rest |
| Repair.InterruptedTurnClosers | sessionlog/repair.go:55-201 | the loops compute the scan and the closers of the tail it leaves, or the scan's error |
| Repair.BuildClosers | sessionlog/repair.go:136-200 | one result per pending call, then the step and turn boundary, with consecutive seqs |
| RepairTheorems.ScanAgrees | sessionlog/repair.go:64-127 | the repairer's scan and the validator agree on the open turn, step and pending calls on every log both accept |
| RepairTheorems.ClosersAccepted | sessionlog/repair.go:131-200 | the validator and the surface accept the closed log, which ends with nothing open or pending and one new node per unanswered call |
| RepairTheorems.RepairClosesEveryCrash | sessionlog/repair.go:55-201 | whenever repair succeeds on an accepted log the closed log is accepted by validator and surface, is balanced, keeps the surface as a prefix, and a second repair returns nothing |
| RepairTheorems.ScanFailsExactly | sessionlog/repair.go:112-121 | on a validated log the scan fails exactly when the log holds a tool result without a tool as source |
| RepairTheorems.RepairCanFail | sessionlog/repair.go:112-121 | a log of two events that validator and surface accept and repair fails on |
| RepairTheorems.RepairSucceeds | sessionlog/repair.go:55-201 | repair of an accepted log never fails when every replacement's end lies in the log |
| RepairCalls.ScanExact | sessionlog/repair.go:64-127 | a call pends exactly when an assistant message of the open step declared it and nothing has answered it since, with the seq of its last record |
| RepairCalls.EveryDeclaredCallAnswered | sessionlog/repair.go:86-182 | every call declared in the open step and not answered gets a later tool result in the closed log |
| RepairCalls.ClosersReportTheRecord | sessionlog/repair.go:142-182 | each synthetic result is the warning of unknown outcome, word for word with its error, citing the call's record when there is one, and the not-started sentence otherwise |
| RepairCalls.OrderFollowsTheRecord | sessionlog/repair.go:93-142 | the calls are closed in the order in which they were declared |
| RepairReport.ClosingBatchExactly | sessionlog/repair.go:55-201 | everything repair writes, read off the log: one result per unanswered call in declaration order down to every field, then the open step's end, then the turn's, with consecutive seqs; nothing without an open turn |
| RepairReport.RefusesExactly | sessionlog/repair.go:64-127 | repair refuses exactly the logs with an event it must read and cannot |
| ChunkRows.OverflowTestsAreExact | sessionlog/chunkrow.go:446-455 | the sign tests are true exactly when the mathematical difference or sum leaves int64 |
| ChunkRows.ContinuesExactly | sessionlog/chunkrow.go:151-171 | an event continues a run exactly when its seq is the next, the gap fits int64 and the block is the same |
| ChunkRows.RunLength | sessionlog/chunkrow.go:291-307 | the run taken from the left is one and cannot be longer |
| ChunkRows.RowRebuilds | sessionlog/chunkrow.go:208-249 | a row decodes to exactly the run it was built from |
| ChunkRows.BuildStorageRow | sessionlog/chunkrow.go:208-249 | the loops collect the gaps and texts of the row |
| ChunkRows.PackingIsLossless | sessionlog/chunkrow.go:262-336 | decoding the packed records gives the same events exactly when no event type is a row tag, and an error otherwise |
| ChunkRows.BatchesDoNotMatter | sessionlog/chunkrow.go:262-311 | however the log is cut into batches, decoding their records gives the log |
| ChunkRows.MembersAreExact | sessionlog/chunkrow.go:404-441 | an accepted row expands with every gap respected exactly and no time wrapped |
| ChunkRows.ExpandedRowPacksBack | sessionlog/chunkrow.go:262-441 | an accepted row of at least three members is the row its own events pack to |
| ChunkRows.PackingNeverGrows | sessionlog/chunkrow.go:262-311 | packing never needs more records than there are events |
| ChunkRules.PackedCovers | sessionlog/chunkrow.go:151-311 | the packing record by record: each row stands for a whole stretch of three or more joined deltas and says its start, gaps, block and texts; each line for an event in no such stretch |
| ChunkRows.ExpandStorageRow | sessionlog/chunkrow.go:341-441 | the checks and the loop compute the expansion or reject the row |
| ChunkRows.PackChunkRuns | sessionlog/chunkrow.go:262-311 | the loop with its pending run computes the packing into longest runs |
| TextDecoding.AnnouncedLength | adapter/objectstore/read.go:465-478 | the length the first byte announces is the real one on every well-formed rune |
| Utf8Scalars.ValidExactly | adapter/objectstore/read.go:124-137 | bytes are valid exactly when they encode a sequence of Unicode scalar values |
| Utf8Scalars.TextIsUnique | adapter/objectstore/read.go:124-137 | valid bytes encode one text only |
| TextDecoding.NormalizeIsIdentityExactly | adapter/objectstore/read.go:484-489 | text is left alone exactly when it holds no CRLF |
| TextDecoding.NormalizeConcat | adapter/objectstore/read.go:484-489 | normalising piecewise is normalising the whole unless a cut separates CR from LF |
| TextDecoding.SplitIsSound | adapter/objectstore/read.go:449-462 | if any continuation makes a buffer valid, the part the split lets through is valid |
| TextDecoding.SplitAtRuneBoundary | adapter/objectstore/read.go:449-462 | splits the buffer in two, the tail at most three bytes and shorter than its first byte announces |
| TextDecoding.Fetch | adapter/objectstore/read.go:163-213 | gives the whole body exactly when there is an object and neither its reported size nor its body exceeds the limit nor the transfer breaks; nothing for the root or a missing object; too large exactly when size or body is; never a truncated body |
| TextDecoding.PushKeepsOwing | adapter/objectstore/read.go:409-427 | a push gives out the normalised text of newly finished valid bytes, keeps the rest, and carries at most four bytes |
| TextDecoding.PushFailsRightly | adapter/objectstore/read.go:409-427 | a push fails only when no continuation of what was read is valid |
| TextDecoding.TextDecoder.Push | adapter/objectstore/read.go:409-427 | the object's push is that transition; a failing one changes nothing and condemns every continuation |
| TextDecoding.TextDecoder.Flush | adapter/objectstore/read.go:433-443 | gives out the kept bytes exactly when everything read is valid |
| TextDecoding.StreamFromRefines | adapter/objectstore/read.go:341-385 | from any point on the stream ends without error exactly when the rest is valid, within the limit and completely transferred, with the whole text given out; every error is the right one |
| TextDecoding.StreamingIsReading | adapter/objectstore/read.go:124-385 | for every chunking and every end of the transfer, streaming succeeds exactly when reading the whole does, with the same text, and within the limit with the same error, unless a broken stream had already seen that no continuation is text |
| TextDecoding.PiecesAreText | adapter/objectstore/read.go:341-385 | no piece is empty and every piece is valid text by itself |
| TextDecoding.PartialOutputIsAPrefix | adapter/objectstore/read.go:341-385 | however a stream fails and whenever its consumer stops, what was given out is the normalised start of the object |
| TextDecoding.StreamText | adapter/objectstore/read.go:341-385 | the read loop yields those pieces and that error, cancellation and broken transfers included, and nothing more once the consumer stops |
| Decimals.OrdinalOfJobId | adapter/domainjobs/registry.go:753-763 | an id gives back its number for its own kind and nothing for any other |
| Decimals.AtoiExactly | adapter/domainjobs/registry.go:753-763 | what is read as a number: an optional sign, zeros, and the number as it is printed |
| Decimals.OrdinalExactly | adapter/domainjobs/registry.go:753-763 | an id has a number exactly when a positive numeral stands behind kind and dash |
| Decimals.JobIdsDiffer | adapter/localjobs/registry.go:262-277 | equal ids have equal kinds and numbers |
| JobTypes.Collected | adapter/domainjobs/registry.go:356-373 | what reaches settlement is terminal: the producer's outcome if it is, failed otherwise |
| DomainJobs.HighestIsABound | adapter/domainjobs/registry.go:295-306 | no listed record of the kind has a higher number than the one found |
| DomainJobs.HighestIsAttained | adapter/domainjobs/registry.go:295-306 | a positive highest number is some listed record's |
| DomainJobsSafety.StepKeeps | adapter/domainjobs/registry.go:167-918 | every action of every replica keeps the invariant of ledger, handles and calls in flight |
| DomainJobsTheorems.StepTable | adapter/domainjobs/registry.go:167-918 | one action changes records only to later ones and withdraws only a claim no Start has returned |
| DomainJobsSafety.RunKeeps | adapter/domainjobs/registry.go:167-918 | the invariant holds after every run |
| DomainJobsTheorems.IdsAreNeverReissued | adapter/domainjobs/registry.go:203-348 | over every run from an empty ledger no two successful Starts return one id, each id keeps its record, and no job is announced twice or before it is terminal |
| DomainJobsTheorems.TerminalIsFinal | adapter/domainjobs/registry.go:386-437 | a terminal record's status, detail, output and finish time never change again, over every continuation |
| DomainJobsTheorems.IssuedRecordsStay | adapter/domainjobs/registry.go:203-242 | the record of a returned id is never deleted or restamped, and its report never taken back |
| DomainJobsTheorems.SettlementStands | adapter/domainjobs/registry.go:386-437 | the first committed outcome is the record's from then on, reported if somebody waited |
| DomainJobsTheorems.KillStands | adapter/domainjobs/registry.go:520-560 | once the request of a kill was recorded the record stays, reported and not running, over every continuation; a finished one keeps its status |
| DomainJobsTheorems.OnlyTheRunnerMoves | adapter/domainjobs/registry.go:167-918 | whoever is not the runner stamped on a record can at most mark it reported; a record appears or disappears only by its runner |
| DomainJobsTheorems.LostJobsFail | adapter/domainjobs/registry.go:167-194 | whatever happens while its runner is not up, a live record stays as it was but for its report, until a takeover fails it as lost; once the runner is up again that has happened, with output and stamps kept |
| DomainJobsTheorems.ClaimIsFreshInItsListing | adapter/domainjobs/registry.go:288-334 | the id a claim tries is free in the listing it was computed from |
| DomainJobsAccess.InsideWasAdmitted | adapter/domainjobs/registry.go:474-560 | over every run, a kill or read past its look at the record was let in by its own call, when the record was nobody's or the caller's, and has been on its way since |
| DomainJobsAccess.KillLooks | adapter/domainjobs/registry.go:689-704 | a kill goes on exactly when the record is read, is there and is nobody's or the caller's; refused, it leaves no trace |
| DomainJobsAccess.ReadLooks | adapter/domainjobs/registry.go:474-512 | a read marks the report exactly when, besides, the job has ended |
| DomainJobsAccess.NoStrangerInside | adapter/domainjobs/registry.go:520-560 | a call let in to a job whose id had been returned works for a session that job is still open to |
| DomainJobsRace.KillCanReachAStranger | adapter/domainjobs/registry.go:520-560 | a run from an empty ledger in which session A's kill is about to cancel session B's job |
| DomainJobsProgress.CallBegins | adapter/domainjobs/registry.go:203-281 | which calls a replica accepts, and when; they begin with their first step |
| DomainJobsProgress.ReadingStep | adapter/domainjobs/registry.go:288-334 | a Start goes on from its listing exactly when it read it, has missed fewer than eight times and its owner is below the limit, and then tries the next number of its kind |
| DomainJobsProgress.StartComesUp | adapter/domainjobs/registry.go:203-242 | a Start that finds its number free and whose producer comes up returns that id for a running job with the declared spec and a ready handle, whatever happens between its steps |
| DomainJobsProgress.FailedStartWithdraws | adapter/domainjobs/registry.go:203-348 | a Start whose producer fails withdraws its record if the store lets it, and never returned the id |
| DomainJobsProgress.SettlementIsAnnounced | adapter/domainjobs/registry.go:386-437 | a settlement is announced exactly when it was the first and listeners were open, and the record then says how the job ended |
| DomainJobsProgress.KillRequestsTheStop | adapter/domainjobs/registry.go:520-560 | a kill whose producer cancels leaves the job reported, and stopping unless it ended meanwhile |
| DomainJobsProgress.MarkingReports | adapter/domainjobs/registry.go:474-531 | a read or kill of an ended job leaves it reported and otherwise as it was |
| DomainJobsProgress.FailedCancelFailsTheJob | adapter/domainjobs/registry.go:884-918 | a job whose cancel fails in teardown is failed as possibly orphaned unless it ended first |
| DomainJobsProgress.BootComesUp | adapter/domainjobs/registry.go:108-194 | a replica that boots from a listing and gets its writes comes up, its former live records failed as lost and every other record as it was |
| DomainRegistry.CountIsCardinality | adapter/domainjobs/registry.go:295-306 | the count of a listing is the number of the owner's live records |
| DomainRegistry.ScanLedger | adapter/domainjobs/registry.go:295-306 | the loop computes the live count and the highest number |
| DomainRegistry.TakeOver | adapter/domainjobs/registry.go:167-194 | exactly this runner's live records are failed; no other record changes |
| DomainRegistry.Registry.constructor | adapter/domainjobs/registry.go:108-157 | a new registry holds no handles and leaves none of its runner's records live |
| DomainRegistry.Registry.Attempt | adapter/domainjobs/registry.go:291-332 | one attempt is refused exactly at the limit, writes only its own record, and misses only when a rival wrote in between |
| DomainRegistry.Registry.Claim | adapter/domainjobs/registry.go:288-334 | the claimed record is new and numbered past all of its kind; nothing but rivals makes it give up for contention |
| DomainRegistry.Registry.Start | adapter/domainjobs/registry.go:203-242 | succeeds exactly when the producer starts and the owner is below the limit; a refused Start leaves no handle, and a record exactly when producer and deletion both failed |
| DomainRegistry.Registry.Abandon | adapter/domainjobs/registry.go:341-348 | the handle is gone, and the record unless its deletion fails; nothing else |
| DomainRegistry.Registry.Settle | adapter/domainjobs/registry.go:386-437 | commits the outcome unless already terminal, releases waiters, and announces only a first settlement with listeners open |
| DomainRegistry.Registry.Kill | adapter/domainjobs/registry.go:520-560 | who is refused and why, and what each result leaves behind, whatever anybody did to ledger and handles during the cancel |
| DomainRegistry.Registry.MarkReported | adapter/domainjobs/registry.go:708-717 | sets the report and nothing else |
| DomainRegistry.Registry.CancelForTeardown | adapter/domainjobs/registry.go:884-918 | exactly the listed jobs are torn down: finished ones stay, failing cancels fail the job, the rest are stopping and reported |
| LocalJobsSafety.StepKeeps | adapter/localjobs/registry.go:244-956 | every locked section keeps the invariant and only moves jobs later |
| LocalJobsSafety.NewIdIsNew | adapter/localjobs/registry.go:262-277 | the next id differs from every id ever given out |
| LocalJobsSafety.RunKeeps | adapter/localjobs/registry.go:244-956 | the invariant holds after every run, and along it no job loses its identity, its final state or its report |
| LocalJobsTheorems.RegistryIsSafe | adapter/localjobs/registry.go:244-956 | over every run settled is closed exactly once and exactly when terminal, ids never repeat, store and order hold the same jobs in registration order, listeners hear of a job at most once |
| LocalJobsTheorems.TerminalAbsorbs | adapter/localjobs/registry.go:432-470 | a terminal status absorbs across every unlocked window and a report is never taken back |
| LocalJobsTheorems.SettlementStands | adapter/localjobs/registry.go:744-771 | the first outcome is the job's from then on |
| LocalJobsTheorems.KillStands | adapter/localjobs/registry.go:432-470 | once a cancel worked and was recorded the job is reported and never runs again, over every continuation |
| LocalJobsTheorems.WaiterClaimsTheReport | adapter/localjobs/registry.go:477-771 | a waiter present at settlement makes the announced snapshot reported |
| LocalJobsTheorems.ReachIsExact | adapter/localjobs/registry.go:661-677 | lookup by id reaches exactly what the list shows the same caller under that id |
| LocalJobsProgress.CallBegins | adapter/localjobs/registry.go:244-337 | which calls the registry accepts; they begin with their first section |
| LocalJobsProgress.NumberedFromTheStart | adapter/localjobs/registry.go:262-277 | over every run the n-th job of a kind gets the number n, whatever was dropped before |
| LocalJobsProgress.RegisteringStep | adapter/localjobs/registry.go:262-277 | a new job is running, unreported and unwatched, and goes to the end of the list |
| LocalJobsProgress.SettlementIsHeard | adapter/localjobs/registry.go:744-790 | the first settlement is heard with its outcome and report unless listeners were closed by then |
| LocalJobsProgress.KillLooks | adapter/localjobs/registry.go:432-456 | a kill reaches the job the caller's list shows under the id: it marks an ended one and goes on to cancel a live one |
| LocalJobsProgress.KillRefused | adapter/localjobs/registry.go:432-456 | a kill of what the caller cannot see leaves no trace |
| LocalJobsProgress.KillRequestsTheStop | adapter/localjobs/registry.go:432-470 | a kill whose producer cancels leaves the job reported, and stopping unless it ended meanwhile |
| LocalJobsProgress.WaitLooks | adapter/localjobs/registry.go:477-498 | a wait on a live listed job counts one waiter more, on an ended one none |
| LocalJobsProgress.WaitEnds | adapter/localjobs/registry.go:500-522 | the end of a wait takes the waiter away and claims the report of an ended job, a cancelled wait too |
| LocalJobsProgress.ReadLooks | adapter/localjobs/registry.go:403-424 | a read of an ended listed job claims its report, of a live one nothing |
| LocalJobsProgress.TeardownEnds | adapter/localjobs/registry.go:922-956 | teardown leaves a live job stopping, or failed as possibly orphaned when its cancel fails; what ended by itself stays |
| LocalJobsProgress.DisposingStep | adapter/localjobs/registry.go:821-870 | disposing picks exactly the listed jobs of the owner |
| LocalJobsProgress.DroppingStep | adapter/localjobs/registry.go:906-914 | exactly the dropped jobs leave map and list; the others keep place and id |
| LocalRegistry.TrackedJob.Settle | adapter/localjobs/registry.go:744-771 | the locked part of settlement on the job object, with the snapshot to announce |
| LocalRegistry.TrackedJob.RequestStop | adapter/localjobs/registry.go:458-470 | stopping unless terminal, and reported |
| LocalRegistry.TrackedJob.BeginWait | adapter/localjobs/registry.go:477-498 | a pending job has one waiter more |
| LocalRegistry.TrackedJob.EndWait | adapter/localjobs/registry.go:500-522 | one waiter less, reported if terminal, and an abort counts only while live |
| LocalRegistry.TrackedJob.ClaimForTeardown | adapter/localjobs/registry.go:922-938 | teardown claims the report of a live job |
| LocalRegistry.TrackedJob.StopAfterCancel | adapter/localjobs/registry.go:946-952 | stopping unless settled meanwhile |
| LocalRegistry.Registry.Register | adapter/localjobs/registry.go:262-277 | the locked section of Start: counter, map and list move together |
| LocalRegistry.Registry.ReachLocked | adapter/localjobs/registry.go:661-677 | the stored object, or nothing |
| LocalRegistry.Registry.Settle | adapter/localjobs/registry.go:744-771 | settles one job of the books and says what listeners hear |
| LocalRegistry.Registry.CountActive | adapter/localjobs/registry.go:316-323 | the loop counts the owner's live jobs |
| LocalRegistry.Registry.Owned | adapter/localjobs/registry.go:821-828 | the loop collects the owner's jobs in registration order |
| LocalRegistry.Registry.DropLocked | adapter/localjobs/registry.go:906-914 | exactly the given jobs leave map and list |
| StreamGrammar.ValidateStream | llm/invariant.go:122-193 | delivers only grammatical prefixes; completes exactly on accepted streams, passes a source error on exactly when what came before was grammatical, and stays silent exactly when the consumer stops first |
| GrammarRules.ChecksExactly | llm/invariant.go:122-193 | chunks are accepted so far exactly when each may come after those before it, by where blocks start and end in the stream |
| GrammarRules.AcceptsExactly | llm/invariant.go:122-193 | a stream is accepted to its end exactly when it is grammatical and its last chunk is the finish |
| Assembling.AssemblerProjects | llm/assembler.go:86-152 | after any stream the assembler holds, per index, exactly what the stream says of it: first type, first end, text, call id, name and arguments |
| Assembling.SeenIsOpenOrEnded | llm/invariant.go:122-193 | along a grammatical stream every seen index is open or has ended |
| Assembling.AssemblerAgreesWithGrammar | llm/assembler.go:193-255 | for every accepted stream whose finish is not error or aborted, Blocks never fails and is the first end of each index in order of first appearance, minus tool calls on max-tokens |
| Assembling.BlocksFailExactly | llm/assembler.go:165-204 | Blocks fails exactly when an index never ended and was opened as an unknown type |
| Assembling.OpenBlocksComeFromDeltas | llm/assembler.go:165-185 | a block that never ended is built from its deltas alone, with a call id made from its index when none was given |
| AssemblyRules.BuiltAsBegun | llm/assembler.go:86-185 | what is assembled at an index is its first end, or else what its first chunk makes of its deltas, or a failure |
| AssemblyRules.FirstEndExactly | llm/assembler.go:110-132 | the first block-end of an index in the stream is the one that counts |
| AssemblyRules.LastUsageStands | llm/assembler.go:86-132 | usage is that of the last chunk that carries it |
| AssemblyRules.LastFinishStands | llm/assembler.go:86-132 | finish and replay metadata are those of the last finish |
| Assembling.KeepDropsToolCalls | llm/assembler.go:206-221 | a cut-off response keeps every other block as often as it occurs and no tool call |
| Assembling.ReplayLinesUp | llm/assembler.go:223-242 | per-block replay entries that come out were kept at the same positions as the blocks; a misaligned envelope is dropped whole |
| Assembling.BlockAssembler.Push | llm/assembler.go:86-132 | the object's push is the transition of the assembly |
| Assembling.BlockAssembler.AssembleAndPrune | llm/assembler.go:193-243 | the loops compute blocks, envelope and error |
| ImageOffload.CeilDiv | llm/image.go:68-73 | the least quotient that covers the dividend, zero below |
| ImageOffload.RoundedUp | llm/image.go:295-296 | the least multiple of the quantum that covers the excess |
| ImageBudget.LengthExactly | llm/image.go:42-131 | in base64 an image counts the least multiple of four characters that carries its bytes, raw its bytes, and a route's own count replaces the recorded one |
| ImageReplacement.ReplaceOffloads | llm/image.go:142-175 | exactly the images with fewer than n before them in traversal order become the placeholder; every other token of the nested content stands |
| ImageReplacement.EachMessageOffloads | llm/image.go:318-329 | in each message only the content changes, and there exactly the images that have fewer than n before them, earlier messages counted, become the placeholder |
| ImageReplacement.ReplaceKeepsTheRest | llm/image.go:142-175 | the images left are the sequence without its first n |
| ImageOffload.Removed | llm/image.go:298-317 | the shortest prefix that meets both quantised targets, or every image |
| ImageBudget.RestFitsExactly | llm/image.go:275-317 | the images left fit the limits exactly when the count does not break the bytes |
| ImageBudget.StepsOfOneAreMinimal | llm/image.go:275-317 | without steps no image goes that could have stayed: what is left fits, and with any image more it would not |
| ImageBudget.OffloadMeetsTheBudget | llm/image.go:265-329 | for all lengths: what is left is the image sequence minus the shortest prefix that meets the targets, nothing else changed, and it fits count and byte limits exactly when the count does not break the bytes |
| ImageBudget.OffloadIsIdempotent | llm/image.go:265-329 | for all lengths: applying the policy to its result changes nothing exactly under the same condition |
| ImageBudget.Base64OffloadFits | llm/image.go:249-255 | the base64 projection is idempotent, and what it leaves fits every limit that is not negative; a negative one leaves no image |
| ImageBudget.RemovalIsStable | llm/image.go:275-317 | for all lengths: more history brings no image back exactly when its targets are not met earlier; with the same targets, once met, the prefix is identical |
| ImageBudget.OffloadIsStable | llm/image.go:257-329 | the same over messages, and while the targets stay the same the projection of the older history is a prefix of the newer one |
| ImageBudget.DocumentedExample | llm/image.go:260-263 | one-megabyte images, 128 MiB, step 64 MiB: from 129 to 192 images the first 65 go |
| ImageBudget.NegativeLengthBreaksTheLimit | llm/image.go:275-317 | a message of two raw images, one of negative length, that fits its byte limit and ends over it |
| ImageBudget.NegativeLengthBringsBack | llm/image.go:275-317 | a newer image of negative length brings a removed one back |
| ImageOffloadLoops.CollectImageLengths | llm/image.go:114-131 | the accumulating recursion appends the lengths in traversal order |
| ImageOffloadLoops.ReplaceOldestImages | llm/image.go:142-175 | the copy-on-change loop computes the replacement and says whether anything changed |
| ImageOffloadLoops.CountToRemove | llm/image.go:298-317 | the counting loop finds that prefix |
| ImageOffloadLoops.OffloadRequestImagesWithPolicy | llm/image.go:265-329 | the whole projection, early return included |
| ImageOffloadLoops.OffloadRequestImages | llm/image.go:249-255 | the base64 projection, with the result of Base64OffloadFits |
| ScopeTree.ChainsNeverRepeat | scope/scope.go:231-237 | a walk to the root never meets a key twice |
| ScopeTree.ChainsAreUnique | scope/scope.go:231-237 | the parent links alone determine the chains |
| ScopeTree.RelinkKeepsChains | scope/scope.go:151-159 | hanging a key under a parent whose chain does not hold it keeps the links a forest |
| ScopeTree.CyclicLinkHasNoChains | scope/scope.go:151-159 | a link the cycle check refuses would leave no forest |
| ScopeTree.ParentsStayAForest | scope/scope.go:151-214 | after any sequence of bindings and moves, refused ones included, every key has a finite chain without repeats |
| ScopeTree.Forest.LinkParent | scope/scope.go:151-159 | refuses exactly when the key is on the parent's chain, and then changes nothing |
| ScopeTree.Forest.BindParent | scope/scope.go:199-214 | each refusal exactly when its condition holds, changing nothing; otherwise the key hangs under the parent |
| ScopeTree.Forest.Rebind | scope/scope.go:177-188 | moves the bound key under the same cycle check |
| ScopeTree.Forest.ChainOf | scope/scope.go:231-237 | terminates with the chain, nearest first, without repeats; nil has the empty chain |
| ScopeTree.Forest.Admits | scope/scope.go:252-262 | admits exactly when the tag is nil or on the dispatch key's chain |
| ScopeTeardownSafety.StepKeeps | scope/scope.go:443-535 | every section keeps each registered cleanup in exactly one place |
| ScopeTeardownSafety.TeardownsRunExactlyOnce | scope/scope.go:443-535 | over every interleaving no cleanup runs twice, none is lost once all calls finish, and what Dispose runs goes in reverse registration order |
| ScopeTeardownSafety.DisposedRefuses | scope/scope.go:443-455 | a disposed scope stays disposed and refuses every registration |
| ScopeTeardownSafety.DeferRegisters | scope/scope.go:443-455 | registering puts the next cleanup at the end of the list, or changes nothing after disposal |
| ScopeTeardownSafety.SectionsShrink | scope/scope.go:457-535 | every locked section brings its call nearer to its end and leaves the others alone |
| ScopeTeardownSafety.DisposalCompletes | scope/scope.go:443-535 | after any run that called Dispose the calls in flight can be finished, and then every registered cleanup has run exactly once |
| ScopeTeardownSafety.DisposerRuns | scope/scope.go:457-474 | a first call of a disposer runs its listed cleanup and takes it off the list |
| ScopeCleanup.Scope.Defer | scope/scope.go:443-455 | registers at the end of the list, or refuses after disposal |
| ScopeCleanup.Scope.DisposeOne | scope/scope.go:457-474 | runs a listed cleanup once and takes it off; a second call gives the same result and runs nothing |
| ScopeCleanup.Scope.Dispose | scope/scope.go:509-535 | runs every listed cleanup once in reverse order, collects all failures, and a second call changes nothing |
| SchemaCodec.ParseUndoesMarshal | tools/jsonschema.go:109-377 | parsing what was printed gives the node back: property order, repeated names, absent versus empty lists |
| SchemaCodec.MarshalIsInjective | tools/jsonschema.go:109-200 | different nodes print differently |
| SchemaAcceptance.ParseAcceptsExactly | tools/jsonschema.go:228-377 | parsing succeeds exactly on objects of known keywords with values of the lenient shapes |
| SchemaAcceptance.PrintingIsCanonical | tools/jsonschema.go:109-377 | whatever parses, prints to something that parses to the same node |
| SchemaAcceptance.NullIsTakenLeniently | tools/jsonschema.go:284-377 | what null and non-lists become |
| SchemaLoops.MarshalJSON | tools/jsonschema.go:109-200 | the statements put exactly the present keywords in the fixed order |
| SchemaLoops.DecodeSchemaNode | tools/jsonschema.go:284-377 | the loop decodes the node and appends violations in traversal order |
| SchemaLoops.DecodeSchemaField | tools/jsonschema.go:291-355 | the statements of every keyword decode it, and leave node and violations as the specification says |
| ImageFit.ShortSide | attachment/request_projection.go:22-43 | the nearest integer to the proportional side, between 1 and the original |
| ImageFit.FloatSideIsExact | attachment/request_projection.go:27-42 | the side computed with any correctly rounding doubles is that integer, for images below 2^52 pixels |
| ImageFit.ScaleIsSane | attachment/request_projection.go:22-26 | the computed scale lies between 0 and 1, and is 1 for every image within budget |
| ImageFit.ScaleIsTheRoot | attachment/request_projection.go:22-26 | over budget the scale is below 1 and is the square root of budget over area, up to five roundings |
| ImageFit.StartIsTheScaledSide | attachment/request_projection.go:27-42 | the search starts at the scaled side rounded down, up to one rounding |
| ImageFit.ShrinkLongSide | attachment/request_projection.go:27-42 | terminates with the largest long side at or below the start that fits the budget |
| ImageFit.RequestImageDimensions | attachment/request_projection.go:22-43 | unchanged within budget, and always within it afterwards; over budget the largest long side that fits from the computed start, and its nearest short side |
| ImageFit.FitIsDownwardClosed | attachment/request_projection.go:27-42 | shrinking further keeps fitting |
| ImageFit.AnyStartAboveFindsTheSame | attachment/request_projection.go:27-42 | a search that had to shrink gives the same answer from any higher start |
| SettingsPaths.FailsExactlyAtTheRoot | settings/json.go:142-185 | an edit fails exactly when it writes a non-object over the whole section |
| SettingsPaths.EditHasAFrame | settings/json.go:142-185 | every path incomparable with the edited one reads as before |
| SettingsPaths.EditReadsBack | settings/json.go:142-185 | at and below its path a set reads its value and an unset reads nothing, the empty path included, where an unset leaves the empty section |
| SettingsPaths.UnsetOfNothingIsIdentity | settings/json.go:142-185 | an unset with nothing to remove is the identity |
| SettingsPaths.EditsHaveAFrame | settings/provider.go:636-656 | a list of edits leaves every path incomparable with all of them alone |
| SettingsPaths.SetReadsUntilComparable | settings/provider.go:636-656 | what an edit left at or below its path reads back after all later edits that are incomparable with the place read |
| SettingsPaths.EditsFailExactly | settings/provider.go:636-656 | a list of edits fails exactly when one of them is refused |
| SettingsPaths.Mutate | settings/provider.go:636-656 | the loop applies the edits in order and stops at the first failure |
| SettingsPaths.MergeReads | settings/json.go:72-90 | what a merged value reads at every path, from what the two layers read there |
| SettingsPaths.MergeIsIdempotent | settings/json.go:72-90 | merging the same patch twice is merging it once |
| SettingsPaths.MergeLayers | settings/json.go:72-90 | the loops over the keys compute the merge in any order of keys |

## Left out

- Bytes of JSON text: payloads are typed values or ordered trees, so equality holds on decoded values.
- Machine integers outside `ChunkRows`: seqs, turns, counters, byte totals and job ordinals are unbounded.
- SQL, drivers, the object store client, HTTP, image codecs, logging, listeners of changed lists, controller admission and the registration of owner cleanups.
- The outer Stat of `StreamText`, and which of the store's error codes becomes which fault; the reads are given as chunks and a way they end.
- `utf8.Valid` and `strings.ReplaceAll` are library calls, modelled by RFC 3629 section 4 and by the replacement they promise.
- Idempotence of `normalizeLF` (CR CR LF changes twice) and associativity of `mergeLayers` (a scalar in the middle breaks it): neither holds.
- The per-owner job limit as an invariant over runs: checking and registering are separate steps in both registries.
- The order of a caller's list in the multi-replica registry, which sorts by start time and number; what the list shows is the fence of `DomainJobsAccess`.
- Waiting in the multi-replica registry beyond its waiter counts: the re-read passes a nil caller and refuses owned jobs (adapter/domainjobs/registry.go:620).
- Restarting a replica under its old name while calls of the old process still run; a crash ends them.
- DomainRegistry.Registry.Start: store errors other than a failing deletion are only steps of `DomainJobs`; it speaks of one caller with nobody else writing; interleavings are the subject of `DomainJobsTheorems`.
- DomainRegistry.Registry.CancelForTeardown: speaks of one caller; handles are kept by value in the map.
- ScopeCleanup.Scope.Dispose: speaks of one caller; the interleavings are those of `ScopeTeardownSafety.TeardownsRunExactlyOnce`.
- Walks of scope chains that race with a rebinding: reads are not under the lock there and may see a mixture of two chains.
- Assembling.BlockAssembler.Push: partial blocks are held by value in the map rather than through pointers.
- Interrupted blocks of a cut-off stream, settings revisions against concurrent publishing, and the semantic checks of schemas after parsing.
- ImageFit.RequestImageDimensions: does not speak of images of 2^52 pixels or more, where products of doubles are no longer exact.
- Credential parsing, presentation views, configuration defaults and the image store pipeline: thin plumbing.
