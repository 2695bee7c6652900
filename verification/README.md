# Utix core, verified

A Dafny model of the parts of Utix whose correctness is hardest to see from one function: the hash-chained ledger,
ticket mutations and their optimistic commit, the crash-safe backfill, recoverable operations, impact analysis, the
bounded cache with single-flight loading, cursor pagination and export, two-step ownership transfer, idempotency, and
fee and amount arithmetic.

Each component is stated as functions on values (what an operation makes of a state), a class or method where the
source updates things in place, tied to those functions, and lemmas over every input, every run or every interleaving.

| files | component |
|---|---|
| `Ledger.dfy`, `LedgerRuns.dfy` | append, prune, reseal, export and verification of an anchored hash chain |
| `Tickets.dfy`, `Commit.dfy`, `Checker.dfy` | ticket mutations, compare-and-set commits, the invariant checker |
| `Backfill.dfy`, `BackfillRun.dfy`, `BackfillRollback.dfy` | any number of operators over one checkpoint, one operator's run and rollback, rollbacks among runs |
| `Lifecycle.dfy`, `Recovery.dfy`, `RecoveryRuns.dfy`, `RecoveryOverlap.dfy` | state tables, recoverable operations, what every history keeps, overlapping calls |
| `Sorting.dfy`, `Impact.dfy` | breadth-first impact analysis and its report |
| `Cache.dfy`, `CacheLoads.dfy`, `CacheObject.dfy` | the recency map, loads in flight, the cache object |
| `Decimal.dfy`, `PercentCoding.dfy`, `Pagination.dfy` | numerals, percent-encoding, cursors and pages |
| `FieldAuthorization.dfy`, `Exports.dfy`, `ExportForms.dfy`, `ExportStream.dfy`, `ExportReplay.dfy` | what an export shows, its three forms, and exports under an idempotency key |
| `Ownership.dfy`, `OwnershipObject.dfy`, `OwnershipKeys.dfy` | ownership proposals and their index, and offers under an idempotency key |
| `Redaction.dfy`, `Responses.dfy`, `Idempotency.dfy`, `IdempotencyObject.dfy` | scrubbing of text, redaction of JSON responses, idempotency records and protected calls |
| `Amounts.dfy`, `Fees.dfy` | money as text, fee breakdowns and reconciliation |
| `Prelude.dfy` | shared types and the string helpers of the source |

`dafny verify dfyconfig.toml` checks the whole project.

## What comes from outside

Clocks, fresh ids, correlation ids, permissions, quota answers, the transfer-risk assessment, JSON text, the redaction of
ledger entries and exported records and the SHA-256 digest are parameters; the redaction of stored responses is modelled. Nothing is assumed of the digest but its length: two bodies with one digest appear
in the statements as an explicit collision. Awaits are the points at which other callers, crashes and failing storage
may come in. A stored text that does not parse is one corrupt case.

## Where the code departs from its documentation, or from what one would expect

The model follows the code.

- Appending keeps the chain verifiable only when redaction leaves the stamp alone (`LedgerRuns.AppendExactly` gives the exact condition).
- A ledger export is documented to fail closed on a broken chain; the code refuses only unreadable storage, exports a broken chain, and the export is then reported broken (`LedgerRuns.WholeExportExactly`).
- The invariant checker flags every committed transfer as a replay, because a transfer records its own nonce.
- Issuing accepts a ticket id already in use, so a reissued ticket can be redeemed twice.
- A partly failed rollback cannot simply be re-run for a record journaled more than once (`BackfillRun.RerunRestoresExactly`).
- A resume after a partly failed rollback leaves the restored records untransformed (`BackfillRollback.RollbackKeepsExactly`).
- A crash between a write and its checkpoint loses that record's before-image.
- `resolveInterruptedStep` accepts any step of the record, interrupted or not; a finished step resolved as not applied runs again (`RecoveryRuns.ReopenedStepRunsAgain`). Overlapping calls can repeat a finished step (`RecoveryOverlap.RepeatNeedsStaleCall` says which).
- `invalidateWhere` drops the load in flight of a chosen key only when the key has an entry.
- A cursor on a row with an empty key reads as no cursor, so the walk starts over.
- A cancelled stream's filtered total also counts the records in the dropped buffer.
- Hidden resources are named `redacted:n`, which a visible resource's own id can equal (`Impact.TellsApartExactly`).
- Resource keys join type and id with a colon and collide when one type, followed by a colon, begins another (`Ownership.TypesMeetExactly`).
- A replayed object or list is the redacted one, not the one the first caller got, and is redacted again on every replay, so two replays can differ (`Idempotency.SecondReplayDiffers`; `Idempotency.JsonRepliesAlikeExactly` says when not); work that outlives its lapsed claim settles the next claim.
- A refused export under an idempotency key is run again by a retry, not replayed, and cannot be delivered under that key.
- A refused ownership offer or acceptance leaves its idempotency key in flight until it lapses.

## Model

| member | source | states |
|---|---|---|
| `Ledger.LongestGood` | core/ledger/ledger.ts:297-340 | how many leading entries verify: that prefix is good and the entry after it, if any, is not linked |
| `Ledger.VerifyLedgerChain` | core/ledger/ledger.ts:297-340 | the one-pass verifier answers exactly by the longest verifying prefix; it reports the chain intact iff every entry is linked and the expected checkpoint is on the chain; a break names the first bad entry |
| `Ledger.CheckpointLookup` | core/ledger/ledger.ts:325-337 | the three-way lookup of an expected checkpoint finds it iff it is the anchor or the point after some entry |
| `Ledger.Contiguous` | core/ledger/ledger.ts:313-323 | sequence numbers of a verifying prefix are contiguous from the anchor |
| `Ledger.StepBack` | core/ledger/ledger.ts:313-323 | two linked entries with one hash are the same entry after the same point, unless their bodies collide |
| `Ledger.SharedPast` | core/ledger/ledger.ts:297-340 | two chains that verify from any anchors and reach one point agree on every earlier entry both retain |
| `Ledger.TamperEvidence` | core/ledger/ledger.ts:297-340 | from one anchor, two verifying chains through one checkpoint are identical up to it, at the same place |
| `Ledger.TamperReported` | core/ledger/ledger.ts:297-340 | with a checkpoint kept elsewhere, any stored chain that does not still start with the entries before it is reported broken: every edit, insertion, removal and reorder |
| `Ledger.FindSeq` | core/ledger/ledger.ts:535-541 | the first entry carrying a sequence number, or none |
| `LedgerRuns.SoundIsIntact` | core/ledger/ledger.ts:508-512 | `verify` reports a stored chain intact iff it is readable and every entry verifies from its anchor |
| `LedgerRuns.BuiltEntryVerifies` | core/ledger/ledger.ts:454-473 | a built entry passes the five checks iff redaction leaves its instant a date not before the head and its subject two labels |
| `LedgerRuns.AppendExactly` | core/ledger/ledger.ts:476-506 | from a verifying chain `append` refuses exactly bad input or a misordered instant, writes nothing then; otherwise adds the entry last, and the chain verifies again iff the stamp survives redaction |
| `LedgerRuns.SecretLookingInstantBreaksChain` | core/telemetry/telemetry.ts:68-71 | the claim that every append keeps the chain verifiable fails for every accepted instant the redactor takes for a secret |
| `LedgerRuns.MondayInstantBreaksEmptyLedger` | core/ledger/ledger.ts:454-506 | one such input: an RFC 7231 date on a Monday appended to an empty ledger leaves it broken |
| `LedgerRuns.PruneExactly` | core/ledger/ledger.ts:559-572 | `prune` keeps exactly the newest `limit` entries, moves the anchor to the last one dropped, and the chain still verifies |
| `LedgerRuns.RunRemembers` | core/ledger/ledger.ts:476-572 | every run of appends and prunes keeps every checkpoint its start had, unless pruned away |
| `LedgerRuns.SavedHeadVerifies` | core/ledger/ledger.ts:476-572 | from any verifying chain every run stays verifiable, and a saved head verifies afterwards iff no prune moved the anchor past it |
| `LedgerRuns.HarmlessInputs` | core/ledger/ledger.ts:454-506 | from inputs alone: when redaction leaves every instant and label handed in alone and the clock reads as a date, every run stays verifiable |
| `LedgerRuns.Chronological` | core/ledger/ledger.ts:313-323 | in a verifying chain time never goes back between any two entries, however far apart |
| `LedgerRuns.ExportContents` | core/ledger/ledger.ts:524-557 | from a verifying chain, what an accepted export packs and exactly when it is refused |
| `LedgerRuns.ExportRefusedExactly` | core/ledger/ledger.ts:524-557 | a maintainer is refused a broken ledger iff the storage cannot be read, whatever the chain in it |
| `LedgerRuns.ExportReportsItsOwnBreaks` | core/ledger/ledger.ts:356-399 | any readable chain, verifying or not: what is exported is the chain from `fromSeq` on, and its own verification reports it intact iff its anchor is well formed and its own entries pass their checks in place |
| `LedgerRuns.WholeExportExactly` | core/ledger/ledger.ts:356-399 | so a whole export of a readable chain is always made and is reported intact iff the chain verifies: a broken chain is exported, and its export reported broken |
| `LedgerRuns.ExportVerifies` | core/ledger/ledger.ts:356-399 | every export of a verifying chain re-verifies on its own and holds exactly the retained entries from `fromSeq` on |
| `LedgerRuns.TrimmedExportReported` | core/ledger/ledger.ts:356-399 | an export cut short under an untouched header is reported as a head mismatch |
| `LedgerRuns.ResealRestores` | core/ledger/ledger.ts:574-619 | `reseal` of any broken storage keeps exactly the longest verifying prefix over the old anchor, adds one entry, counts what it dropped, and verifies again iff that entry's stamp survives redaction |
| `LedgerRuns.ResealInputs` | core/ledger/ledger.ts:574-619 | from inputs alone: a reseal whose clock, labels and instants redaction leaves alone verifies again |
| `LedgerRuns.LedgerObject.constructor` | core/ledger/ledger.ts:421-430 | a new ledger stores nothing and quarantines nothing |
| `LedgerRuns.LedgerObject.AppendEntry` | core/ledger/ledger.ts:476-506 | the object's append is the operation on its stored chain |
| `LedgerRuns.LedgerObject.Verify` | core/ledger/ledger.ts:508-512 | reading the object's verdict changes nothing and is the specified verdict |
| `LedgerRuns.LedgerObject.PruneOldest` | core/ledger/ledger.ts:559-572 | the object's prune is the operation on its stored chain |
| `LedgerRuns.LedgerObject.ResealChain` | core/ledger/ledger.ts:574-619 | the evidence is quarantined unchanged, under the time of the reseal, iff the chain is rewritten |
| `Tickets.IssueCounts` | core/invariants/mutations.ts:69-79 | issuing adds at most one ticket to its event's count |
| `Tickets.IssueKeeps` | core/invariants/mutations.ts:53-147 | an accepted issue keeps the ticket invariant: tickets per event ≤ issued count ≤ capacity, fraud-flagged tickets locked or burned, no live ticket of a blacklisted owner, fee splits summing to price, nonces distinct and recorded |
| `Tickets.TransferKeeps` | core/invariants/mutations.ts:154-297 | an accepted transfer keeps the same invariant, whatever the risk policy answers |
| `Tickets.RedeemKeeps` | core/invariants/mutations.ts:303-373 | an accepted redemption keeps the same invariant |
| `Tickets.ApplyKeeps` | core/invariants/mutations.ts:53-373 | no accepted mutation leaves the invariant |
| `Commit.VersionStep` | core/invariants/commit.ts:76-91 | version n + 1 is the n-th winning mutation applied to version n |
| `Commit.Linearizable` | core/invariants/commit.ts:47-91 | under every interleaving of any number of calls, version n is exactly the first n wins in compare-and-set order; a committed call is one win, made between its beginning and its end, and returned that version; a rejected call is no win and the version current as it settled refuses its mutation; a conflicting call is no win and lost every attempt to a win made while it ran |
| `Commit.RealTimeOrder` | core/invariants/commit.ts:47-91 | a call that settled before another began stands no later in the order of versions |
| `Commit.EveryVersionConsistent` | core/invariants/commit.ts:47-91 | every version any interleaving installs, up to the current state, satisfies the ticket invariant |
| `Commit.IssuesBounded` | core/invariants/mutations.ts:69-79 | an event's issued count moves by exactly its committed issues, so at most its free capacity of them commit |
| `Commit.TransfersDistinct` | core/invariants/mutations.ts:230-240 | at most one transfer commits per nonce and per transfer id |
| `Commit.RedeemedStep` | core/invariants/checker.ts:20-27 | a redeemed ticket changes only when an issue reuses its id |
| `Commit.RedeemedForever` | core/invariants/mutations.ts:303-373 | from its redemption on, until its id is issued again, a ticket never changes |
| `Commit.SecondRedemptionNeedsReissue` | core/invariants/mutations.ts:303-373 | between two committed redemptions of one ticket some committed issue reused its id |
| `Commit.ReissueAllowsSecondRedemption` | core/invariants/mutations.ts:53-147 | the reuse is possible: issuing accepts an id in use, and the ticket is then redeemed twice |
| `Commit.MemoryStateCell.constructor` | core/invariants/commit.ts:47-48 | a new cell holds the initial state at version 0 |
| `Commit.MemoryStateCell.CompareAndSet` | core/invariants/commit.ts:53-57 | the set wins iff the version is the expected one; it moves version and state together or not at all |
| `Commit.CommitMutation` | core/invariants/commit.ts:76-91 | with any mutations committed by others between its read and its set, the cell moves by the wins in order, this call's mutation among them iff it reports success; a refusal is judged on the latest state; a conflict means as many rival wins as attempts |
| `Checker.CheckTicket` | core/invariants/checker.ts:41-101 | the flags of one ticket are exactly its violations |
| `Checker.CheckTickets` | core/invariants/checker.ts:41-101 | one pass flags exactly the ticket violations and counts each event's tickets |
| `Checker.CheckEvents` | core/invariants/checker.ts:104-132 | the event pass flags exactly the supply and capacity violations |
| `Checker.CheckTransfers` | core/invariants/checker.ts:137-175 | the transfer pass flags exactly the transfers whose nonce is on record or came before |
| `Checker.VerifyAll` | core/invariants/checker.ts:35-178 | the flags are exactly the violations of the state |
| `Checker.CleanExactlyWithoutTransfers` | core/invariants/checker.ts:161-174 | the claim that a consistent state has no violations fails: of a consistent state under the price ceiling the checker flags exactly every committed transfer |
| `Checker.FirstTransferIsFlagged` | core/invariants/checker.ts:20-27 | it happens: a consistent state with nothing flagged accepts a transfer, and the consistent state it commits is flagged |
| `Backfill.Goal` | core/migration/backfill.ts:288-335 | where a record should end: transformed when the transform applies and succeeds, untouched when it declines or throws; its id never changes |
| `Backfill.ProcessEffect` | core/migration/backfill.ts:288-335 | what processing one record in apply mode does to the target, the journal and the tally, whatever the transform and the write do |
| `Backfill.ProcessFinishes` | core/migration/backfill.ts:288-335 | processing any image of a record an operator may hold, even a stale one, leaves its row at the goal |
| `Backfill.SaveConverges` | core/migration/backfill.ts:246-345 | a finished batch may be checkpointed: everything up to its last id is done and the tally balances |
| `Backfill.HistoryConverges` | core/migration/backfill.ts:195-364 | any history of any number of operators, with crashes between any two awaits, halts, failing sources, lost races and resumes, keeps every row original or finished and scanned = updated + unchanged + skipped + failed in every saved checkpoint |
| `Backfill.CompletedMeansTransformed` | core/migration/backfill.ts:195-364 | a history that leaves a completed checkpoint leaves the record-by-record transform of the original |
| `BackfillRun.MemoryBackend.constructor` | core/migration/backfill.ts:418-450 | a new backend holds the given rows and no checkpoint |
| `BackfillRun.MemoryBackend.ReadBatch` | core/migration/backfill.ts:440-444 | a batch is the next `limit` records after an id, in id order, and fewer only at the end |
| `BackfillRun.MemoryBackend.Save` | core/migration/backfill.ts:424-429 | a checkpoint is saved iff the stored revision is the expected one |
| `BackfillRun.MemoryBackend.ProcessRecord` | core/migration/backfill.ts:288-335 | the loop body on one record is the specified turn, in place |
| `BackfillRun.MemoryBackend.ApplyBatch` | core/migration/backfill.ts:288-335 | a batch visits its records in order and journals what it changes |
| `BackfillRun.MemoryBackend.OneBatch` | core/migration/backfill.ts:246-345 | one read, apply and save: visited records are those of the batch, and the stored journal still undoes to the origin |
| `BackfillRun.MemoryBackend.RunBatches` | core/migration/backfill.ts:246-364 | the batch loop, with any reads and writes failing and the process stopping after any saved batch: a report is missing only when a read failed after that many full batches or the process stopped; a report counts exactly the records visited and, when every write lands, exactly those the transform fails on; completed iff those stay within the limit |
| `BackfillRun.MemoryBackend.RunBackfill` | core/migration/backfill.ts:195-364 | a refused run changes nothing and answers why; a dry run changes nothing; the rollback stored restores what the one before did; an applying run stores how far it came; with working reads the answer is a report, completed iff the transform fails on at most `maxFailures` of the records ahead |
| `BackfillRun.MemoryBackend.RollbackBackfill` | core/migration/backfill.ts:378-415 | images are written back newest first and leave the journal as their writes succeed; when all do the target is the origin and the checkpoint rolled back |
| `BackfillRun.FullRollback` | core/migration/backfill.ts:378-415 | a rollback whose writes all succeed is the full undo and leaves no image |
| `BackfillRun.CompletedRun` | core/migration/backfill.ts:246-364 | a completed run whose writes landed has finished exactly the records after the one it resumed from |
| `BackfillRun.MemoryBackend.RunThenRollBack` | core/migration/backfill.ts:227-415 | any runs one after another from no checkpoint - dry, applied, resumed or restarted, any transforms, failing reads and writes, stopped after any saved batch - then a rollback whose writes succeed: the rows are the very first ones |
| `BackfillRun.RollbackRestoresExactly` | core/migration/backfill.ts:195-415 | after any history of any number of operators with crashes anywhere and lost races, a rollback gives a record back iff its row is untouched or an image of it is in the stored journal |
| `BackfillRollback.RollbackKeepsExactly` | core/migration/backfill.ts:378-415 | a rollback between runs keeps what the checkpoint promises iff every image is back, or no restored record lies behind a checkpoint that counts as completed or that a resume would go on from |
| `BackfillRollback.CompletedStillMeansTransformed` | core/migration/backfill.ts:195-415 | after any history of operators, crashes and such rollbacks a completed checkpoint still means the record-by-record transform |
| `BackfillRollback.ResumeSkipsRestored` | core/migration/backfill.ts:378-415 | otherwise not: an older image is restored, a newer is not, and a resume completes with the restored record untransformed |
| `BackfillRun.CrashLosesImage` | core/migration/backfill.ts:288-345 | a crash between a write and its checkpoint loses the image: nothing stored can restore the record |
| `BackfillRun.RerunRestoresExactly` | core/migration/backfill.ts:366-415 | the claim that a partly failed rollback can simply be re-run fails for a record journaled more than once: a re-run restores a record iff its oldest failed image is its oldest image |
| `BackfillRun.RerunRevivesNewerImage` | core/migration/backfill.ts:366-415 | the failing case: the newer image fails first, and the re-run brings it back over the older |
| `Lifecycle.ValidateDefinition` | core/lifecycle/lifecycle.ts:132-161 | accepts exactly the well-formed tables |
| `Lifecycle.ResolveExactly` | core/lifecycle/lifecycle.ts:163-189 | a valid table accepts exactly its own rules, stays in its states, and refuses every event in a terminal one |
| `Recovery.OperationMachine` | core/operations/recovery.ts:51-70 | the declared operation table is valid and resolves exactly as the move function does |
| `Recovery.ValidateDefinition` | core/operations/recovery.ts:126-135 | accepts exactly a named kind with at least one step and distinct non-empty step ids |
| `Recovery.OperationSlot.Persist` | core/operations/recovery.ts:203-210 | a write is kept, lost, or kept with the call stopped after it |
| `Recovery.OperationSlot.Run` | core/operations/recovery.ts:295-427 | the call in place leaves exactly the specified history of writes and invocations, and its answer |
| `Recovery.OperationSlot.RunSteps` | core/operations/recovery.ts:345-426 | the loop over the declared steps is the specified recursion |
| `Recovery.OperationSlot.Resolve` | core/operations/recovery.ts:460-507 | a human resolution in place is the specified one |
| `Recovery.OperationSlot.AbandonIt` | core/operations/recovery.ts:530-548 | abandoning in place is the specified operation |
| `RecoveryRuns.StepAt` | core/operations/recovery.ts:163-189 | in a record of the definition each step is found at its own place, replacing it touches no other, and the previous output is that of the latest succeeded step with one |
| `RecoveryRuns.HistoryLawful` | core/operations/recovery.ts:295-548 | every history of runs, resolutions and abandonings, cut short by thrown steps, lost writes and crashes anywhere, obeys the laws below at every event |
| `RecoveryRuns.StaysSettledUntilReopened` | core/operations/recovery.ts:83-87 | once a step is stored finished, or stored with its effect reported landed, every later record has it so, unless a human reopened it |
| `RecoveryRuns.NeverInvokedAgain` | core/operations/recovery.ts:227-427 | such a step is never invoked again unless a human reopened that very step in between |
| `RecoveryRuns.ReopenedStepRunsAgain` | core/operations/recovery.ts:460-507 | the exception is real, because any step may be resolved: a step stored as succeeded and resolved as not applied is invoked again by the next run |
| `RecoveryRuns.KeyedIncreasingAttempts` | core/operations/recovery.ts:137-161 | all invocations of a step carry one idempotency key, with strictly increasing attempt numbers |
| `RecoveryRuns.OrderedInvocation` | core/operations/recovery.ts:345-426 | every invocation finds the record running and all earlier steps finished, and gets the latest output before it |
| `RecoveryRuns.StatesFollowTable` | core/operations/recovery.ts:51-70 | stored states move only along the lifecycle table and never leave a terminal one; a completed record has every declared step finished |
| `RecoveryRuns.OverlappingRunRepeatsStep` | core/operations/recovery.ts:295-427 | two processes on one storage need no await for it: a second call working from the stale record invokes a step the first stored as finished |
| `RecoveryOverlap.RunAlone` | core/operations/recovery.ts:295-427 | the turn-by-turn form of a call, left alone, makes exactly the writes and invocations of the step loop |
| `RecoveryOverlap.AlwaysCoherent` | core/operations/recovery.ts:295-548 | under any interleaving of any number of runs, resolutions and abandonings every record in storage and in hand is one of the definition, and a call at a step holds it unsettled |
| `RecoveryOverlap.RepeatNeedsStaleCall` | core/operations/recovery.ts:295-548 | under any interleaving, after a step is stored finished or landed it is invoked again only after a human reopened it or another call that had loaded before that write went on to write or invoke |
| `RecoveryOverlap.OverlapRepeatsAtAwaits` | core/operations/recovery.ts:295-427 | two runs that change over only where one waits for a step: both invoke step 0, the first stores step 1 as finished, the second goes on from its stale record and invokes it again, and so does a third that loads what the second left |
| `Impact.BuildEdges` | core/dependencies/graph.ts:95-102 | the edge map holds exactly the declared dependencies, read in the walk's direction |
| `Impact.AdjacentIsEdge` | core/dependencies/graph.ts:103-103 | the neighbours of a resource are exactly its edges to known resources |
| `Impact.ChainTo` | core/dependencies/graph.ts:113-115 | the chain rebuilt from parents is the walk's path from the root |
| `Impact.BreadthFirst` | core/dependencies/graph.ts:105-122 | on any graph, cyclic or not, the loop ends with every neighbour of every discovered resource discovered at most one level below |
| `Impact.TrailIsPath` | core/dependencies/graph.ts:113-119 | the parents of a discovered resource form a path of edges as long as its depth |
| `Impact.PathsAreReached` | core/dependencies/graph.ts:105-122 | a finished walk discovers the end of every path, no deeper than the path is long |
| `Impact.DepthIsShortest` | core/dependencies/graph.ts:105-122 | discovered means reachable, and the depth is the length of a shortest path |
| `Impact.CyclesExactly` | core/dependencies/graph.ts:112-115 | every reported cycle is a closed walk of edges through the root, and one is reported iff there is one |
| `Impact.RevealAll` | core/dependencies/graph.ts:124-136 | a hidden resource gets the next alias the first time it is met and keeps it |
| `Impact.AnalyzeImpact` | core/dependencies/graph.ts:81-158 | the refusals, exactly; otherwise the report presents the finished walk in order, hidden resources under aliases throughout |
| `Impact.ImpactIsReachability` | core/dependencies/graph.ts:95-141 | the reported resources are exactly the known resources reachable from the root other than itself, each at its shortest-path depth; a cycle is reported iff the root lies on one |
| `Impact.HiddenIdsStayHidden` | core/dependencies/graph.ts:124-136 | a resource is shown by its id iff it is not hidden, or its id happens to be its own alias |
| `Impact.NamesEqualExactly` | core/dependencies/graph.ts:124-136 | two names are equal iff they name one resource or one is a plain id that reads like the alias given to the other |
| `Impact.TellsApartExactly` | core/dependencies/graph.ts:124-136 | names are equal iff the resources are, throughout a list, iff no plain id in it reads like an alias given out in it |
| `Impact.TellsApartBeforehand` | core/dependencies/graph.ts:124-136 | checkable before asking: for the aliases of one list, iff no visible id in it is redacted:n with n up to the number of hidden ids in it |
| `Impact.CycleNamesExactly` | core/dependencies/graph.ts:149-157 | the same for any two places of the reported cycles, where no kind is shown beside the name |
| `Impact.PlainIdReadsLikeAlias` | core/dependencies/graph.ts:124-136 | a visible resource called redacted:1 beside a hidden one: two resources under one name |
| `Impact.ReportListsAll` | core/dependencies/graph.ts:138-152 | in the report of a finished walk, direct and indirect entries together are every resource found, once, nearest first |
| `Cache.FirstIsLeastRecent` | core/cache/bounded-cache.ts:180-183 | the first key of the map is the least recently touched one |
| `Cache.StepRefines` | core/cache/bounded-cache.ts:138-260 | every operation of the insertion-ordered map matches a step of a cache that only stamps each touch, answer included |
| `Cache.RunRefines` | core/cache/bounded-cache.ts:138-260 | over every sequence of operations the map answers as that cache does, evicting a least recently touched key, and holds the same entries |
| `Cache.SizeBounded` | core/cache/bounded-cache.ts:180-183 | no run leaves more than `maxEntries` entries |
| `Cache.HitIsLastWrite` | core/cache/bounded-cache.ts:138-185 | a hit is the value of the last accepted write for the key, within that write's time to live, the key held without interruption since |
| `Cache.ReadsAreCounted` | core/cache/bounded-cache.ts:138-154 | hits and misses together count every read once |
| `CacheLoads.AlwaysTidy` | core/cache/bounded-cache.ts:187-232 | under every interleaving a registered load is one of that key and has not finished |
| `CacheLoads.RegistrationStep` | core/cache/bounded-cache.ts:187-232 | an event unregisters an unfinished load iff it drops that key; another load finishing never does |
| `CacheLoads.RegisteredExactly` | core/cache/bounded-cache.ts:187-232 | an unfinished load is the registered one iff no operation invalidated its key since it began |
| `CacheLoads.LoadStoresExactly` | core/cache/bounded-cache.ts:198-209 | a load's value reaches the cache iff the load succeeded and no operation invalidated its key while it was in flight; otherwise settling changes nothing |
| `CacheLoads.SingleFlight` | core/cache/bounded-cache.ts:195-211 | when a second load of a key begins, the first has finished or was dropped by an invalidation |
| `CacheLoads.LoadsAreOperations` | core/cache/bounded-cache.ts:187-232 | every interleaving of calls, loads and invalidations leaves the cache of some plain sequence of operations |
| `CacheLoads.LoadsKeepTheBound` | core/cache/bounded-cache.ts:187-232 | hence the size bound holds under every interleaving |
| `CacheObject.PassIsWhere` | core/cache/bounded-cache.ts:221-232 | visiting the keys one by one and deleting the chosen ones leaves what their absence leaves, loads included |
| `CacheObject.BoundedCache.constructor` | core/cache/bounded-cache.ts:105-119 | a new cache is empty with no loads |
| `CacheObject.BoundedCache.Get` | core/cache/bounded-cache.ts:138-154 | a read in place is the specified read |
| `CacheObject.BoundedCache.Set` | core/cache/bounded-cache.ts:156-185 | a write in place, with its refusals and eviction, is the specified write |
| `CacheObject.BoundedCache.GetOrLoad` | core/cache/bounded-cache.ts:187-212 | a hit starts nothing; otherwise the caller gets the registered load's token, new iff none was registered |
| `CacheObject.BoundedCache.Settle` | core/cache/bounded-cache.ts:202-206 | a settled load writes iff it is still registered |
| `CacheObject.BoundedCache.Finish` | core/cache/bounded-cache.ts:207-209 | a finished load unregisters itself and no other |
| `CacheObject.BoundedCache.Invalidate` | core/cache/bounded-cache.ts:214-219 | drops the key's entry and its load |
| `CacheObject.BoundedCache.InvalidateWhere` | core/cache/bounded-cache.ts:221-232 | drops the chosen entries and their loads, and counts the entries |
| `CacheObject.BoundedCache.Clear` | core/cache/bounded-cache.ts:234-260 | drops everything iff permitted |
| `PercentCoding.Utf8Gathers` | core/pagination/cursor.ts:32-34 | the UTF-8 octets of every character past ASCII give its code point back |
| `PercentCoding.RoundTrip` | core/pagination/cursor.ts:32-47 | every string is read back from its percent-encoding exactly |
| `PercentCoding.EncodedAlphabet` | core/pagination/cursor.ts:32-34 | an encoded string holds unreserved characters and percent signs alone, and is empty iff the string is |
| `Pagination.CursorRoundTrip` | core/pagination/cursor.ts:32-47 | a cursor gives back its key and offset iff the key is not empty; otherwise it reads as no cursor |
| `Pagination.CursorInjective` | core/pagination/cursor.ts:32-34 | different non-empty keys or offsets never share a cursor |
| `Pagination.ResumesAfterKey` | core/pagination/cursor.ts:59-69 | with an order on keys a cursor resumes at the first row after its key, whether or not that row still exists |
| `Pagination.PageIsNext` | core/pagination/cursor.ts:54-79 | a page is the first visible rows after the last key seen, and has a cursor iff rows remain |
| `Pagination.NoRepeats` | core/pagination/cursor.ts:54-79 | following cursors while rows are inserted, deleted or hidden, every row of a later page is ordered after every row of an earlier one |
| `Pagination.NothingSkipped` | core/pagination/cursor.ts:54-79 | when such a walk ends, every key that all its requests could see was returned |
| `Pagination.EmptyKeyRestarts` | core/pagination/cursor.ts:36-47 | a cursor on a row with an empty key starts the walk over |
| `Pagination.PagesAreAll` | core/pagination/cursor.ts:54-79 | over unchanged data with distinct non-empty keys the pages, each of any size, are together the data |
| `Pagination.WalkEnds` | core/pagination/cursor.ts:54-79 | any pages so far extend, by following cursors with any size, to the last row |
| `FieldAuthorization.ApplyFieldLevelAuthorization` | core/export/exporter.ts:212-260 | the loop shows and counts as specified |
| `FieldAuthorization.ShownExactly` | core/export/exporter.ts:212-260 | a field is shown iff it was asked for and is authorized, in full, or masked when its rule says so |
| `FieldAuthorization.NothingUnauthorized` | core/export/exporter.ts:212-260 | nothing of an unauthorized field is shown but the mask |
| `FieldAuthorization.DeniedExactly` | core/export/exporter.ts:197-204 | the denied fields are exactly the requested ones without authorization |
| `FieldAuthorization.EvaluateFieldAuthorization` | core/export/exporter.ts:175-207 | the loop collects exactly the denied fields and authorizes iff there is none |
| `FieldAuthorization.StrictExactly` | core/export/exporter.ts:175-260 | the strict gate passes a projection iff no record whatever would have a field withheld under it |
| `Exports.Digest` | core/export/exporter.ts:279-283 | the hash loop computes the 32-bit FNV-1a digest |
| `Exports.CursorRecordKey` | core/export/exporter.ts:267-284 | the record's base key: the digest of its id, paging token, index or JSON text, in eight hex digits |
| `Exports.CollectWithCursorKeys` | core/export/exporter.ts:286-294 | the occurrence map numbers each record among those with its digest |
| `Exports.BaseIsFixedWidth` | core/export/exporter.ts:267-284 | the base key of every record has one width |
| `Exports.KeysDistinct` | core/export/exporter.ts:267-294 | cursor keys are pairwise distinct even when digests collide, and none is empty |
| `ExportForms.DeliveredByExports` | core/export/exporter.ts:452-504 | walking the rows by cursor is asking for export after export, each with the cursor of the one before |
| `ExportForms.UnpagedIsAll` | core/export/exporter.ts:468-488 | the unpaged export holds every record, once, in order |
| `ExportForms.PagesAreTheWhole` | core/export/exporter.ts:452-504 | all cursor pages, of whatever sizes, are together the one unpaged export, with the same filtered total |
| `ExportStream.Stream.constructor` | core/export/exporter.ts:617-623 | a new stream has delivered nothing |
| `ExportStream.Stream.Look` | core/export/exporter.ts:627-630 | looking at the signal cancels iff it is aborted at that look, and changes nothing else |
| `ExportStream.Stream.Yield` | core/export/exporter.ts:638-644 | the buffer becomes the next chunk; the stream is abandoned iff the consumer leaves at that chunk |
| `ExportStream.Stream.Pull` | core/export/exporter.ts:626-645 | a record is read iff the signal is not aborted at its look; chunks and buffer together stay exactly what was read so far, all chunks full, and whatever stopped the stream was the first to do so |
| `ExportStream.Stream.Close` | core/export/exporter.ts:647-659 | cancelled iff the last look finds the signal aborted; otherwise the remainder is delivered, and the stream completed iff the consumer stayed |
| `ExportStream.StreamExportRecords` | core/export/exporter.ts:564-673 | the refusals of the batch form in the same order; completed iff the signal is never aborted while it reads and the consumer never leaves, cancelled or abandoned by the first look or chunk that says so; a completed stream delivers exactly the collected records in chunks full but perhaps the last, with the whole filtered total; a cancelled one a prefix made of whole chunks, its filtered total counting every record read |
| `ExportStream.CompletesExactly` | core/export/exporter.ts:617-659 | the iff from the signal, the consumer and the number of records alone |
| `ExportStream.ThreeFormsAgree` | core/export/exporter.ts:358-673 | for one request, a completed stream of any chunk size, a walk of `exportRecords` calls by cursor with any page sizes, and the unpaged `exportRecords` hold the same records and filtered totals |
| `ExportReplay.OnFirst` | core/export/exporter.ts:358-523 | the first submission under a key is answered by the export and settles the key, unless the quota refuses it and releases the key |
| `ExportReplay.OneArtifact` | core/export/exporter.ts:367-387 | a key that minted an envelope runs as new again only after a submission found it lapsed |
| `ExportReplay.RetryReplays` | core/export/exporter.ts:367-387 | any retry before that is answered with the first envelope, redacted once per replay, or as a conflict iff its digest differs |
| `ExportReplay.DuplicateExportReplays` | core/export/exporter.ts:358-523 | a duplicate of an accepted export before it lapses answers the first envelope, whatever the sources and the quota are by then |
| `ExportReplay.RefusalBarsKey` | core/export/exporter.ts:385-425 | a refusal is not replayed but bars the key: until it lapses no submission of it is answered with an envelope, even one the export would accept |
| `Ownership.SameKeyExactly` | core/ownership/ownership.ts:54-56 | two resources share a key iff they are one, or the end of one's type, after a colon, stands at the start of the other's id |
| `Ownership.TypesMeetExactly` | core/ownership/ownership.ts:54-56 | two types share some key iff they are equal or one, followed by a colon, begins the other |
| `Ownership.ResourceKeyInjective` | core/ownership/ownership.ts:54-56 | so resource keys tell resources apart when types hold no colon |
| `Ownership.ResourceKeysCollide` | core/ownership/ownership.ts:54-56 | with a colon in the type two resources share a key |
| `Ownership.AlwaysIndexed` | core/ownership/ownership.ts:67-469 | in every reachable state the index maps a key to an id iff that proposal is pending for that key; every settled proposal was settled in time for its status |
| `Ownership.OnePendingPerResource` | core/ownership/ownership.ts:147-184 | at most one proposal is pending per resource key, and the index names it |
| `Ownership.StepMoves` | core/ownership/ownership.ts:67-469 | all an operation can do to a proposal: nothing, expire it when due, or settle it as its own party or a maintainer decides before the deadline |
| `Ownership.SettledForever` | core/ownership/ownership.ts:67-469 | once settled, a proposal stays and never changes again |
| `Ownership.AcceptedInTime` | core/ownership/ownership.ts:223-268 | an accepted proposal was accepted before its deadline, which is one minute to thirty days after it was made |
| `Ownership.InitiateExactly` | core/ownership/ownership.ts:119-184 | a sound offer is taken iff no live proposal for the resource stands in the way |
| `Ownership.ActiveExactly` | core/ownership/ownership.ts:394-416 | the active proposal of a resource is the one live proposal, if there is one |
| `Ownership.DecideExactly` | core/ownership/ownership.ts:223-380 | accept, cancel and reject stand iff the proposal is pending, in time, and the caller's to decide |
| `Ownership.SweepExactly` | core/ownership/ownership.ts:448-469 | after a sweep everything that was due is expired and nothing else changed |
| `OwnershipKeys.OnFirst` | core/ownership/ownership.ts:97-190 | the first keyed offer or acceptance runs the operation, and its idempotency record is settled iff that succeeds |
| `OwnershipKeys.RefusedKeyStaysInFlight` | core/ownership/ownership.ts:97-270 | a refused one leaves its key in flight: until the claim lapses every retry is refused as in flight, whatever the store would answer by then, and changes nothing |
| `OwnershipKeys.LapsedKeyIsFreed` | core/ownership/ownership.ts:97-270 | the first call of the key after the claim lapsed is refused as expired, changes nothing, and frees the key |
| `OwnershipKeys.SuccessfulKeyReplays` | core/ownership/ownership.ts:97-270 | a successful one is done once: every retry before the claim lapses is answered its proposal, redacted, or conflicts, and changes nothing |
| `OwnershipObject.OwnershipTransferStore.constructor` | core/ownership/ownership.ts:45-52 | a new store is empty |
| `OwnershipObject.OwnershipTransferStore.CheckExpiration` | core/ownership/ownership.ts:67-85 | a lapsed proposal is expired where it is looked at |
| `OwnershipObject.OwnershipTransferStore.Initiate` | core/ownership/ownership.ts:92-194 | initiating in place is the specified operation; with a fresh id the history stays reachable |
| `OwnershipObject.OwnershipTransferStore.Decide` | core/ownership/ownership.ts:201-380 | accept, cancel and reject in place are the specified operation |
| `OwnershipObject.OwnershipTransferStore.GetTransfer` | core/ownership/ownership.ts:385-389 | looking a proposal up checks it for expiry |
| `OwnershipObject.OwnershipTransferStore.GetActiveTransferForResource` | core/ownership/ownership.ts:394-416 | looking up the active proposal in place is the specified operation |
| `OwnershipObject.OwnershipTransferStore.QueryTransfers` | core/ownership/ownership.ts:421-442 | a query leaves the store a sweep leaves and lists the matching proposals in insertion order |
| `OwnershipObject.OwnershipTransferStore.SweepExpired` | core/ownership/ownership.ts:448-469 | a sweep expires and counts exactly the lapsed proposals |
| `OwnershipObject.OwnershipTransferStore.Clear` | core/ownership/ownership.ts:472-475 | clearing empties the store |
| `Idempotency.StepKeeps` | core/idempotency/idempotency.ts:284-430 | a present record survives an event iff it is not removed: lapsed when looked at, released in flight, or lost; a survivor is the same claim |
| `Idempotency.AtMostOnce` | core/idempotency/idempotency.ts:262-405 | across any interleaving of attempts, endings and crashes, work is started twice for a key only if in between the first record was removed |
| `Idempotency.InFlightExactly` | core/idempotency/idempotency.ts:362-405 | while its record lives, a claim is in flight iff no call for its key has ended since |
| `Idempotency.LaterAttempts` | core/idempotency/idempotency.ts:284-360 | any attempt on a key whose claim's record lives is answered from the history alone: a different digest or operation is a conflict, a claim nobody ended is in flight, otherwise it is replayed |
| `Idempotency.OutcomeAfterReplays` | core/idempotency/idempotency.ts:352-387 | a settlement never changes while its record lives but for redaction: after r replays the stored response is the settled one redacted r + 1 times |
| `Idempotency.ReplaysTheOutcome` | core/idempotency/idempotency.ts:284-405 | every accepted attempt after a settlement, while the record lives, is answered with that settlement, success or failure; the r-th replay of a response has it redacted r times |
| `Idempotency.RepliesAlikeExactly` | core/idempotency/idempotency.ts:352-353 | so all replays of a response are alike iff redacting it twice is redacting it once |
| `Idempotency.JsonRepliesAlikeExactly` | core/idempotency/idempotency.ts:216-230 | for a JSON response: all replays are alike iff it is a bare text, number, boolean or null, or every text that redaction keeps in it, at any depth, is one whose scrubbed form does not itself look like a secret and is not too long to scan |
| `Idempotency.SecondReplayDiffers` | core/idempotency/idempotency.ts:216-230 | a whole family of object responses, a long bearer token after an S in a field, answered one way by the first replay and another by the second |
| `Responses.RedactTwiceExactly` | core/telemetry/telemetry.ts:96-152 | redacting a redacted value changes nothing iff every text kept in it is steady: by induction over lists and objects, with sensitive names masked and what lies too deep cut |
| `Responses.PersistTwiceExactly` | core/idempotency/idempotency.ts:216-230 | the same for storing a response, which redacts lists and objects and leaves bare values alone |
| `Responses.RedactedHoldsNoSecret` | core/telemetry/telemetry.ts:96-152 | no text anywhere in a redacted value holds a seed or a bearer token |
| `Responses.TokenNotePersisted` | core/telemetry/telemetry.ts:96-152 | the failing input: what storing it once and twice leaves in the field |
| `Redaction.ScrubbedIsClean` | core/telemetry/telemetry.ts:76-85 | scrubbed text holds no seed and no bearer token |
| `Redaction.ScrubStableExactly` | core/telemetry/telemetry.ts:76-85 | scrubbing twice is scrubbing once iff the scrubbed text does not look like a secret and is not too long, or is cut already |
| `Redaction.TokenAfterS` | core/telemetry/telemetry.ts:76-85 | the failing family: a long bearer token after an S leaves text that itself looks like a secret |
| `Idempotency.OwnOutcome` | core/idempotency/idempotency.ts:464-492 | a claim made while no other call works for the key is settled with its own outcome, unless its record is removed first |
| `Idempotency.StaleWorkSettlesNextClaim` | core/idempotency/idempotency.ts:362-387 | otherwise not: work that outlives its lapsed claim settles the next claim, whose own outcome is then refused |
| `IdempotencyObject.IdempotencyStore.constructor` | core/idempotency/idempotency.ts:198-203 | a store opens on the given storage and knows no key |
| `IdempotencyObject.IdempotencyStore.Begin` | core/idempotency/idempotency.ts:284-360 | claiming or replaying in place is the specified operation |
| `IdempotencyObject.IdempotencyStore.Settle` | core/idempotency/idempotency.ts:362-387 | `complete` and `fail` in place are the specified settlement |
| `IdempotencyObject.IdempotencyStore.Abandon` | core/idempotency/idempotency.ts:389-405 | releasing in place is the specified operation |
| `IdempotencyObject.IdempotencyStore.Lookup` | core/idempotency/idempotency.ts:407-415 | looking up in place drops a lapsed record |
| `IdempotencyObject.IdempotencyStore.Sweep` | core/idempotency/idempotency.ts:417-430 | a sweep drops, forgets and counts exactly the lapsed records among the known keys |
| `IdempotencyObject.IdempotencyStore.WithIdempotency` | core/idempotency/idempotency.ts:464-492 | work is started iff the key is claimed; then its outcome is returned and settled; otherwise the recorded outcome or the refusal is returned |
| `IdempotencyObject.SecondCallReplays` | core/idempotency/idempotency.ts:464-492 | called again with the same request before the record lapses, a protected call replays the first outcome |
| `Fees.ValidateSchedule` | core/fees/fees.ts:45-55 | accepts exactly the schedules whose lines are sound and whose ids are distinct |
| `Fees.RateRounds` | core/fees/fees.ts:90-91 | each rate amount r satisfies −5000 < 10000·r − amount·bp ≤ 5000 |
| `Fees.ChargeMonotone` | core/fees/fees.ts:88-103 | a higher gross amount never lowers a line's charge |
| `Fees.Conserved` | core/fees/fees.ts:82-116 | an accepted breakdown has gross = net + sum of lines, with net and every line never negative |
| `Fees.RateTotal` | core/fees/fees.ts:88-105 | n lines without a minimum total within n/2 units of exact |
| `Fees.RatesFitExactly` | core/fees/fees.ts:88-106 | a rate-only schedule is accepted iff amount·rates + 5000·lines − what rounding leaves ≤ 10000·amount |
| `Fees.RatesFit` | core/fees/fees.ts:105-106 | so rates that leave half a unit a line are never refused for exceeding the amount |
| `Fees.HalvesExceed` | core/fees/fees.ts:105-106 | rates of one hundred percent in all can still be refused: two halves of one unit both round up |
| `Fees.ReconcileFees` | core/fees/fees.ts:141-158 | the loops report the specified mismatches, field by field |
| `Fees.MatchesExactly` | core/fees/fees.ts:141-158 | a settlement matches iff gross, net and the figure under every line id are the breakdown's own |
| `Amounts.AssetRoundTrip` | core/fees/fees.ts:62-79 | a formatted asset amount reads back as itself iff it is not negative; a negative one is refused |
| `Amounts.StroopsRoundTrip` | core/format/amount.ts:95-109 | every whole number of stroops, of either sign and any size, reads back as it was written |
| `Amounts.ParseAmountExactly` | core/format/amount.ts:68-88 | user input is accepted iff, trimmed, it is a canonical amount of allowed sign within 64 bits, and then reads as that amount |
| `Amounts.ParseFormatted` | core/format/amount.ts:68-109 | a formatted amount is accepted back iff it fits in 64 bits and its sign is allowed |

## Left out

- SHA-256 (`core/ledger/sha256.ts`) and canonical JSON: the digest is a parameter.
- Safe two-step ticket transfers (`initiateSafeTicketTransfer`, `acceptSafeTicketTransfer`): they compose the ownership store and `transferTicket`, both modelled.
- Cross-checking the audit trail against the ledger (`verifyAuditTrail`): a lookup per event.
- Telemetry, audit emission and quota accounting: side channels; only a quota refusal is a parameter.
- Locale formatting of amounts (`formatAmount`, `localeSymbols`): depends on `Intl`.
- `explainFees`: text built from figures the model has.
- `applyTransition` beyond its state part, lifecycle views and the authorized wrappers of recovery: permission checks around the modelled calls.
- `canonicalize` and `requestDigest`: a request is represented by its digest, so requests whose digests collide are not told apart, as in the code.
- Impersonation, feature flags, freeze windows, risk scoring, notifications, UI and network code: easy checks or not part of the core.
- The lifecycle's `from|event` rule key is a pair, so names holding a bar cannot clash.
- Non-integer numbers: page sizes, offsets, basis points and instants are integers; the float sum of safe integers is exact, so prices are integers.
- Strings are sequences of Unicode scalar values: a lone surrogate, for which `encodeURIComponent` throws, has no counterpart, and code-unit order differs from scalar order only beyond the Basic Multilingual Plane.
- Aliasing of journal arrays in the in-memory checkpoint store: checkpoints are values.
- Pagination.CursorRoundTrip: offsets are exact numbers; a cursor whose offset exceeds the safe integers, which the source rounds, or even reads as infinite, is not modelled.
- Idempotency.JsonRepliesAlikeExactly: a response is a JSON value; functions, symbols, errors, dates, shared and circular references, which `redact` treats before the first write, have no counterpart, and `undefined` is null.
- Ownership.AlwaysIndexed: assumes generated ids are fresh, as the source does by drawing them at random.
- Exports.KeysDistinct: holds for any digest of fixed width, so it does not depend on the digest's quality.
- ExportReplay.OneArtifact: submissions come one after another, as the synchronous source runs them; the digest is the request's, so fields left out of it (requested fields, strictness, lifetime) do not tell submissions apart, as in the code.
- BackfillRollback.RollbackKeepsExactly: a rollback comes while no operator is at work; one that overlaps a run is not modelled.
- RecoveryRuns.OverlappingRunRepeatsStep: changes over between a load and the first write, a stretch one process runs without an await; `RecoveryOverlap.OverlapRepeatsAtAwaits` changes over at awaits alone.
