# HarnessMesh: verified models of its state machines

HarnessMesh coordinates coding agents. This project models the parts of it that decide something: when a change may be
committed, what a budget ledger adds up to, who runs a request that was sent twice, what an archive file means, what a
Merkle root and a signature bind, how a context is cut down, which findings are duplicates, when an agent is refused,
and what a replay buffer returns. `dafny verify dfyconfig.toml` checks all of it.

Each area has a specification in functions on values, a class or method in the form of the source that is proved
against it, and lemmas that prove what the source promises about every run or every input. For every operation one of
them says what it answers and what it leaves behind, in terms of the rows, tokens, elements or bytes alone.

| area | files |
|---|---|
| proof policy and path patterns | `Text.dfy`, `PathPatterns.dfy`, `ProofPolicy.dfy` |
| MeshCommit | `MeshStore.dfy` (rows), `MeshGate.dfy` (invalidation, verdict), `MeshSpec.dfy` (operations as steps), `MeshCommit.dfy` (the coordinator), `MeshTheorems.dfy` (invariants and runs), `MeshLifecycle.dfy` (what every operation answers and writes), `MeshObligations.dfy` (what is owed and proved), `MeshWitness.dfy` |
| budget | `BudgetLedger.dfy` (operations and engine), `BudgetAnswers.dfy` (when and how much), `BudgetRuns.dfy` (interleavings), `BudgetCaps.dfy` (cost caps) |
| idempotency | `IdempotencyCache.dfy`, `IdempotencyProtocol.dfy` (bridge), `EngineIdempotency.dfy` (engine) |
| knowledge archive | `ArchiveFormat.dfy` (bytes), `ArchiveLayout.dfy`, `ArchiveRecords.dfy` (lines), `ArchiveIndex.dfy`, `ArchiveCompaction.dfy`, `ArchiveLog.dfy`, `KnowledgeArchive.dfy` (the archive object), `ArchiveWitness.dfy` |
| assurance | `MerkleTree.dfy`, `MerkleLevels.dfy`, `Assurance.dfy` |
| others | `ContextParts.dfy`, `ContextOrder.dfy`, `ContextBudget.dfy`, `Deduplication.dfy`, `CircuitBreaker.dfy`, `ReplayRing.dfy` |

## Modelling decisions

- The worktree hash is an environment read: every operation receives what each of its reads returned, independently of
  the others, and a read may fail. The diff is an arbitrary list of paths. Any number of changes share the worktree.
- The store is three maps with the conflict rules of the SQLite store. For MeshCommit its writes succeed, and its
  listings come in any order. For the budget every lookup and every write may fail.
- An operation that holds a mutex is one step. `finish` and `abort` are two: the locked section, then the close.
- Costs are whole micro-dollars, 3 for an input token and 15 for an output token. Times are integers, 0 being Go's zero
  time. Go strings are sequences of one-byte characters, so that lengths are byte lengths.
- Compression, encryption, SHA-256, hex, base64, Ed25519, JSON, tokenising, path cleaning and globbing, title and case
  folding and secret redaction are functions of which only stated laws are used: decoding undoes encoding, digests have
  32 bytes, a signature verifies, JSON lines contain no newline and show every field, redaction is idempotent. No
  injectivity of the hash is used: where it matters, the lemma returns two inputs that collide. `KeyedEnvironmentExists`
  and `LawfulCryptoExists` show that the laws can be met, for an archive with a key and for signed evidence.
- The context of a compaction is cancelled after any given number of appended records, or never.
- Ids made from the clock are fresh where a lemma says so. What a new change owes is stated for a change id under which,
  and under the obligation ids it leads to, nothing is stored yet.

## What the models found

- `SubmitEvidence` and `ExecuteProof` save evidence before the gate reads the tree. If failing evidence is saved and
  that read fails, the change stays committable, and a commit goes through (`CommitDespiteFailure`,
  `RefutedCommitIsReachable`). `UnrefutedExactly` proves that this is the only way, change by change, and that the next
  completed gate evaluation of the change ends it.
- The state diagram of the repository's README calls aborted a terminal state; a gate evaluation of an aborted change
  whose proofs hold makes it committable again, and it can be committed (`AbortedIsNotTerminal`).
  `FinalChangesLeaveExactly` says when. The model follows the code.
- Path-scoped evidence survives a change of other files but is tied to its old tree, so it never lets a new tree pass
  (`NewTreeNeedsNewEvidence`).
- Obligation rows are keyed by name; two demanded proof types with one title leave one row (`NamesCanClash`).
- The cost cap handed to an invocation is computed before its own estimate is charged, and nothing lowers it when
  others reserve. An invocation that spends its cap keeps the cost limit if and only if the others hold and have spent
  no more than when it was granted (`CapKeepsCeilingExactly`). Two invocations that both reserve and then spend their
  caps overrun it always (`CostCapsAloneBreakTheCeiling`): with a limit of 0.10 dollars and 100 tokens each way, 0.1982
  dollars are spent (`CeilingIsBrokenWithinTheCaps`). Keeping to the reservations keeps every limit (`CeilingHolds`).
- Signing does not clear the digest field before fingerprinting, verification does: evidence signed a second time does
  not verify (`SigningTwiceBreaks`).
- Compacting one tenant relabels records without tenant, and a second compaction then deletes those that are old
  (`NamelessRecordsChangeHands`, `CompactTwiceExactly`).
- A failed compaction leaves its temporary index file behind, and the next one appends to it and takes it over. No
  frame whose block has all query terms as tokens is ever skipped (`NoMatchIsSkipped`). But a search that no block
  matches by tokens scans all of them for substrings, and a stale entry with all terms turns that scan off: the frames
  it does not name are no longer read, and what they contain is not found (`StaleEntriesExactly`, `LoseSample`).
  `RebuildIndex` repairs it (`LoseFrames`).
- The index is read with a line limit of 64 KiB. One block with so many terms that its line is longer sends every search
  to a scan of all blocks (`IndexIsUsedExactly`).
- The engine joins session and key by a colon for its in-flight table, so that different requests can wait for each
  other (`InflightKeysClashExactly`); results are kept apart.
- Findings without an id mark nothing and list their duplicates again on every pass (`SecondPassExactly`).
- The comment in `recordForReplay` says the id set is rebuilt from the ring; the code empties it. The model follows the
  code.

## Model

| member | source | states |
|---|---|---|
| `ProofPolicy.ResolveProofPolicy` | internal/config/config.go:418-522 | The three loops return the specifications of the demands of the defaults and of the matching rules |
| `ProofPolicy.TestRule` | internal/config/config.go:449-464 | A rule matches if it has no paths or some pattern matches some affected path |
| `ProofPolicy.AddProof` | internal/config/config.go:423-434 | One proof type is added at its first occurrence only, and its scope is appended to what it had |
| `ProofPolicy.AddRules` | internal/config/config.go:448-470 | The rule loop adds exactly the demands of the matching rules, in order |
| `ProofPolicy.BuildSpecs` | internal/config/config.go:472-521 | One specification a type, in order of first demand, with all scopes demanded for it |
| `ProofPolicy.KindsAreDemanded` | internal/config/config.go:418-434 | The types are distinct, non-empty, and exactly the demanded ones |
| `ProofPolicy.PolicyIsExact` | internal/config/config.go:418-522 | A proof type is specified, as required, if and only if a default or a matching rule asks for it |
| `ProofPolicy.MorePathsMoreProofs` | internal/config/config.go:447-470 | Affecting more paths never drops an obligation type |
| `PathPatterns.PatternsMatchExactly` | internal/config/config.go:397-416 | On cleaned paths: a pattern matches itself, the patterns for everything match everything, a directory with two stars matches itself and what lies below it, two stars before a name match the name in every directory, and the rest is left to globbing |
| `PathPatterns.ScopesMatchExactly` | internal/collaboration/meshcommit.go:539-551 | A changed path touches a scope if the pattern matches it, or is a plain prefix of it up to a final star |
| `ProofPolicy.ScopesAreExact` | internal/config/config.go:423-470 | A specification is scoped to exactly the paths of the rules that apply and ask for its type |
| `ProofPolicy.CommandsExactly` | internal/config/config.go:472-521 | Four types come with their command, all others with none; exit code 0 is expected |
| `ProofPolicy.SpellingsExactly` | internal/config/config.go:373-395 | Which spellings, in lower case and with underscores, are which type |
| `MeshCommit.MeshCommitCoordinator.CreateChange` | internal/collaboration/meshcommit.go:85-248 | Refusals in the order of the source; otherwise the change row and one row for each locked specification are saved |
| `MeshCommit.MeshCommitCoordinator.SaveObligations` | internal/collaboration/meshcommit.go:223-227 | Obligation rows are saved one after the other, a row with a taken id keeping its policy columns |
| `MeshCommit.MeshCommitCoordinator.PrepareChange` | internal/collaboration/meshcommit.go:257-318 | Refusals; otherwise the tree read becomes current and the change prepared |
| `MeshCommit.MeshCommitCoordinator.SubmitEvidence` | internal/collaboration/meshcommit.go:322-391 | Refusals (finalised, self-review, unreadable or different tree); otherwise the row is saved and the gate evaluated, with its verdict returned |
| `MeshCommit.MeshCommitCoordinator.SaveSubmitted` | internal/collaboration/meshcommit.go:360-387 | The evidence row is saved as valid, its obligation marked, a draft or prepared change put under verification |
| `MeshCommit.MeshCommitCoordinator.ExecuteProof` | internal/collaboration/meshcommit.go:394-511 | Refusals; a valid passing row for the tree is returned as it is; otherwise a proof row is saved and the gate evaluated |
| `MeshCommit.MeshCommitCoordinator.RunProof` | internal/collaboration/meshcommit.go:431-487 | The row records a pass exactly if the exit code is the expected one; no command passes; an execution error is not exit code 0 |
| `MeshCommit.MeshCommitCoordinator.FindCachedProof` | internal/collaboration/meshcommit.go:421-429 | Finds valid passing evidence for the tree if and only if there is some |
| `MeshCommit.MeshCommitCoordinator.Overlaps` | internal/collaboration/meshcommit.go:539-551 | True if and only if some scope pattern matches, or is a plain prefix of, some changed path |
| `MeshCommit.MeshCommitCoordinator.InvalidateStaleEvidence` | internal/collaboration/meshcommit.go:515-580 | Exactly the doomed rows of the change become invalid and their obligations stale; nothing else changes |
| `MeshCommit.MeshCommitCoordinator.IndexEvidence` | internal/collaboration/meshcommit.go:622-628 | A result is indexed for an obligation if and only if valid evidence of this change on this tree shows it |
| `MeshCommit.MeshCommitCoordinator.Tally` | internal/collaboration/meshcommit.go:641-650 | Whether the list holds a passing and a failing row |
| `MeshCommit.MeshCommitCoordinator.GradeOne` | internal/collaboration/meshcommit.go:638-676 | Failing evidence wins over passing, both over the stored status; a stale mark stays |
| `MeshCommit.MeshCommitCoordinator.GradeObligations` | internal/collaboration/meshcommit.go:630-676 | The loop grades every obligation of the change; its flag is the verdict, its lists are the four classes |
| `MeshCommit.MeshCommitCoordinator.RefreshTree` | internal/collaboration/meshcommit.go:600-610 | A moved tree invalidates evidence and becomes the current tree |
| `MeshCommit.MeshCommitCoordinator.EvaluateGateLocked` | internal/collaboration/meshcommit.go:589-744 | The whole evaluation: errors, the store it leaves, the verdict and the four lists |
| `MeshCommit.MeshCommitCoordinator.CommitChange` | internal/collaboration/meshcommit.go:747-858 | Refusals, among them the check of the tree just read against current and verified tree; otherwise committed with its commit id |
| `MeshCommit.MeshCommitCoordinator.AbortChange` | internal/collaboration/meshcommit.go:863-909 | Refusals; otherwise aborted |
| `MeshCommit.OfClassExact` | internal/collaboration/meshcommit.go:630-676 | A list holds exactly the obligations of its class, without repetition |
| `MeshCommit.ListsPartition` | internal/collaboration/meshcommit.go:652-675 | Every obligation of the change is in exactly one of passed, failed, stale and pending, once, and nothing else is |
| `MeshStore.ListIds` | internal/store/store.go:4031-4065 | A query lists the rows of the change, each once, in no particular order |
| `MeshGate.InvalidateOneMore` | internal/collaboration/meshcommit.go:553-559 | Invalidating rows one by one amounts to invalidating the set of them |
| `MeshGate.RefreshedShape` | internal/collaboration/meshcommit.go:600-610 | The refresh changes only validity, statuses and one tree hash, and exactly the doomed rows |
| `MeshGate.VerdictIgnoresStatuses` | internal/collaboration/meshcommit.go:636-682 | The verdict does not depend on stored obligation statuses |
| `MeshGate.GateShape` | internal/collaboration/meshcommit.go:589-702 | What a whole evaluation leaves alone, and what the change row becomes |
| `MeshGate.GateVerdict` | internal/collaboration/meshcommit.go:678-702 | Committable after the gate if and only if there is an obligation and every required one has valid passing and no valid failing evidence on the tree read |
| `MeshGate.GateIsIdempotent` | internal/collaboration/meshcommit.go:589-744 | A second evaluation on the same tree changes nothing at all |
| `MeshGate.NewTreeNeedsNewEvidence` | internal/collaboration/meshcommit.go:600-628 | Evidence that survives by its scope still proves only its own tree: on a tree without evidence nothing becomes committable |
| `MeshLifecycle.RefusedExactly` | internal/collaboration/meshcommit.go:59-909 | An operation is refused if and only if there is a reason, with an error whose reason applies, and then changes nothing |
| `MeshLifecycle.ExecutionIsRecorded` | internal/collaboration/meshcommit.go:394-511 | A proof that is run leaves one new row, passed if the command is empty or ended with the expected exit code (1 for an execution error with 0), and failed otherwise |
| `MeshLifecycle.PassedProofIsNotRunAgain` | internal/collaboration/meshcommit.go:420-428 | With valid passing evidence for the obligation on the tree nothing is written |
| `MeshLifecycle.FailedRunBlocks` | internal/collaboration/meshcommit.go:394-511 | After a required command that does not end as expected, and the gate on the same tree, the change is not ready to commit |
| `MeshLifecycle.SubmissionIsRecorded` | internal/collaboration/meshcommit.go:360-391 | Accepted evidence is saved as given, as valid; under a taken id only the validity of the earlier row is written |
| `MeshLifecycle.RowsExactly` | internal/collaboration/meshcommit.go:85-909 | The row every accepted operation leaves of every change: draft, prepared, under verification, committable or blocked or unchanged by the verdict on the tree read, committed with its id, or aborted |
| `MeshLifecycle.OnlyAbortAborts` | internal/collaboration/meshcommit.go:863-909 | A change becomes aborted if and only if it is aborted by its author or the local operator and not committed |
| `MeshObligations.CreationOwesExactly` | internal/collaboration/meshcommit.go:125-227 | A new change owes a proof of a type if and only if the policy asks for it on the affected paths: a default, or a rule that applies to one of them |
| `MeshObligations.DefaultIsOwed` | internal/collaboration/meshcommit.go:166-189 | Without a policy, or if it asks for nothing, exactly the default verification is owed |
| `MeshObligations.CreatedRowsExactly` | internal/collaboration/meshcommit.go:125-227 | The rows are required, pending, scoped to the paths of the rules that ask, with the command of their type |
| `MeshObligations.CreatedAgain` | internal/store/store.go:3973-3998 | Creating a change again sets its default obligation back to pending and rewrites nothing else |
| `MeshObligations.GateStatuses` | internal/collaboration/meshcommit.go:596-663 | The status the gate stores: failed, passed, stale (also if evidence was just invalidated) or pending, by the evidence left |
| `MeshObligations.SavedStatuses` | internal/collaboration/meshcommit.go:368-377 | What submitted and executed evidence makes of a status before the gate |
| `MeshObligations.ListsTellStatuses` | internal/collaboration/meshcommit.go:596-702 | The four lists of a gate result agree with the statuses it stores |
| `MeshObligations.NothingIsRewritten` | internal/collaboration/meshcommit.go:85-909 | Over any run no row disappears, changes keep their author, obligations their policy columns, and evidence its content |
| `MeshObligations.NobodyReviewsHimself` | internal/collaboration/meshcommit.go:333-344 | In every run no review evidence comes from the author of the change, except what the coordinator records itself |
| `MeshTheorems.GateRestores` | internal/collaboration/meshcommit.go:589-744 | A completed evaluation makes its change, whatever state it was in, ready to commit only if proved and unrefuted on the tree read |
| `MeshTheorems.StepKeepsBacked` | internal/collaboration/meshcommit.go:85-909 | Every operation keeps: a change ready to commit is proved on its current tree, which is its verified tree |
| `MeshTheorems.StepKeepsKeyed` | internal/collaboration/meshcommit.go:85-909 | Every operation keeps rows under their own ids |
| `MeshTheorems.StepExactly` | internal/collaboration/meshcommit.go:367-390 | A change ready to commit after an operation was just gated and is unrefuted, or is as before and refuted exactly if it was or this operation saved failing evidence and could not read the tree |
| `MeshTheorems.UnrefutedExactly` | internal/collaboration/meshcommit.go:367-390 | In every run with fresh evidence ids a change ready to commit is unrefuted if and only if no operation left it refuted without a completed gate evaluation of it since |
| `MeshTheorems.RunKeeps` | internal/collaboration/meshcommit.go:85-909 | Over every run from the empty store, a change ready to commit is proved on its current tree, which is its verified tree |
| `MeshTheorems.OnlyCommitCommits` | internal/collaboration/meshcommit.go:747-858 | Only CommitChange on that very change makes it committed |
| `MeshTheorems.CommitGuarantee` | internal/collaboration/meshcommit.go:747-858 | Over every run: at a commit the hash read is current and verified tree, all required obligations have valid passing evidence for it, the actor may act and write, and, with fresh evidence ids, one has valid failing evidence if and only if the change is tainted |
| `MeshTheorems.CommitDespiteFailure` | internal/collaboration/meshcommit.go:367-390 | From any proved change: failing evidence followed by an unreadable tree, then a commit, commits a refuted change |
| `MeshTheorems.FinalChangesLeaveExactly` | internal/collaboration/meshcommit.go:583-702 | A committed or aborted change, its id not used again, gets another status, then committable, if and only if a completed gate evaluation of it finds a positive verdict in the store it starts from |
| `MeshTheorems.AbortedCanBeCommitted` | internal/collaboration/meshcommit.go:583-592 | Every aborted change whose proofs hold on its tree is committable after a gate evaluation, and can then be committed |
| `MeshTheorems.StepOnlyLosesValidity` | internal/collaboration/meshcommit.go:515-580 | With fresh evidence ids no operation makes invalid evidence valid or alters a row |
| `MeshTheorems.ValidityNeverReturns` | internal/collaboration/meshcommit.go:515-580 | The same over every run |
| `MeshTheorems.SurvivalExactly` | internal/collaboration/meshcommit.go:528-577 | When a gate evaluation, asked for or run behind saved evidence, sees a moved tree, then of the valid evidence it starts from a row stays valid if and only if it belongs to another change or its obligation has a scope that no changed path touches |
| `MeshWitness.RefutedCommitIsReachable` | internal/collaboration/meshcommit.go:367-390 | A concrete run from the empty store that commits a change with failing required evidence |
| `MeshWitness.AbortedIsNotTerminal` | internal/collaboration/meshcommit.go:583-592 | A concrete run from the empty store (create, pass, abort, evaluate, commit) that commits an aborted change |
| `MeshWitness.FirstOfNameWins` | internal/store/store.go:3973-3998 | The row kept under a name is that of the first specification with the name |
| `MeshWitness.PolicyIsStoredExactly` | internal/collaboration/meshcommit.go:140-227 | Every locked specification gets a row of its own if and only if no two share a name |
| `MeshWitness.NamesCanClash` | internal/config/config.go:418-522 | Two configured default proofs with one title resolve to two specifications, of which one loses its row |
| `BudgetLedger.GrantFits` | internal/collaboration/engine.go:662-720 | A grant overruns no limit, and its output bound lies between the smaller of 100 and the request, and the request |
| `BudgetLedger.GrantIsTight` | internal/collaboration/engine.go:667-691 | The output bound is the request, or one token more would overrun the output or the total limit |
| `BudgetLedger.BudgetReservation.Discharge` | internal/collaboration/engine.go:792-798 | Discharging empties a reservation |
| `BudgetLedger.Engine.UpdateBudget` | internal/store/store.go:2297-2337 | One transaction over the session row and the space row of an id, or no effect |
| `BudgetLedger.Engine.ReserveBudget` | internal/collaboration/engine.go:609-721 | Lookups, defaults, limits, output bound, charge and write, with the error of every branch |
| `BudgetLedger.Engine.FitRequest` | internal/collaboration/engine.go:662-696 | The limit checks in order, and the output bound they leave |
| `BudgetLedger.Engine.CommitBudget` | internal/collaboration/engine.go:723-815 | The estimate is replaced by the usage, and the reservation discharged only once that is written; overruns are reported after |
| `BudgetLedger.Engine.RollbackBudget` | internal/collaboration/engine.go:817-882 | The estimate is taken back, and the reservation discharged only once that is written |
| `BudgetAnswers.ReserveExactly` | internal/collaboration/engine.go:609-721 | A reservation is granted if and only if the input fits, output and total leave at least 100 tokens, and the estimate fits the cost limit; it gets the least of request and rooms, and the budget is charged that; else the error names the first check that fails |
| `BudgetAnswers.AnswerExists` | internal/collaboration/engine.go:662-696 | There is exactly one such least bound and first obstacle for every request |
| `BudgetAnswers.UntrackedIsFree` | internal/collaboration/engine.go:609-661 | Without an id, a budget or any limit the request is granted and nothing is charged |
| `BudgetAnswers.CommitExactly` | internal/collaboration/engine.go:723-815 | What a commit leaves in every counter, when the reservation is discharged, and which overrun it reports |
| `BudgetAnswers.RollbackExactly` | internal/collaboration/engine.go:817-882 | What a rollback takes back, and when the reservation is discharged |
| `BudgetAnswers.NothingToSettle` | internal/collaboration/engine.go:723-882 | A discharged reservation, or one without a budget, leaves the ledger alone |
| `BudgetRuns.StepConserves` | internal/collaboration/engine.go:609-882 | Every critical section keeps conservation for every budget |
| `BudgetRuns.LedgerIsConserved` | internal/collaboration/engine.go:609-882 | Under any interleaving and any store failures each used counter is its start plus settled usage plus undischarged estimates, total is input plus output, and no counter falls below its start |
| `BudgetRuns.DeferredRollback` | internal/collaboration/engine.go:1386-1422 | After a failed commit the deferred rollback does nothing if the commit was written, else takes back exactly the estimate: nothing is discharged twice |
| `BudgetRuns.CommitWithinLimits` | internal/collaboration/engine.go:723-815 | Usage within the reservation keeps every limit, and the commit reports no overrun |
| `BudgetRuns.CeilingHolds` | internal/collaboration/engine.go:658-721 | If every invocation stays within its reservation, every tracked budget stays at or below all its maxima in every reachable state |
| `BudgetCaps.CapOfGrant` | internal/collaboration/engine.go:693-720 | The cap handed out is what the limit left before the own estimate was charged, and covers the estimate |
| `BudgetCaps.SpendingTheCapOverrunsExactly` | internal/collaboration/engine.go:707-815 | One commit, at any later ledger with the same limit: spending exactly the cap overruns the limit, and is reported, if and only if more is used by then than right after the grant |
| `BudgetCaps.StepKeepsLimit` | internal/collaboration/engine.go:609-882 | No operation on any budget changes the limit of a tracked one |
| `BudgetCaps.CapKeepsCeilingExactly` | internal/collaboration/engine.go:609-815 | Over any run between grant and commit: spending exactly the cap overruns the limit if and only if the other invocations hold and have spent more by then than at the grant |
| `BudgetCaps.CostCapsAloneBreakTheCeiling` | internal/collaboration/engine.go:707-815 | Two invocations that both reserve before either commits, and spend their caps, overrun the limit, whatever they reserve |
| `BudgetCaps.CeilingIsBrokenWithinTheCaps` | internal/collaboration/engine.go:609-815 | Runs from a configured cost limit and a new session: two invocations within their caps spend twice the limit less one estimate |
| `IdempotencyCache.Idempotency.constructor` | internal/bridge/idempotency.go:33-47 | Non-positive settings fall back to ten minutes and 10000 entries |
| `IdempotencyCache.Idempotency.BeginLocked` | internal/bridge/idempotency.go:55-77 | One locked round: replay, drop an expired entry, wait, or own |
| `IdempotencyCache.Idempotency.FinishLocked` | internal/bridge/idempotency.go:80-97 | Record in front, evict from the back down to the bound, take the channel |
| `IdempotencyCache.Idempotency.AbortLocked` | internal/bridge/idempotency.go:105-110 | Take the channel without recording |
| `IdempotencyCache.RecordThenEvict` | internal/bridge/idempotency.go:83-93 | Recording under an absent key keeps list, map, order and bound, and evicts at most the last element |
| `IdempotencyCache.FinishedCache` | internal/bridge/idempotency.go:80-96 | A finish leaves a consistent cache, the new result in it, and no other new key |
| `IdempotencyCache.WhoIsEvicted` | internal/bridge/idempotency.go:86-93 | The new result is in; an old one is out only if the cache was full and it was the last |
| `IdempotencyCache.FullKeyIsInjective` | internal/bridge/idempotency.go:56-56 | Routes without NUL: the combined key determines route and key |
| `IdempotencyProtocol.StepKeeps` | internal/bridge/idempotency.go:55-114 | Every step of every caller keeps the invariant of cache, owners, channels and waiters |
| `IdempotencyProtocol.SoleOwner` | internal/bridge/idempotency.go:66-76 | In every reachable state a key has at most one owner, and no channel is closed twice |
| `IdempotencyProtocol.NoWaiterIsStranded` | internal/bridge/idempotency.go:68-72 | At most two steps of one other caller close the channel a waiter waits on |
| `IdempotencyProtocol.CacheIsConsistent` | internal/bridge/idempotency.go:17-31 | List and map agree, keys are distinct, the bound holds, and the back expires first |
| `IdempotencyProtocol.RecordedResultIsReplayed` | internal/bridge/idempotency.go:55-66 | While a result is cached and not expired nobody owns or can own its key, and whoever asks gets it |
| `IdempotencyProtocol.EnterExactly` | internal/bridge/idempotency.go:55-77 | A caller becomes owner if and only if no unexpired result is cached and nobody owns the key; with a result it is done, else it waits on the owner; no expired result of the key is left |
| `IdempotencyProtocol.ReleaseExactly` | internal/bridge/idempotency.go:80-114 | A finish leaves status and body for exactly the time to live, an abort nothing; the key is free, and the caller goes on to close the channel |
| `IdempotencyProtocol.HowResultsLeave` | internal/bridge/idempotency.go:55-93 | A result leaves only by expiry when asked for, or by eviction as the earliest to expire |
| `EngineIdempotency.Engine.AcquireLocked` | internal/collaboration/engine.go:909-932 | One locked round of the retry loop: saved result, wait, or own; a failed read counts as no result |
| `EngineIdempotency.Engine.ReleaseLocked` | internal/collaboration/engine.go:923-928 | Deleting and closing under one lock |
| `EngineIdempotency.StepKeeps` | internal/collaboration/engine.go:902-940 | Every step of every caller keeps the invariant of owners, channels and waiters |
| `EngineIdempotency.OwnersAndWaiters` | internal/collaboration/engine.go:902-940 | At most one owner a session and key, no double close, and one release of its owner frees a waiter |
| `EngineIdempotency.OwnershipExactly` | internal/collaboration/engine.go:911-929 | A caller becomes owner if and only if it reads no result and no owner shares its in-flight key |
| `EngineIdempotency.AcquireExactly` | internal/collaboration/engine.go:907-932 | The saved result if one is read, else the channel of the owner that shares the in-flight key, else ownership |
| `EngineIdempotency.ReleaseExactly` | internal/collaboration/engine.go:919-930 | A release frees the key and closes the channel; what is saved is stored under session and key |
| `EngineIdempotency.SavedIsFinal` | internal/collaboration/engine.go:911-915 | Once a result is saved, and while reads succeed, nobody becomes owner of its key any more |
| `EngineIdempotency.InflightKeysClashExactly` | internal/collaboration/engine.go:907-907 | Two requests share an in-flight key if and only if they are the same or one session continues the other behind a colon; without colons never |
| `EngineIdempotency.ClashingRequestsWait` | internal/collaboration/engine.go:907-932 | Two requests that share an in-flight key wait for each other, though their results are kept apart |
| `ArchiveLayout.LayoutExactly` | internal/knowledge/archive.go:308-320 | The header and every byte of a frame: raw length and stored length with the most significant byte first, then the stored bytes |
| `ArchiveLayout.StoredExactly` | internal/knowledge/archive.go:300-307 | The stored bytes are the compressed block, with a key the nonce and the sealed block behind it |
| `ArchiveLayout.LimitExactly` | internal/knowledge/archive.go:730-732 | The size limit of a stored block is 512 MiB |
| `ArchiveLayout.LinesExactly` | internal/knowledge/archive.go:752-765 | A carriage return before the newline is dropped, the last line needs no newline, an overlong or unreadable line is an error |
| `ArchiveLayout.WhoChecksTheHeader` | internal/knowledge/archive.go:703-713 | Reading skips the header unseen, counting insists on it |
| `ArchiveLayout.WhoChecksTheRawLength` | internal/knowledge/archive.go:719-750 | The raw length of a frame matters only to the rebuilding of the index, which insists on it |
| `ArchiveFormat.UnstoreStore` | internal/knowledge/archive.go:299-307 | Decoding a stored block, encrypted or not, gives the raw block back |
| `ArchiveFormat.GetPut64` | internal/knowledge/archive.go:308-310 | A 64-bit length written big-endian reads back |
| `ArchiveFormat.FileLength` | internal/knowledge/archive.go:311-320 | The length of the file is the sum of header and frames |
| `ArchiveFormat.PrefixReadsExactly` | internal/knowledge/archive.go:719-750 | Reading a prefix of the frames succeeds exactly on a frame boundary without an oversized frame before it, and returns the blocks before the cut |
| `ArchiveRecords.ScanLinesExactly` | internal/knowledge/archive.go:752-765 | Scanning a block returns its batch if and only if every line fits the scanner buffer |
| `ArchiveRecords.ReadFromSplits` | internal/knowledge/archive.go:719-766 | The reader fails where the frame loop fails, and otherwise scans the blocks in order |
| `ArchiveRecords.TruncationExactly` | internal/knowledge/archive.go:703-767 | Reading the first k bytes succeeds only on a frame boundary, and then returns precisely the records of the frames before the cut |
| `ArchiveRecords.RoundTripExactly` | internal/knowledge/archive.go:703-767 | The whole file reads back, as exactly the records of its batches, if and only if no stored block is oversized and no line overlong; the block count is the number of batches |
| `ArchiveRecords.DeliveredAll` | internal/knowledge/archive.go:703-767 | A reading that succeeds has handed to its callback exactly the records it returns |
| `ArchiveRecords.DeliveredPrefix` | internal/knowledge/archive.go:703-767 | Whatever stops a reading, it has handed the first records of the archive to its callback, in order |
| `ArchiveIndex.IndexTerms` | internal/knowledge/archive.go:362-376 | The term set is the set of tokens of 3 to 96 bytes |
| `ArchiveIndex.EntriesSnoc` | internal/knowledge/archive.go:324-330 | A flush appends the entry of its block and leaves the earlier entries right |
| `ArchiveIndex.RebuildExactly` | internal/knowledge/archive.go:869-899 | Rebuilding from the bytes gives exactly the entries of the flushes, if and only if every block passes the size checks |
| `ArchiveIndex.EntriesTile` | internal/knowledge/archive.go:324-330 | The entries tile the file from byte 8 to its end |
| `ArchiveIndex.IndexedOffsets` | internal/knowledge/archive.go:378-422 | The offsets of the entries that hold all terms; none without terms, with a line that does not parse or exceeds the scanner limit, with a stale end, or without a match |
| `ArchiveIndex.SelectedExactly` | internal/knowledge/archive.go:378-422 | The index is used if and only if there are terms, every line parses within 64 KiB, the last entry ends with the file and some entry has every term; it selects what those entries point to |
| `ArchiveIndex.SelectionIsExact` | internal/knowledge/archive.go:404-413 | The selected offsets are exactly the true frame starts whose block holds every query term as a token |
| `ArchiveIndex.IndexIsUsedExactly` | internal/knowledge/archive.go:390-421 | With the entries of the flushes the index is used if and only if there are terms, every line fits 64 KiB and some block holds all terms |
| `ArchiveIndex.FramesReadExactly` | internal/knowledge/archive.go:378-501 | With stale entries in front, a search decodes a frame if and only if it cannot use the index, the block holds all terms, a stale entry with all terms names its start, or no entry at all has them |
| `ArchiveIndex.NoMatchIsSkipped` | internal/knowledge/archive.go:378-501 | Whatever stale entries precede its own, no frame whose block holds all terms as tokens is skipped |
| `ArchiveIndex.StaleEntriesExactly` | internal/knowledge/archive.go:415-501 | Stale entries hide frames if and only if no block holds all terms, a stale entry does, and those that do name not every frame; they add frames if and only if some block holds all terms and a stale entry with all terms names one that does not |
| `ArchiveCompaction.CopyIsUnique` | internal/knowledge/archive.go:658-668 | The records appended before the context is cancelled or one does not marshal are determined by the records to copy |
| `ArchiveCompaction.NormaliseIsNormal` | internal/knowledge/archive.go:233-277 | What Append leaves is in normal form |
| `ArchiveCompaction.DefaultsExactly` | internal/knowledge/archive.go:233-277 | What is given stays, apart from redaction, and what is missing gets its default |
| `ArchiveCompaction.RedactionIsMarked` | internal/knowledge/archive.go:262-277 | Sensitive exactly if it was or redaction changed something; the hash is that of the text before redaction |
| `ArchiveCompaction.AppendAgainExactly` | internal/knowledge/archive.go:229-277 | Appending an archived record again changes nothing but an empty tenant, so it changes the record if and only if the tenant is empty and the context has one |
| `ArchiveCompaction.KeptIsExact` | internal/knowledge/archive.go:659-668 | The kept records are exactly those not both selected and older than the cutoff, each once, in order |
| `ArchiveCompaction.OtherTenantsUntouchedExactly` | internal/knowledge/archive.go:635-644 | A tenant compacting its records leaves another tenant its records, in order; and the records without tenant if and only if there are none |
| `ArchiveCompaction.CompactTwiceExactly` | internal/knowledge/archive.go:646-701 | Compacting at b1 then b2 equals compacting at the later, for a tenant if and only if no old record lacks a tenant |
| `ArchiveCompaction.NamelessRecordsChangeHands` | internal/knowledge/archive.go:236-240 | All records without tenant, however old, pass to the tenant that compacts |
| `ArchiveLog.AppendAddsOne` | internal/knowledge/archive.go:284-292 | An append adds exactly its record at the end, whether or not it fills the block |
| `ArchiveLog.FlushesExactly` | internal/knowledge/archive.go:284-291 | An append flushes exactly if the pending bytes reach the block size with it |
| `ArchiveLog.BlocksAreBounded` | internal/knowledge/archive.go:289-291 | A block is smaller than the block size and its last line together |
| `ArchiveLog.NamedRecordsMarshalAgain` | internal/knowledge/archive.go:659-668 | If all records have a tenant, compaction keeps them unchanged and they marshal again |
| `ArchiveLog.NewlinesAreRecords` | internal/knowledge/archive.go:332-332 | The newlines added to the record counter are the records of the batch |
| `ArchiveLog.RunHoldsAppended` | internal/knowledge/archive.go:229-340 | After any sequence of appends and flushes the log holds exactly the appended records in order |
| `ArchiveLog.ArchiveOfRun` | internal/knowledge/archive.go:229-340 | After any sequence of appends and flushes and a final flush the file reads back as the appended records if and only if blocks and lines fit; the block count is the number of non-empty flushes; moderate lines fit |
| `KnowledgeArchive.FlushStep` | internal/knowledge/archive.go:295-334 | One flush keeps blocks, batches, file bytes, index and counter in step |
| `KnowledgeArchive.Archive.constructor` | internal/knowledge/archive.go:136-212 | A new archive holds the magic header, no records, and the index entries found under its path |
| `KnowledgeArchive.Archive.Append` | internal/knowledge/archive.go:229-293 | The normalised record is added to the log, flushing a full block; a record that does not marshal changes nothing |
| `KnowledgeArchive.Archive.Prepare` | internal/knowledge/archive.go:233-277 | The assignments compute the normal form |
| `KnowledgeArchive.Archive.Flush` | internal/knowledge/archive.go:295-340 | The pending records become a batch; without any nothing happens |
| `KnowledgeArchive.Archive.WriteBlock` | internal/knowledge/archive.go:299-333 | The block, its frame, its index entry and the counter, in step with the log |
| `KnowledgeArchive.Archive.ForEachRecord` | internal/knowledge/archive.go:703-767 | The loop delivers the records of the file, up to the first error, and fails exactly when reading fails |
| `KnowledgeArchive.Archive.ScanBlock` | internal/knowledge/archive.go:752-765 | The scanner loop over one block |
| `KnowledgeArchive.Archive.CountBlocksLocked` | internal/knowledge/archive.go:1122-1154 | The frame count, or the first error |
| `KnowledgeArchive.Archive.RebuildIndex` | internal/knowledge/archive.go:838-914 | Succeeds if and only if unencrypted and all sizes pass; the index is then exactly that of the flushes |
| `KnowledgeArchive.Archive.RebuildEntries` | internal/knowledge/archive.go:869-899 | The rebuild loop |
| `KnowledgeArchive.Archive.ChooseFrames` | internal/knowledge/archive.go:424-455 | Behind a flush, the selection of the index, and none with a key |
| `KnowledgeArchive.Archive.Compact` | internal/knowledge/archive.go:646-701 | The archive then holds exactly the compacted records, counted; it fails exactly when the old file does not read back, a record does not marshal or the context is cancelled before the end, and then holds what it held, while the entries of exactly the records copied so far are added to the index under the temporary name |
| `KnowledgeArchive.Archive.WriteCopy` | internal/knowledge/archive.go:652-676 | The copy, closed, and on failure its index left behind unless there is a key |
| `KnowledgeArchive.Archive.AppendKept` | internal/knowledge/archive.go:658-668 | The callback appends the kept records in order until all are, an append fails or the context is cancelled |
| `KnowledgeArchive.Archive.Visit` | internal/knowledge/archive.go:658-668 | One record is dropped, or appended as a record that has been archived before, or stops the copy |
| `KnowledgeArchive.Archive.TakeOver` | internal/knowledge/archive.go:680-699 | The file and the index of the copy replace the old ones, with whatever entries the index held before |
| `ArchiveWitness.Interrupt` | internal/knowledge/archive.go:646-676 | Records in blocks of their own: a compaction cancelled after the first one fails, and leaves the entry of its block |
| `ArchiveWitness.DropFirst` | internal/knowledge/archive.go:646-701 | The next compaction drops that record and takes the left entry over |
| `ArchiveWitness.OnlyFirstFrame` | internal/knowledge/archive.go:415-501 | With that entry a search for the word of the dropped record reads the first frame only, though no block has the word as a token |
| `ArchiveWitness.LoseFrames` | internal/knowledge/archive.go:646-701 | The whole run: the search reads one frame, and after rebuilding the index all of them |
| `ArchiveWitness.LoseSample` | internal/knowledge/archive.go:646-701 | A run on three records; the last one, whose text contains the word, is in a frame that is not read |
| `MerkleTree.NextLevel` | internal/assurance/assurance.go:158-168 | One pass pairs neighbours, an odd last node with itself |
| `MerkleTree.RootOf` | internal/assurance/assurance.go:157-170 | The level loop terminates with the root of the perfect tree over the expanded leaves |
| `MerkleTree.LeavesLeadExpansion` | internal/assurance/assurance.go:157-169 | The leaves stand unchanged at the front of the expansion |
| `MerkleTree.PerfectBinds` | internal/assurance/assurance.go:157-169 | Same root and height: the same leaves, or an explicit collision |
| `MerkleTree.HeightsBind` | internal/assurance/assurance.go:157-169 | Same root at different heights: an explicit collision |
| `MerkleTree.MerkleBinds` | internal/assurance/assurance.go:141-171 | Same root for lists of any lengths: the same expansion, for equal lengths the same inputs, or an explicit collision |
| `MerkleTree.ExpansionDecides` | internal/assurance/assurance.go:141-171 | The root depends on nothing but the expansion |
| `MerkleTree.OddListsAreAmbiguous` | internal/assurance/assurance.go:159-164 | For every odd number of at least three leaves, repeating the last leaf keeps the root |
| `MerkleLevels.RootByLevels` | internal/assurance/assurance.go:157-170 | The root of one leaf is the leaf, and that of several the root of their pairs, left before right, an odd last one with itself |
| `Assurance.EventsRootExactly` | internal/assurance/assurance.go:141-171 | There is a root exactly if there are events and all marshal; the error says which fails |
| `Assurance.SignExactly` | internal/assurance/assurance.go:173-208 | What signing writes, and what it leaves |
| `Assurance.VerifyExactly` | internal/assurance/assurance.go:209-239 | Evidence verifies if and only if digest, signature, key length, signature check, fingerprint and chain root are all right; an error names a check that fails |
| `Assurance.MerkleRoot` | internal/assurance/assurance.go:141-171 | Errors without events or with one that does not marshal; otherwise the root of the events |
| `Assurance.SignedUpToDigest` | internal/assurance/assurance.go:188-239 | Everything but the digest is right about signed evidence, and the digest is the fingerprint with the old digest still in |
| `Assurance.SignThenVerify` | internal/assurance/assurance.go:188-239 | Signed evidence verifies if its digest was empty before; if not, verifying shows a collision |
| `Assurance.SigningTwiceBreaks` | internal/assurance/assurance.go:188-208 | Evidence signed twice verifies only with a collision |
| `Assurance.DigestBinds` | internal/assurance/assurance.go:209-231 | Verified evidence with equal digests is equal up to signatures, or there is a collision |
| `Assurance.EventsRootBinds` | internal/assurance/assurance.go:141-171 | Two lists of events with the same root have the same expansion, for equal numbers the same events, or there is a collision |
| `Assurance.ChainRootBinds` | internal/assurance/assurance.go:209-239 | Verified evidence with equal chain roots has the same expansion of events, for equal numbers the same events, or there is a collision |
| `ContextOrder.MiddleOutExactly` | internal/contextpack/projector.go:424-436 | With room for 41 bytes both ends are kept, with less the start, and a short text whole |
| `ContextOrder.PartsKeepTheirEnds` | internal/contextpack/projector.go:302-393 | Of the status the start is left, of every other part its two ends |
| `ContextParts.MiddleOut` | internal/contextpack/projector.go:424-436 | The length of the result: the maximum if it cuts, else that of the text |
| `ContextParts.MiddleOutAbridges` | internal/contextpack/projector.go:424-436 | The result is the text, a start of it, or its two ends around the marker |
| `ContextParts.FitSuffix` | internal/contextpack/projector.go:298-394 | From any part on, the fitted parts have the smaller of their size and the limit |
| `ContextParts.CapIsTight` | internal/contextpack/projector.go:298-394 | The fitted whole has exactly the smaller of its size and the limit; a part is shortened only if all earlier ones are empty; nothing changes if all fits |
| `ContextParts.BlockKeepsHalfway` | internal/contextpack/projector.go:318-327 | Each block of the cascade, cutting by what is too much, reaches the closed form of its part |
| `ContextParts.FilesThenFields` | internal/contextpack/projector.go:289-296 | The size is the same for every order of summation |
| `ContextBudget.Projection.CalcIncludedChars` | internal/contextpack/projector.go:289-296 | The size over fields and files, summed in an arbitrary order |
| `ContextBudget.Projection.CutFiles` | internal/contextpack/projector.go:302-316 | The file loop, in any iteration order, with its break |
| `ContextBudget.Projection.CutFile` | internal/contextpack/projector.go:304-315 | One file is deleted or cut by what is too much |
| `ContextBudget.Projection.Shorten` | internal/contextpack/projector.go:318-327 | One field loses what is too much |
| `ContextBudget.Projection.CutFields` | internal/contextpack/projector.go:318-393 | The blocks for diff, test output, diff stat, plan, task, question and status, in that order |
| `ContextBudget.Projection.Cascade` | internal/contextpack/projector.go:299-394 | The cuts, if the whole is too long, and the truncation flag |
| `ContextBudget.Projection.FitContext` | internal/contextpack/projector.go:284-397 | For every iteration order the parts become their fitted forms, the recorded size is the smaller of the old size and the limit, no file is left as an empty shell, and a field is cut only if the one before it (before the diff, every file) is empty |
| `Deduplication.DeduplicateFindings` | internal/collaboration/engine.go:1209-1243 | The nested loops over the array compute the recursive passes; short lists stay |
| `Deduplication.MarkDuplicates` | internal/collaboration/engine.go:1218-1240 | The inner loop |
| `Deduplication.SimilarExactly` | internal/collaboration/engine.go:1223-1236 | Similar: the same named file, at most five lines apart, one category or one claim |
| `Deduplication.LoopsDeduplicate` | internal/collaboration/engine.go:1214-1241 | On all findings, with ids or without, the loops compute the closed form by owners |
| `Deduplication.MarksAreExact` | internal/collaboration/engine.go:1214-1241 | A finding not marked before is marked if and only if an unmarked earlier finding with an id is similar, and points to the first such; earlier marks stay |
| `Deduplication.SurvivorsAreDissimilar` | internal/collaboration/engine.go:1214-1241 | Two similar findings stay unmarked only if the earlier has no id |
| `Deduplication.RelatedIsExact` | internal/collaboration/engine.go:1236-1239 | A list grows by the ids of exactly the later similar findings not marked before nor claimed by an earlier one, each once, in order; no other field changes |
| `Deduplication.SecondPassExactly` | internal/collaboration/engine.go:1209-1243 | A second pass changes nothing if and only if no survivor without an id precedes a similar survivor |
| `CircuitBreaker.Controller.constructor` | internal/agentreliability/reliability.go:44-58 | The defaults |
| `CircuitBreaker.Controller.Before` | internal/agentreliability/reliability.go:68-85 | The new snapshot, and whether the call is let through |
| `CircuitBreaker.Controller.Success` | internal/agentreliability/reliability.go:86-95 | A success closes the circuit and clears the failures |
| `CircuitBreaker.Controller.Failure` | internal/agentreliability/reliability.go:96-111 | A failure counts, opens at the threshold and quarantines |
| `CircuitBreaker.ClosedExactly` | internal/agentreliability/reliability.go:96-111 | In every reachable state an agent is closed if and only if its failures are below both thresholds |
| `CircuitBreaker.CountersAreExact` | internal/agentreliability/reliability.go:86-111 | Over every run the counters are the failures since the last success, the successes, and the last error |
| `CircuitBreaker.OthersAreUnaffected` | internal/agentreliability/reliability.go:60-67 | Only events of an agent itself change its state |
| `CircuitBreaker.RefusedExactly` | internal/agentreliability/reliability.go:68-111 | Until the next outcome a call is refused if and only if quarantine, if any, and recovery timeout have not passed, whatever other agents do |
| `CircuitBreaker.SuccessRecovers` | internal/agentreliability/reliability.go:86-95 | After a success calls are let through |
| `ReplayRing.Hub.constructor` | internal/bridge/websocket.go:64-70 | An empty ring of 256 cells |
| `ReplayRing.Hub.RecordForReplay` | internal/bridge/websocket.go:121-131 | The event joins the history; the id set is emptied above twice the buffer size |
| `ReplayRing.Hub.RecentEvents` | internal/bridge/websocket.go:136-147 | Exactly the last 256 events, or all if fewer, oldest first |
| `ReplayRing.RecentExactly` | internal/bridge/websocket.go:136-147 | After each cell of the trip: the oldest events still in the ring, in order |
| `ReplayRing.IdsExactly` | internal/bridge/websocket.go:126-130 | An id is remembered until there are more than 512, and then all are forgotten |
| `ReplayRing.IdsAfter` | internal/bridge/websocket.go:126-130 | The id set never exceeds twice the buffer size |

## Left out

- MerkleBinds: assumes that no event's JSON is exactly 64 bytes long, the length of two digests; its ten keys alone are longer.
- SQLite and PostgreSQL themselves, and failures of their writes for MeshCommit: a failed save in the middle of an operation can leave part of it done.
- Calls of `InvalidateStaleEvidence` from outside the gate: the program has none.
- The git commit behind the tree check, events, metrics, timestamps, descriptions and path rows of MeshCommit.
- That committed and aborted are terminal: the gate and `ExecuteProof` do not check for them, and `FinalChangesLeaveExactly` states what holds instead.
- That every commit was reviewed by a peer: an obligation without a command passes when it is executed.
- The function `recordBudgetUsage`, and the commit-error paths of `Publish` and `dispatchParticipantEvent`, which do not roll back.
- Rounding of costs, and 64-bit wrap-around of token counters.
- An owner that panics or never returns: its key stays in flight, in the bridge and in the engine.
- A saved engine result that does not parse, with which the caller goes on without owning the key.
- Crashes and failed file writes in the middle of a flush: a torn frame is an unreadable tail by `TruncationExactly`, but appending behind one is not modelled.
- Opening an existing archive, key rotation, export and restore, context cancellation other than in a compaction, and Go's memory limits.
- JSON that changes a record on the way (invalid UTF-8, reformatted payloads), and the meaning of the redaction patterns.
- Search ranking, record filters and substring matching: indexed search selects by whole tokens and is not claimed to equal a full scan.
- The order of terms inside an index entry.
- That signatures cannot be forged and collisions not be found.
- The functions `LoadPolicy`, `Evaluate` and `Analyze` of the assurance package, trust scores, routing and certification: short filters that would only add easy members.
- Loading of files, diff and test output before the cascade of `Project`.
- The half-open state admits every call until an outcome, as in the code; a limit on trial calls is not claimed.
- CLI, HTTP handlers, WebSocket pumps and the slow-client bound, adapters, process execution and telemetry.
