# Verified model of the bridge's durable protocols

The repository keeps durable state in several places that crashes, retries and concurrent actors all touch:
a shell bridge with a request journal, a read-only gate over that journal, a conversation harness on SQLite
with its own request journal, a Git transaction publisher, a repository registry, a mailbox watcher with a
bounded fair queue, and a workspace coordinator that integrates jobs into a canonical branch.  This project
models each of them and proves what they promise over whole runs.

How the model is built:

- A protocol is a state machine whose steps are single durable writes, lock operations, database
  transactions, Git commands or remote operations.  Crashes and other actors come between any two steps.
  `Exec` runs any sequence of labels, and the main lemmas speak of every such run.
- Beside each machine stands the code as it runs: classes with mutable fields, methods and loops in the order
  of the source (`BridgeProcess`, `HarnessService`, `HarnessDispatch`, `GitProcess`, `RegistryBuilder`,
  `WatcherLoop`, `MailboxProcess`, `WorkspaceProcess`).  Each is proved to compute its specification, or to be
  a run of its machine, so the run lemmas hold for it.
- What an operation must answer and write is stated a second time without its specification, over the state
  before and after it (`BridgeAnswers`, `HarnessAnswers`, `RegistryAnswers`, `DispatchExactly`,
  `PushAllowedExactly`, and the contracts of `ProcessTransaction`, `IntegrateJob`, `DispatchMutation` and
  `ProcessPendingOnce`): when it succeeds, the one cause of each refusal, and the exact rows, files or commits left.
- Hashes and signatures are constructors, hence injective.  Identifiers are compared only for equality.
  Clocks, fresh identifiers, the order of query results, approvals, command outcomes, file system contents,
  the renames Git detects and the outcome of uploads are parameters.

| area | files |
|---|---|
| request journal and its gate | `RequestJournal`, `JournalExecution`, `JournalReceipts`, `BridgeProcess`, `BridgeAnswers`, `JournalGate` |
| conversation harness | `HarnessTables`, `HarnessLog`, `HarnessCalls`, `HarnessRuns`, `HarnessAnswers`, `HarnessService`, `HarnessProtocol`, `HarnessDispatch` |
| Git transactions | `GitTransactions`, `GitProcess` |
| registry | `RegistryRules`, `RegistryScans`, `RegistryBuilder`, `RegistryAnswers` |
| root policy | `RootPolicy` |
| scheduler and mailbox | `WatcherQueue`, `WatcherLoop`, `MailboxReplay`, `MailboxProcess` |
| workspace integration | `WorkspaceHistory`, `WorkspaceIntegration`, `WorkspaceProcess` |

Where the code does not keep what one might expect, the exact condition is proved:

- A request of the harness protocol can be marked failed by a foreign message under the same ID while its
  effect is committed (`ForeignMessageMisreports`); a failure is honest exactly when the message is the row's
  own (`FailureIsHonestIff`).
- Pruning roots changes policy when one path is listed with push and later without (`RepeatedRootLosesPush`);
  otherwise it does not (`PruningFaithfulIff`).  Migration drops overrides a version 1
  file already had; `MigrationFaithfulIff` says when that changes an answer.
- The cheap and the full registry scan differ on a root that lies inside a work tree without a `.git` of its own
  (`RootInWorkTreeExample`), and on entries below no configured root unless their marker reappears
  (`ForgottenRootDiffers`).  Where markers are truthful, old entries identified and all trees found are readable
  repositories, these two are exactly the differences (`CheapEqualsFullIff`).
- An expired lease can look alive again: the call that finds it expired rolls the expiry back with its error, so
  a clock that is set back accepts the token (`ExpiredTokenAcceptedAgain`).  A rejected token stays rejected under
  any clock exactly if it is superseded, and otherwise exactly while the clock is not behind (`RefusedForGoodIff`).
- Quiescent request folders do not suffice for the journal gate, which also holds an admission that never reached
  its folder (`AdmissionAloneIsHeld`); `GateIsExactOnReachableJournals` gives all it asks for.
- The overlap and policy checks of a workspace integration read lists in which a renamed file appears under its
  new path only, so a rename can hide a shared path (`RenameHidesOverlap`) or the policy file
  (`RenameHidesPolicy`).  `DisjointListsExactlyWhen` and `IntegrationsAreDisjointIff` give the exact condition, which
  a listing without rename detection shows beforehand.
- An error of a workspace integration can leave the integration on canonical history; `IntegrateJob` says which
  errors do, and what the next call then does.

## Model

| member | source | states |
|---|---|---|
| JournalExecution.AtMostOneExecution | shell_bridge/bridge.py:1684-1882 | over any interleaving of workers, redeliveries under any number of request IDs, vanished workers and crashes between any two durable writes, with or without the daemon's one-worker-per-name rule, each request ID and each operation ID enters the shell at most once, and an operation only through the request its admission names |
| JournalExecution.WriteOnce | shell_bridge/bridge.py:205-222 | an admission and a STARTED marker, once written, are the same in every later state |
| JournalExecution.StepIsLawful | shell_bridge/bridge.py:1307-1588 | a step reaches the shell only right after creating a STARTED that was not there, changes STARTED in no other way, admits only for its own logical operation and only when nothing was admitted, and takes only a free operation lock |
| JournalExecution.ReachableExecInv | shell_bridge/bridge.py:1684-1882 | the ownership invariant (a run has its STARTED, its claim or its admission) holds in every reachable state |
| JournalReceipts.FinishedReceipts | shell_bridge/bridge.py:1190-1202 | in every reachable journal FINISHED stands only beside a result of the same ID, status and hash; a completed result that is not a replay means exactly one run of the bytes STARTED names, which drained its streams; a completed replay has no STARTED and names another, executed original that is not itself a replay |
| JournalReceipts.TerminalPairFrozen | shell_bridge/bridge.py:1356-1369 | a result/FINISHED pair never changes afterwards, under any redelivery, ID reuse or crash |
| JournalReceipts.StartedRunIsUnique | shell_bridge/bridge.py:1527-1562 | a STARTED request has at most one run, of the bytes whose hash STARTED holds |
| JournalReceipts.StrandedForever | shell_bridge/bridge.py:1371-1378 | a request left with STARTED, no FINISHED and no worker that could still report its run is never run again and can finish only as indeterminate |
| JournalReceipts.InterruptedEndsIndeterminate | shell_bridge/bridge.py:1371-1378 | after a crash between STARTED and FINISHED, whatever is delivered later, the request does not run again and can end in no other status than indeterminate |
| JournalReceipts.VerifiedSource | shell_bridge/bridge.py:1609-1681 | a completed original accepted as a replay source has STARTED, FINISHED and result under one hash, drained its streams and is not itself a replay |
| JournalReceipts.ReplaysStayInTheirOperation | shell_bridge/bridge.py:1817-1828 | in every reachable journal a stored replay names an admitted operation, its source is that operation's one original, and the request asked for that operation with the admitted digest |
| JournalReceipts.ReachableReceiptInv | shell_bridge/bridge.py:2484-2497 | under one worker per request name, the receipt invariant holds in every reachable state |
| BridgeProcess.Bridge.ProcessOne | shell_bridge/bridge.py:1684-1882 | one delivery, alone on the journal, is a launch and the worker's own steps to the end, keeps all invariants, and leaves exactly the folders, admissions, run log and drained set of `AfterCall`, which the `BridgeAnswers` lemmas describe case by case |
| BridgeProcess.Bridge.Deduplicate | shell_bridge/bridge.py:1720-1880 | the branch under the operation lock leaves the journal that `CallOutcome` specifies, whose answers the `BridgeAnswers` lemmas state: an unknown operation is admitted and processed, a conflict is rejected or, from the original itself, not answered, the original is reconciled, and any other request gets the original's verified reply |
| BridgeProcess.Bridge.ReconcileOriginal | shell_bridge/bridge.py:1759-1813 | a redelivered original that is already answered, active or holds other bytes stays as it is, and every other one ends as indeterminate beside its bytes; nothing is run in any case |
| BridgeProcess.Bridge.Reply | shell_bridge/bridge.py:1829-1875 | a request that is not the original gets exactly this result and FINISHED, unless its own folder already holds a result, STARTED, ACTIVE or other bytes; no other folder is touched |
| BridgeProcess.Bridge.ReadReply | shell_bridge/bridge.py:1817-1828 | the reply copies the original's verified status and names it; anything unverifiable becomes indeterminate (when an original is verifiable: `DuplicateGetsTheOriginalsAnswer`) |
| BridgeProcess.Bridge.ProcessOneRequest | shell_bridge/bridge.py:1307-1317 | once the claim is taken, the folder, run log and drained set change exactly as `ClaimedOutcome` says |
| BridgeProcess.Bridge.ProcessClaimedRequest | shell_bridge/bridge.py:1320-1380 | refused and already answered requests stay as they are, an interrupted run becomes indeterminate without running, and every other request has its bytes written and meets the gate |
| BridgeProcess.Bridge.Recover | shell_bridge/bridge.py:1371-1378 | STARTED without FINISHED: ACTIVE goes, and exactly the indeterminate pair is written |
| BridgeProcess.Bridge.Execute | shell_bridge/bridge.py:1381-1536 | a request that is not runnable or not approved is recorded as rejected without running; one with STARTED is left alone; any other runs once |
| BridgeProcess.Bridge.Start | shell_bridge/bridge.py:1527-1562 | a run follows only the exclusive creation of STARTED with the hash of these bytes; whoever finds it there changes nothing |
| BridgeProcess.Bridge.RunShell | shell_bridge/bridge.py:1538-1562 | exactly one run of exactly these bytes, and completed exactly when the streams drained |
| BridgeProcess.Bridge.ReturnFromShell | shell_bridge/bridge.py:1563-1588 | ACTIVE goes and the pair records completed or indeterminate |
| BridgeProcess.Bridge.PersistThenPublish | shell_bridge/bridge.py:1190-1202 | result first, FINISHED second, with the same status and hash, and no other folder touched |
| BridgeProcess.RedeliveryIsSilent | shell_bridge/bridge.py:1320-1370 | delivering the same bytes again under the same configuration leaves folders, admissions, run log and drained set exactly as they are |
| BridgeAnswers.NewRequestRunsIff | shell_bridge/bridge.py:1307-1588 | in every reachable journal a request whose operation, if any, was never asked for, on a folder without STARTED, FINISHED or other bytes, enters the shell exactly once if it is executable and approved, and is then completed exactly if its streams drained; otherwise it is rejected without running; oversized bytes leave no trace |
| BridgeAnswers.NewRequestIsAdmitted | shell_bridge/bridge.py:1876-1881 | such a request is admitted for its operation with its digest and ID, and no other admission changes |
| BridgeAnswers.DuplicateGetsTheOriginalsAnswer | shell_bridge/bridge.py:1814-1875 | in every reachable journal a second request of an admitted operation with the admitted digest, on a folder that says nothing yet, is recorded with exactly the original's status and a replay naming the original and its result if the original has FINISHED on bytes that ask for the operation with that digest, and as indeterminate without a replay otherwise; nothing runs |
| BridgeAnswers.ConflictIsRejected | shell_bridge/bridge.py:1740-1758 | a second request with another digest than the admitted one is recorded as rejected, and nothing runs |
| BridgeAnswers.OriginalAgainIsIndeterminate | shell_bridge/bridge.py:1793-1813 | the admitted original delivered again before STARTED and without a result is recorded as indeterminate beside its bytes, and nothing runs |
| BridgeAnswers.OwnConflictStays | shell_bridge/bridge.py:1740-1758 | the original's ID with a digest other than the admitted one changes no folder, no admission and runs nothing |
| BridgeAnswers.InterruptedIsClosed | shell_bridge/bridge.py:1371-1378 | STARTED without FINISHED, delivered again, is recorded as indeterminate and its ACTIVE marker goes, unless the bytes cannot be read or the operation already speaks for the folder; nothing runs |
| BridgeAnswers.HalfRecordedStays | shell_bridge/bridge.py:1782-1785 | a result without its FINISHED stays as it is when its admitted operation is asked for again |
| BridgeAnswers.SettledOrForeignStays | shell_bridge/bridge.py:1320-1370 | a folder with FINISHED, or with other bytes, stays as it is whatever is delivered, and nothing runs |
| JournalGate.VerifyReceiptPair | shell_bridge/verify_quiescent_journal.py:32-148 | accepts a receipt exactly when the stored bytes, markers and result agree and a replay is one hop from an executed original; the remaining budget is exact |
| JournalGate.VerifyAdmission | shell_bridge/verify_quiescent_journal.py:152-228 | accepts an admission exactly when the complete source receipt it names stands on stored bytes that ask for its operation, within the budget |
| JournalGate.VerifyAdmissions | shell_bridge/verify_quiescent_journal.py:152-228 | accepts the admissions exactly when each is acceptable within the budget |
| JournalGate.Verify | shell_bridge/verify_quiescent_journal.py:231-284 | accepts a journal exactly when it is acceptable, and answers with the number of request directories that hold FINISHED |
| JournalGate.AcceptanceIsSound | shell_bridge/verify_quiescent_journal.py:32-148 | in an accepted journal every request directory is a plain one within the size limits, every STARTED request has bytes, STARTED, FINISHED and result under one hash, its own ID and no indeterminate status, and a completed result without STARTED is a one-hop replay of an executed original |
| JournalGate.AdmissionsAreSettled | shell_bridge/verify_quiescent_journal.py:152-228 | in an accepted journal every admission stands under its operation's own key and has a complete source receipt whose stored bytes ask for that operation with the admitted digest |
| JournalGate.GateIsExactOnReachableJournals | shell_bridge/verify_quiescent_journal.py:231-284 | on every journal the bridge can reach, the gate accepts if and only if every request folder is quiescent, every operation directory holds its admission and that operation's original has finished on stored bytes that ask for it, and entry counts, single files and total bytes are within the audit |
| JournalGate.AdmissionAloneIsHeld | shell_bridge/verify_quiescent_journal.py:152-160 | after a crash between an admission and the first write to the request's folder every folder is quiescent and the gate refuses |
| JournalGate.AcceptedMeansEveryRunCompleted | shell_bridge/verify_quiescent_journal.py:231-284 | when the gate accepts a journal the bridge can reach, every request with STARTED, and every request that entered the shell, has its bytes stored, ran exactly once on them, drained its streams, and has FINISHED and result completed under their hash |
| HarnessTables.WriteKeepsInv | src/llm_git_bridge/harness/service.py:64-388 | every row change the service issues keeps the invariant of leases, handoffs, operations and events |
| HarnessTables.WriteKeepsExclusionInv | src/llm_git_bridge/harness/service.py:252-319 | a lease and an open handoff never coexist on a job, and a terminal job has no open handoff |
| HarnessTables.WriteKeepsIndexInv | src/llm_git_bridge/harness/sqlite_store.py:164-171 | no change can violate either partial unique index or the nonce index |
| HarnessTables.WriteKeepsOperationsInv | src/llm_git_bridge/harness/service.py:321-388 | at most one unresolved operation a job, none on a terminal job, one row a key |
| HarnessLog.WriteKeepsLogInv | src/llm_git_bridge/harness/service.py:31-35 | each change writes the one event that keeps the log in agreement with the tables |
| HarnessLog.EventTellsTheChange | src/llm_git_bridge/harness/service.py:31-35 | replaying the new event on the old view gives the view of the new tables |
| HarnessRuns.LogDeterminesTables | src/llm_git_bridge/harness/service.py:64-388 | in every reachable state, folding a job's events alone gives its version, generation, lease, open handoff with its state, and every operation status; generation counts lease_acquired and handoff_claimed events, version is one more than the bumping events |
| HarnessRuns.HandoffConflictsUnreachable | src/llm_git_bridge/harness/service.py:252-319 | the conflicts at 264 and 298 cannot be raised from a reachable state |
| HarnessRuns.ReachableHandoffs | src/llm_git_bridge/harness/service.py:252-319 | at most one open handoff a job and one starting reservation a client; exactly the open rows hold a secret, and their job has no lease |
| HarnessRuns.AcquireSucceedsIff | src/llm_git_bridge/harness/service.py:150-188 | a lease request succeeds if and only if the job exists and is not terminal, no open handoff of it is still current, and its lease has lapsed or is the caller's |
| HarnessRuns.RequireLeaseIsAccepted | src/llm_git_bridge/harness/service.py:190-197 | `_require_lease` passes exactly the token of the current, unexpired lease row |
| HarnessRuns.SupersededForever | src/llm_git_bridge/harness/service.py:190-197 | a token whose row was replaced, released, expired or handed off is rejected in every later state, whatever the clock does |
| HarnessRuns.LapsedForever | src/llm_git_bridge/harness/service.py:64-74 | a token that ran out stays rejected as long as no later call reads an earlier clock |
| HarnessRuns.RejectedExactlyWhen | src/llm_git_bridge/harness/service.py:64-74 | at any later point of any run an issued token is rejected if and only if some step committed a change that took its row away or the clock has reached the expiry its row then stores |
| HarnessRuns.RefusedForGoodIff | src/llm_git_bridge/harness/service.py:64-74 | in every reachable state an issued token is rejected in all futures, whatever the clock does, if and only if it is superseded, and in all futures with a clock not behind a given time if and only if it is rejected at that time |
| HarnessRuns.ExpiredTokenAcceptedAgain | src/llm_git_bridge/harness/service.py:199-210 | a three-call run from the empty database: a token of 900 seconds is refused at 1000, the refusal rolls the expiry back, and at clock reading 500 the token is accepted |
| HarnessRuns.RejectedTokenChangesNothing | src/llm_git_bridge/harness/service.py:190-388 | every call with a token that is not accepted fails and leaves the tables as they were, expiry included |
| HarnessRuns.GenerationCountsGrants | src/llm_git_bridge/harness/service.py:174-188 | the generation rises by one at each grant and at nothing else |
| HarnessRuns.RunsEvolve | src/llm_git_bridge/harness/service.py:43-62 | over any run generations and versions never fall, terminal lifecycles and finished operations are final, and a key keeps its first payload |
| HarnessRuns.ReachableOperations | src/llm_git_bridge/harness/service.py:321-388 | in every reachable state a job has at most one started or indeterminate operation, and none once terminal |
| HarnessCalls.ExpireFacts | src/llm_git_bridge/harness/service.py:64-102 | `_expire` touches exactly the due lease and the due handoff rows of the job, and nothing else |
| HarnessCalls.AllFresh | src/llm_git_bridge/harness/service.py:439-447 | after `_expire_open_handoffs` no open row is past its own or its reservation's expiry |
| HarnessRuns.SweepIsReads | src/llm_git_bridge/harness/service.py:439-447 | sweeping the open handoffs, as the listing of pending reentries does, changes the tables exactly as reading their jobs one after the other does |
| HarnessService.Service.Expire | src/llm_git_bridge/harness/service.py:64-102 | the three queries and their updates compute the expiry of the job |
| HarnessService.Service.CreateJob | src/llm_git_bridge/harness/service.py:104-140 | answers and writes as its transaction says, or fails and writes nothing |
| HarnessService.Service.GetJob | src/llm_git_bridge/harness/service.py:142-148 | commits the job's expiry and returns its row |
| HarnessService.Service.AcquireLease | src/llm_git_bridge/harness/service.py:150-188 | renews the holder's own lease, grants a fresh one under the next generation, or fails in the code's order of guards and rolls back |
| HarnessService.Service.RequireLease | src/llm_git_bridge/harness/service.py:190-197 | expires first, then compares identifier and generation |
| HarnessService.Service.RenewLease | src/llm_git_bridge/harness/service.py:199-210 | extends exactly the token's own row, as `RenewAnswers` says |
| HarnessService.Service.ReleaseLease | src/llm_git_bridge/harness/service.py:212-218 | deletes exactly the token's own row |
| HarnessService.Service.UpdateJob | src/llm_git_bridge/harness/service.py:220-250 | refuses terminal, unresolved, outdated and illegal updates in this order, and otherwise raises the version by one |
| HarnessService.Service.CreateHandoff | src/llm_git_bridge/harness/service.py:252-276 | replaces the lease by one pending handoff |
| HarnessService.Service.ClaimHandoff | src/llm_git_bridge/harness/service.py:278-319 | turns one open handoff into a lease under the next generation |
| HarnessService.Service.StartOperation | src/llm_git_bridge/harness/service.py:321-358 | returns the row of a known key with the same payload, refuses another payload or an unresolved operation, or starts one |
| HarnessService.Service.FinishOperation | src/llm_git_bridge/harness/service.py:360-388 | resolves a started or indeterminate operation once; a repeat of the same verdict is answered, another is refused |
| HarnessService.Service.ExpireOpenHandoffs | src/llm_git_bridge/harness/service.py:439-447 | expires each job that had an open handoff once, in some order |
| HarnessService.Service.OldestPending | src/llm_git_bridge/harness/service.py:486-493 | returns a pending row no older than any other a browser may take, or none if there is none |
| HarnessService.Service.ReserveReentry | src/llm_git_bridge/harness/service.py:469-516 | hands the client its own live reservation, else reserves an oldest pending handoff |
| HarnessService.Service.ReleaseReentry | src/llm_git_bridge/harness/service.py:518-540 | returns the client's own starting handoff to pending |
| HarnessAnswers.RenewAnswers | src/llm_git_bridge/harness/service.py:199-210 | a renewal succeeds exactly with a valid ttl and the token of the current unexpired lease, each refusal under its own cause; the row is then the old one with expiry now + ttl and nothing else changes, and the returned token equals it and is accepted at exactly the readings before now + ttl |
| HarnessAnswers.ReleaseAnswers | src/llm_git_bridge/harness/service.py:212-218 | a release succeeds exactly with the current token, deletes that row and nothing else, and each refusal has its own cause |
| HarnessAnswers.AcquireRefusals | src/llm_git_bridge/harness/service.py:150-188 | each refusal of a lease request happens exactly under its own cause, and the request succeeds exactly when there is none |
| HarnessAnswers.AcquireExtends | src/llm_git_bridge/harness/service.py:166-173 | a holder's own live lease is extended to now + ttl; nothing else changes, and the token says the same |
| HarnessAnswers.AcquireGrants | src/llm_git_bridge/harness/service.py:174-188 | otherwise a granted lease is the new row with expiry now + ttl under the next generation and version, the token equals it, and of the job's handoffs exactly the due ones are swept |
| HarnessAnswers.TokenLasts | src/llm_git_bridge/harness/service.py:190-197 | a token that equals its row is accepted at exactly the readings before its expiry |
| HarnessAnswers.CreateAnswers | src/llm_git_bridge/harness/service.py:104-140 | a job is created exactly when it is named and new, as a row with version 1, generation 0 and the given columns, and nothing else changes |
| HarnessAnswers.GetAnswers | src/llm_git_bridge/harness/service.py:142-148 | a read answers the job's row, fails exactly for an unknown job, and leaves in the tables just what has not run out |
| HarnessAnswers.UpdateAnswers | src/llm_git_bridge/harness/service.py:220-250 | each refusal of an update happens exactly under its own cause; otherwise the row has the new lifecycle and columns and the next version, and nothing else changes |
| HarnessAnswers.HandOffAnswers | src/llm_git_bridge/harness/service.py:252-276 | a handoff is created exactly by the current lease of a job that is not terminal: the lease is gone, and the new row is pending under the returned nonce with creation time now and expiry now + ttl |
| HarnessAnswers.ClaimAnswers | src/llm_git_bridge/harness/service.py:278-319 | a claim with the nonce of a handoff succeeds exactly while that handoff is open and before its expiry on a job that is not terminal, each refusal under its own cause; the job then has a lease with expiry now + ttl under the next generation and the row is claimed and keeps no secret |
| HarnessAnswers.ClaimNeedsAnOffer | src/llm_git_bridge/harness/service.py:284-300 | a nonce that no row of the job has is not found |
| HarnessAnswers.OfferLastsUntil | src/llm_git_bridge/harness/service.py:252-319 | a handoff just created is claimable at exactly the readings before now + ttl |
| HarnessAnswers.KnownKeyAnswers | src/llm_git_bridge/harness/service.py:321-345 | a key already used on the job is answered from its row if the job is not terminal and the payload is the same, refused otherwise, and no operation is added |
| HarnessAnswers.NewKeyAnswers | src/llm_git_bridge/harness/service.py:346-358 | a new key starts one operation exactly if the job is neither terminal nor has an unresolved one |
| HarnessAnswers.FinishAnswers | src/llm_git_bridge/harness/service.py:360-388 | an operation is given its verdict and result exactly if it is not already resolved otherwise, a repeated verdict answers the row, and nothing else changes |
| HarnessAnswers.SweepExactly | src/llm_git_bridge/harness/service.py:439-447 | sweeping open handoffs expires exactly the rows past their expiry, returns exactly the reservations that have run out, and changes nothing else |
| HarnessAnswers.ReserveAnswers | src/llm_git_bridge/harness/service.py:469-516 | a browser gets its own live reservation again, else an oldest free handoff reserved until the smaller of now + ttl and the handoff's expiry, else nothing; every other row is only swept |
| HarnessAnswers.ReleaseReentryAnswers | src/llm_git_bridge/harness/service.py:518-540 | a reservation is given back exactly by the client that holds it while it lasts, each refusal under its own cause, and the row is then pending without a reservation |
| HarnessProtocol.TablesAreASequentialRun | src/llm_git_bridge/harness/local_protocol.py:119-184 | under any stream of duplicated, reordered, retried or foreign messages and stops between transactions, the tables equal a sequential run that applies each executed request once, as exactly the call its own row was opened with, and a completed row holds the response of that one execution |
| HarnessProtocol.SettledRowsFrozen | src/llm_git_bridge/harness/local_protocol.py:147-154 | a completed or failed row never changes |
| HarnessProtocol.AbandonedNeverRuns | src/llm_git_bridge/harness/local_protocol.py:119-145 | a row left started by a stopped dispatcher causes no further service transaction |
| HarnessProtocol.FailureIsHonestIff | src/llm_git_bridge/harness/local_protocol.py:178-180 | a dispatcher that overwrites a started row with a failure reports that request's own execution if and only if its message is the one the row was made for |
| HarnessProtocol.FailedMeansNoEffect | src/llm_git_bridge/harness/local_protocol.py:156-184 | if no message reuses the ID with another body, a failed row means its one execution changed nothing |
| HarnessProtocol.ForeignMessageMisreports | src/llm_git_bridge/harness/local_protocol.py:125-127 | a message reusing the ID with other arguments marks the request failed although its job is created |
| HarnessDispatch.LocalProtocol.BeginRequest | src/llm_git_bridge/harness/local_protocol.py:119-145 | refuses a malformed or reused ID, answers a known one from its row, or inserts a started row |
| HarnessDispatch.LocalProtocol.FinishRequest | src/llm_git_bridge/harness/local_protocol.py:147-154 | settles the row only while it is started |
| HarnessDispatch.LocalProtocol.Call | src/llm_git_bridge/harness/local_protocol.py:200-240 | each job, lease, handoff, operation and reservation action is the service call of that name |
| HarnessDispatch.LocalProtocol.Dispatch | src/llm_git_bridge/harness/local_protocol.py:156-184 | a read answers what the service answers and leaves the journal alone; malformed reads and mutations without an ID change nothing; every other mutation does what DispatchMutation does and is begin, execute and finish of the machine |
| HarnessDispatch.LocalProtocol.DispatchMutation | src/llm_git_bridge/harness/local_protocol.py:169-184 | a malformed message or an ID reused with another body is refused by that name, and fails the row if it was started; a known request is answered from its row, or as indeterminate while started, and nothing runs; a new one runs the service call once, and its answer and row are the service's reply or error, an unexpected failure leaving the row started |
| GitTransactions.OnePublicationPerTransaction | src/llm_git_bridge/core.py:2087-2111 | over any retries, interleavings and crashes at most one commit is published for a transaction ID; it carries the ID and hash of the request that claimed the ID and has that request's base as sole parent |
| GitTransactions.SuccessesAgree | src/llm_git_bridge/core.py:1799-1822 | all successes ever reported under a transaction ID name one and the same commit, with the trailers and base of the one request that claimed it |
| GitTransactions.ClaimsArePermanent | src/llm_git_bridge/core.py:1267-1297 | a claim is never rebound or removed |
| GitTransactions.RetryRecoversTip | src/llm_git_bridge/core.py:1802-1817 | while the published commit is the tip, a retry recovers that commit, whatever HEAD and policy are |
| GitTransactions.RetryAfterMoveIsStale | src/llm_git_bridge/core.py:1818-1822 | once the branch has moved on, a retry is refused as stale |
| GitTransactions.SwapIsFirst | src/llm_git_bridge/core.py:2087-2111 | a compare-and-swap can succeed only if the transaction was never published |
| GitTransactions.PublicationsWerePermitted | src/llm_git_bridge/core.py:1823-1827 | every publication of every run was screened under a policy that allowed the commit and, if the request asks for a push, the push |
| GitProcess.Repository.Look | src/llm_git_bridge/core.py:1785-1827 | the refs read by one command decide refusal, recovery or publication as screened, which `RefusedExactly` states cause by cause |
| GitProcess.RefusedExactly | src/llm_git_bridge/core.py:1785-1827 | each rejection happens exactly under its own cause, read off branch, claims, HEAD and policy in program order; the request's own commit at the tip is recovered; everything else goes on to be published |
| GitProcess.Repository.CreateClaim | src/llm_git_bridge/core.py:1267-1297 | creates the claim, or holds it only under the same hash, and never overwrites one |
| GitProcess.Repository.UpdateRef | src/llm_git_bridge/core.py:2092-2111 | moves the branch only from the declared old value, or only creates it |
| GitProcess.Repository.ProcessTransaction | src/llm_git_bridge/core.py:1741-2111 | with other processes acting between any two Git commands, an attempt is a run of the machine.  It is refused exactly for the first of: ID claimed by another request, branch absent and HEAD not the base, branch at another request's commit under this ID, branch elsewhere than at the base, commits disabled, push asked for and disabled; a refusal changes nothing; its own commit at the tip is returned; and with nobody acting in between, every other request whose tree can be built is published as one commit on its base, with branch and claim set |
| RegistryScans.CheapEqualsFullIff | src/llm_git_bridge/core.py:286-595 | when unchanged markers mean unchanged histories, every old entry has an identity and every tree either discovery finds is a readable repository with a commit, both scans succeed and return the same registry, retired set and fresh IDs included, if and only if every available root inside a work tree has a `.git` of its own and every old entry that lies below no configured root is taken over by a tree carrying its marker |
| RegistryScans.DiscoveriesAgreeIff | src/llm_git_bridge/core.py:286-325 | where every `.git` found belongs to a repository, the two discoveries find the same trees if and only if every available root inside a work tree has a `.git` of its own |
| RegistryScans.RootInWorkTreeDiffers | src/llm_git_bridge/core.py:292-294 | an available root inside a work tree without a `.git` of its own is published by the full scan and never by the cheap scan |
| RegistryScans.RootInWorkTreeExample | src/llm_git_bridge/core.py:317-323 | root /w/sub inside work tree /w: the full scan publishes it, the cheap scan publishes the repository nested in it, or nothing |
| RegistryScans.StraysClaimedIffTaken | src/llm_git_bridge/core.py:420-504 | an old entry that lies below no available and no configured root is bound again exactly when some tree carries its marker and no entry of that tree's own history stands at the tree's path |
| RegistryScans.CandidatesAreTrees | src/llm_git_bridge/core.py:286-325 | either discovery returns exactly the trees it found, each once, all below available roots |
| RegistryScans.ForgottenRootDiffers | src/llm_git_bridge/core.py:739-757 | an entry under a root no longer configured stays live in the cheap scan and is retired by the full scan |
| RegistryScans.BindingsAgree | src/llm_git_bridge/core.py:423-504 | given the same trees, under these hypotheses, both scans bind them to the same IDs and identities |
| RegistryScans.ScanKeepsInv | src/llm_git_bridge/core.py:506-595 | one scan of either kind, for any candidates, keeps paths unique, retired IDs retired and recorded identities unchanged |
| RegistryScans.IdsAreNeverReused | src/llm_git_bridge/core.py:684-795 | over any sequence of scans of both kinds, an ID once live is live or retired, a retired ID is never live again, its identity never changes, and live paths are unique |
| RegistryAnswers.ScanAnswers | src/llm_git_bridge/core.py:346-795 | either scan, over any registry that scans keep: which tree keeps which old ID by the direct rules, which by history, the first free name of every other tree with a history, the exact entries written, kept and retired, and exactly when the scan raises; stated over old entries, trees and the new registry alone |
| RegistryAnswers.MoveNeedsExactlyOne | src/llm_git_bridge/core.py:483-504 | in a successful scan of either kind a tree that no direct rule binds is written under an old ID if and only if exactly one old entry, unclaimed at its turn, has its identity and a place under an available root, and under that entry's ID; otherwise it gets an ID that is neither old nor retired, and the entries that fit it are retired unless another tree takes them |
| RegistryAnswers.AnswerIsDetermined | src/llm_git_bridge/core.py:346-795 | the description has one solution: any result that fits it is the scan's own |
| RegistryAnswers.DiscoveryExactly | src/llm_git_bridge/core.py:286-325 | a tree is discovered exactly if some way down from an available root leads to it, it has a `.git` of its own, in the full scan also a repository, and no directory passed on the way was reported; the full scan takes a root inside a work tree as it stands |
| RegistryRules.CounterProgress | src/llm_git_bridge/core.py:563-568 | each taken suffix uses up one of finitely many unavailable IDs, so the counter loop ends |
| RegistryRules.SuffixedInjective | src/llm_git_bridge/core.py:563-568 | two counters never give the same ID |
| RegistryBuilder.WalkTree | src/llm_git_bridge/core.py:296-300 | the walk below a root finds what its specification finds, and enters no tree it has reported |
| RegistryBuilder.DiscoverTrees | src/llm_git_bridge/core.py:286-325 | the loop over the roots finds the trees of the cheap or the full discovery |
| RegistryBuilder.IndexPrevious | src/llm_git_bridge/core.py:369-384 | the three dictionaries give the last entry of a path, the first of a marker and all of an identity |
| RegistryBuilder.CheapDirectPass | src/llm_git_bridge/core.py:420-458 | the cheap path and marker pass computes its specification, failures included |
| RegistryBuilder.FullDirectPass | src/llm_git_bridge/core.py:689-706 | the full path and marker pass computes its specification |
| RegistryBuilder.HistoryPass | src/llm_git_bridge/core.py:460-504 | the loop computes the specified history pass, which takes over an entry exactly when it alone fits (`MoveNeedsExactlyOne`) |
| RegistryBuilder.KeepOffline | src/llm_git_bridge/core.py:506-523 | splits the unmatched entries into kept and removed |
| RegistryBuilder.FreshIdFor | src/llm_git_bridge/core.py:557-568 | the ID loop returns the first free candidate of its sequence |
| RegistryBuilder.CountUp | src/llm_git_bridge/core.py:563-568 | the counter loop returns the first free suffix |
| RegistryBuilder.RecordIdentities | src/llm_git_bridge/core.py:673-688 | drops unknown trees without a history and refuses known ones |
| RegistryBuilder.AddFresh | src/llm_git_bridge/core.py:545-586 | fresh entries get free IDs in candidate order; a tree whose state cannot be read makes the scan raise |
| RegistryBuilder.WriteAll | src/llm_git_bridge/core.py:758-787 | the interleaved loop writes what matching first and adding after would, or raises when any tree's state cannot be read |
| RegistryBuilder.ReconcileMembership | src/llm_git_bridge/core.py:346-595 | discovery, passes and loops of the cheap scan compute the specified registry, or raise where it says so; `ScanAnswers` describes both |
| RegistryBuilder.BuildRegistry | src/llm_git_bridge/core.py:645-795 | discovery, passes and loops of the full scan compute the specified registry, or raise where it says so; `ScanAnswers` describes both |
| RootPolicy.InheritedRootPush | src/llm_git_bridge/app.py:166-175 | returns the push flag of the deepest root above the path, or none; the specification is inheritance along the path |
| RootPolicy.PolicyExactly | src/llm_git_bridge/app.py:166-175 | the policy of a path is push exactly if a deepest root at or above it has the flag, deny exactly if there are such roots and none has it, and none exactly if there is no root at or above it |
| RootPolicy.KeptPreservesPolicy | src/llm_git_bridge/app.py:178-192 | the kept roots give every path the same policy as all roots |
| RootPolicy.KeptIsLeast | src/llm_git_bridge/app.py:178-192 | any subset with the same policy contains the kept roots, so they are the unique least one |
| RootPolicy.KeptIsIdempotent | src/llm_git_bridge/app.py:178-192 | pruning twice is pruning once |
| RootPolicy.PruneRedundantRoots | src/llm_git_bridge/app.py:178-192 | the method returns exactly the kept roots of the last entry per path, shallow first |
| RootPolicy.PruningFaithfulIff | src/llm_git_bridge/app.py:178-192 | pruning keeps the policy of the list as given if and only if no path has a push entry that a later entry of the same path overrides |
| RootPolicy.RepeatedRootLosesPush | src/llm_git_bridge/app.py:178-192 | a root listed twice with different flags changes policy when pruned |
| RootPolicy.MigrateConfig | src/llm_git_bridge/app.py:195-223 | version 2 is returned as it is; version 1 becomes version 2 with the pruned roots denied push and the legacy list as overrides, or is refused when a root is no plain path; any other version is refused |
| RootPolicy.MigrationFaithfulIff | src/llm_git_bridge/app.py:226-241 | migration leaves `_repo_push_allowed` unchanged for every repository if and only if every override already in the version 1 file agrees with its legacy list of enabled repositories |
| RootPolicy.PushAllowedExactly | src/llm_git_bridge/app.py:226-241 | a repository may push if and only if its own override says so, or it has none and either a file before version 2 lists it or a deepest configured root at or above it has the push flag |
| WatcherQueue.ReachableWatcher | src/llm_git_bridge/app.py:2569-2770 | in every reachable state active and total work are bounded, no path runs twice, each request that arrived once is in exactly one of waiting, running and signed (WatcherLoop.Loop admits each only once), and each key's requests leave in arrival order |
| WatcherQueue.AlwaysProgress | src/llm_git_bridge/app.py:2713-2715 | "fairness state is inconsistent" and "cannot make progress" cannot be raised |
| WatcherQueue.FairWithin | src/llm_git_bridge/app.py:2686-2770 | with no new key, a key whose first request stays runnable is handed to a worker within the number of keys ahead of it plus one |
| WatcherQueue.DispatchComesNearer | src/llm_git_bridge/app.py:2716-2725 | each dispatch serves the key or brings the cursor strictly nearer to it |
| WatcherQueue.DispatchKeepsInv | src/llm_git_bridge/app.py:2682-2770 | a dispatch round keeps bounds, one running request a path, order and accounting |
| WatcherQueue.DispatchExactly | src/llm_git_bridge/app.py:2686-2769 | a round with a free worker: if the head of some key cannot be resolved, the earliest such request is signed as failed; else if some head can run, the one whose key comes first from the cursor starts in its path and the cursor moves past it; else nothing happens |
| WatcherQueue.ChoiceIsUnique | src/llm_git_bridge/app.py:2716-2725 | that request is one only |
| WatcherLoop.Loop.Submit | src/llm_git_bridge/app.py:1705-1723 | refuses a path or a request in flight, and records both otherwise |
| WatcherLoop.Loop.Survey | src/llm_git_bridge/app.py:2687-2706 | the loop computes the runnable first requests, or the first that fails |
| WatcherLoop.Loop.NextTurn | src/llm_git_bridge/app.py:2716-2725 | finds the first runnable key from the cursor, going round |
| WatcherLoop.Loop.ChooseOne | src/llm_git_bridge/app.py:2686-2769 | one round pops a failing request or hands one over; the scheduler never refuses it |
| WatcherLoop.Loop.DispatchPending | src/llm_git_bridge/app.py:2682-2770 | stops only when nothing waits, all workers are taken or the last look chose nothing, and never with work waiting and all workers idle |
| WatcherLoop.Loop.FinishItem | src/llm_git_bridge/app.py:2602-2665 | a finished request leaves the workers, its result is signed, and its path and name are free |
| WatcherLoop.Loop.DrainOne | src/llm_git_bridge/app.py:2772-2776 | waits for the oldest running request; raises exactly when none runs |
| WatcherLoop.Loop.DrainAll | src/llm_git_bridge/app.py:2778-2784 | ends with nothing waiting or running and every arrived request signed |
| WatcherLoop.Loop.Ingest | src/llm_git_bridge/app.py:2792-2889 | queues the listed transactions in order within the job bound; no error is raised |
| WatcherLoop.Loop.ReapFinished | src/llm_git_bridge/app.py:2900-2906 | exactly the workers that have ended leave, each with its result signed |
| WatcherLoop.Loop.Round | src/llm_git_bridge/app.py:2891-2953 | one round ends the loop only with everything that arrived signed; unless it reaped a worker, every request then listed has been admitted exactly once |
| WatcherLoop.Loop.Watch | src/llm_git_bridge/app.py:2891-2953 | over any rounds the errors are not raised and all invariants hold, and the loop ends early only with nothing waiting or running and everything that arrived signed |
| WatcherLoop.Loop.FreshOnly | src/llm_git_bridge/app.py:2786-2790 | returns exactly the listed names that never arrived, in the order listed; owned and signed names are not ingested again |
| MailboxReplay.DeletedOnlyAfterMarker | src/llm_git_bridge/app.py:1334-1346 | whatever uploads and deletes do and whoever acts, a request object disappears only after its marker is durable |
| MailboxReplay.MarkedMeansResultReached | src/llm_git_bridge/app.py:2481-2491 | a marker exists only when the request's one durable signed result has reached the results directory, and an authentic remote result is always that result |
| MailboxReplay.PrunedOnlyWhenMarked | src/llm_git_bridge/app.py:1445-1476 | a local result disappears or changes only after its marker is durable |
| MailboxReplay.DurableNeverRunsAgain | src/llm_git_bridge/app.py:2029-2049 | a request with a durable signed result is never run again and that result is final |
| MailboxReplay.RunOnceWithoutCrash | src/llm_git_bridge/app.py:2997-3065 | without a crash a request is run at most once |
| MailboxProcess.Watcher.UploadResult | src/llm_git_bridge/app.py:2481-2488 | an upload may land, be lost, or land unreported; it is acknowledged exactly if reported, and then the result stands in the results directory |
| MailboxProcess.Watcher.CleanupRemoteRequest | src/llm_git_bridge/app.py:1334-1346 | only a marked request is deleted; it is gone when the delete lands, and goes later when the delete is late |
| MailboxProcess.Watcher.PruneLocalResults | src/llm_git_bridge/app.py:1445-1476 | removes marked results only, until the excess is gone or no marked result is left |
| MailboxProcess.Watcher.PublishLocalResult | src/llm_git_bridge/app.py:1820-1894 | looks at the remote object once: an authentic one is marked without an upload, a forged one raises, and with none a recent result waits and any other is published exactly if its upload is reported |
| MailboxProcess.Watcher.PublishAndCleanup | src/llm_git_bridge/app.py:2463-2514 | marks exactly after a reported upload and touches no other marker; an upload that raises leaves the durable result |
| MailboxProcess.Watcher.PersistSigned | src/llm_git_bridge/app.py:2456-2460 | makes the signed result durable before any upload |
| MailboxProcess.Watcher.Process | src/llm_git_bridge/app.py:3015-3065 | a request that can be fetched is run exactly once, its result carries the number of that run and is durable, and it is published exactly if the upload is reported; one that cannot be fetched is left for later |
| MailboxProcess.Watcher.Classify | src/llm_git_bridge/app.py:1972-2012 | a request is published exactly when it has a marker, and each polled request is on one list |
| MailboxProcess.Watcher.Republish | src/llm_git_bridge/app.py:2029-2049 | unless it raises, every unmarked request with a durable result is marked or left as too recent with no remote object seen, and exactly the others wait to be run |
| MailboxProcess.Watcher.RunPending | src/llm_git_bridge/app.py:2997-3065 | unless it raises, every waiting request has run once or could not be fetched |
| MailboxProcess.Watcher.ProcessPendingOnce | src/llm_git_bridge/app.py:2969-3066 | one poll runs each request at most once, and only requests that had neither marker nor durable result; unless it raises, every other polled request is then marked, was left because its result is too recent, has run, or could not be fetched; it raises only for an upload that was not reported or a forged remote result |
| WorkspaceIntegration.EveryIntegrationIsSafe | shell_bridge/workspace.py:600-670 | every integration that landed has its parent in its checkpoint's history, or its list of changed paths, as Git gives it under the renames it detected, shares none with that of canonical history since its base, where no commit names its resource; its own list does not name the validation policy |
| WorkspaceIntegration.DisjointListsExactlyWhen | shell_bridge/workspace.py:498-500 | two lists that share no path stand for ranges that share none if and only if neither side renamed away a path the other changed; a path both changed existed in the base and is gone on one side |
| WorkspaceIntegration.IntegrationsAreDisjointIff | shell_bridge/workspace.py:619-634 | in every run: of an integration without its parent in its checkpoint's history, both ranges are disjoint if and only if neither side renamed away a path the other changed; and its checkpoint left the validation policy alone if and only if it did not rename it away |
| WorkspaceIntegration.RenameHidesOverlap | shell_bridge/workspace.py:498-500 | a job that renames a file canonical history edits lands unreconciled though both ranges change that file, and is refused without rename detection |
| WorkspaceIntegration.RenameHidesPolicy | shell_bridge/workspace.py:622-624 | a job that renames the validation policy away lands and leaves canonical history without one, and is refused without rename detection |
| WorkspaceIntegration.NoCheckpointIntegratedTwice | shell_bridge/workspace.py:600-670 | no checkpoint of a job is integrated twice, whatever metadata was lost after a push |
| WorkspaceIntegration.SecondAttemptMustBeReconciled | shell_bridge/workspace.py:619-634 | a second integration of a job finds the first in its range and so must contain its own parent |
| WorkspaceIntegration.IntegratedNeverAdmitted | shell_bridge/workspace.py:616-634 | the checks refuse a checkpoint canonical history already holds, whatever reconciliation the metadata claims |
| WorkspaceIntegration.HarmlessAttemptsAreAdmitted | shell_bridge/workspace.py:616-634 | an attempt whose base is canonical and that leaves the policy file alone is let through if no file differs from the base on both sides and no canonical commit since names its resource, or if the metadata names the tip as reconciled and the checkpoint contains it |
| WorkspaceIntegration.LandedOnTip | shell_bridge/workspace.py:658-664 | a push that lands was built on exactly the tip it replaces |
| WorkspaceIntegration.SearchFindsTheIntegration | shell_bridge/workspace.py:559-588 | the search of canonical history returns a commit if and only if this checkpoint was integrated, and never two |
| WorkspaceProcess.Workspace.ResourceSeen | shell_bridge/workspace.py:503-507 | true exactly when a commit between base and tip names the resource |
| WorkspaceProcess.Workspace.FindExisting | shell_bridge/workspace.py:559-577 | returns exactly the canonical commits of this job and checkpoint among those the log query lists |
| WorkspaceProcess.Workspace.FindOne | shell_bridge/workspace.py:573-577 | among commits that carry job and checkpoint as trailers the "multiple canonical integrations" error is never raised; the one integration listed is returned, or none |
| WorkspaceProcess.Workspace.Screen | shell_bridge/workspace.py:616-634 | passes exactly the attempts whose list does not name the policy and whose range shares no listed path or resource with canonical history, or is reconciled and proven so |
| WorkspaceProcess.Workspace.PushCandidate | shell_bridge/workspace.py:662-664 | the push lands exactly when it reaches the remote and is a fast-forward of the tip there, and is reported exactly when it lands and its answer arrives; it adds this one integration on that tip, or nothing |
| WorkspaceProcess.Workspace.PushAndSettle | shell_bridge/workspace.py:662-674 | from the push on, each error says whether the integration landed: after a failed push exactly if the push reached the remote as a fast-forward and its answer was lost, after every later error always |
| WorkspaceProcess.Workspace.WriteReceipt | shell_bridge/workspace.py:533-556 | a receipt is created once and never replaced; an existing one is accepted exactly when it names the same checkpoint and commit |
| WorkspaceProcess.Workspace.Settle | shell_bridge/workspace.py:665-670 | after a landed push, a tip that moved again, a failed look at the remote, a failed or conflicting receipt or a failed save raises and leaves the metadata as it was; otherwise the integration is recorded |
| WorkspaceProcess.Workspace.Recover | shell_bridge/workspace.py:559-597 | the search before an attempt: it finds nothing exactly if no listed commit is an integration of the recorded checkpoint, and otherwise returns that commit if receipt and metadata can be written |
| WorkspaceProcess.Workspace.Attempt | shell_bridge/workspace.py:612-674 | with nobody else acting, an attempt ends with each error exactly under its own cause, and succeeds exactly if it is admitted, merges, validates, its push is reported, the tip is read again and receipt and metadata are written; the new tip is then one commit of the merged tree on the old tip with the job's trailers |
| WorkspaceProcess.Workspace.IntegrateJob | shell_bridge/workspace.py:600-674 | a call that finds no earlier integration fails with NotReady, Dirty and Unpublished exactly when the metadata is not ready, the worktree dirty, or the branch unpublished; otherwise, with nobody else acting, every further error has exactly its own cause and the call succeeds, with one new commit on the tip and the integration recorded, exactly when there is none.  Whoever acts: at most one integration lands, only from a ready job, of a checkpoint never integrated before; an error raised before the push leaves none, one raised after it exactly one, a failed push one only if its answer was lost, with metadata as it was; the next call finds the integration of the recorded checkpoint, if its log query lists it, and returns it when receipt and metadata can be written |

## Left out

- Verdict files written under other names beside a receipt (oversize, conflict and logical-conflict results) are not part of the journal model.
- Corrupt or symbolically linked files in the bridge's own reads; the gate's model has torn, missing and linked files.
- Process control, sandbox profiles, command classifiers and output pumping: a run is one step with a nondeterministic outcome, and approval is an oracle.
- Two reads between which no write of the same worker falls are one step of the journal machine.
- The wall-clock limit of the read-only gate; its byte budget is modelled.
- BridgeProcess.Bridge.ProcessOne: states a call that is alone on the journal; interleavings are covered by the machine it is a run of.
- HarnessDispatch.LocalProtocol.Call: the pairing, event and ping actions are not modelled; continuation commits the same expiry as GetJob and answers from other columns.
- Pairing codes, browser tokens, prompts and event listings of the harness; continuation and the listing of pending reentries, whose effect on the tables is that of GetJob steps (`SweepIsReads`).
- Token syntax checks of the harness are the well-formedness flag of a message; timestamps other than expiries and creation times are left out.
- A fresh identifier or nonce that collides with an old one is one unexpected database error, whatever table it hits.
- HarnessAnswers.AcquireRefusals: speaks of a drawn identifier that is not in use; likewise HandOffAnswers, ClaimAnswers, OfferLastsUntil and NewKeyAnswers.
- The checked-out-branch merge of a Git transaction and its branch-switch repair (core.py 1990-2086), pushes to the remote, worktrees, patches and snapshots.
- A branch moved by anyone but the publisher's compare-and-swap is outside the Git model.
- Registry paths are taken as already resolved; states such as head and dirty flags are not compared.
- A directory has a marker exactly when it has a `.git` entry; trees whose paths differ only in letter case are taken to sort the same way in both scans.
- Malformed registry entries whose ID or entry is not of the expected type are skipped by the code and absent here.
- RootPolicy.PruneRedundantRoots: the order among roots of equal depth (lower-case name) is not modelled; the returned set and the depth order are.
- The watcher model assumes no transport exception, as its errors would reach the outer reaper; materialize and immediate requests are answered outside the queue.
- WatcherLoop.Loop.Watch: follows any finite number of rounds; the clock that spaces live polls is not modelled.
- Corrupt local results and their quarantine, mailbox scope binding, metrics and command logs.
- MailboxProcess.Watcher.Classify: a marker is taken as valid; the repair of an invalid marker from an authenticated remote result (app.py 1972-2012) is not modelled.
- MailboxProcess.Watcher.ProcessPendingOnce: the one-worker path; the concurrent path shares the queue model and the replay machine.
- MailboxProcess.Watcher.RunPending: says of skipped requests only that a download failed meanwhile; `Process` ties each to its own download.
- The age order in which local results are pruned; only how many and which kind are modelled.
- Content of a squash merge and of trusted validation: the candidate tree and the verdict are parameters.
- WorkspaceIntegration.SearchFindsTheIntegration: states an exact search of all history; the bounded query is a parameter of FindExisting, and others are assumed not to publish an unpushed candidate.
- WorkspaceProcess.Workspace.FindOne: as for FindExisting, a match in the text of a foreign message could raise the error in the code.
- WorkspaceProcess.Workspace.FindExisting: a commit carries job and checkpoint as trailers; messages that merely contain the same text are not modelled.
- WorkspaceProcess.Workspace.IntegrateJob: a missing or invalid validation policy and an empty change are failures of the validation parameter; the write that marks a job conflicted is taken to succeed.
- Other parts of the repository: transports, servers, browser and macOS pieces, installers, audits and preflight scripts, which hold no protocol of their own.
