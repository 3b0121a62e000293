# Coordinate: a verified model of the coordination kernel

Coordinate keeps all its state in rows that short transactions change, so what it promises is about whole runs: leases and
the capacity catalogue they are reserved against, completion receipts over an append-only event ledger, one-shot channel
messages and the generic outbox in one delivery table, channel bindings, the executor catalogue, worktree paths, and paged
channel history.  This project models those parts in Dafny and proves properties of every reachable state, every
interleaving and every input.

How the model reads the source:

- One `BEGIN IMMEDIATE`, savepoint or single-statement block is one atomic step.  Where a function reads first and writes
  later, and a property depends on it, the two halves are separate steps that other calls may come between.
- Classes (`KernelStore.Database`, `ReceiptStore.Store`, `ReceiptStore.CodingHost`, `Outbox.Store`, `Bindings.Store`,
  `Identity.Registry`) run the operations step by step on mutable rows; each method is proved equal to a specification
  function, and the theorems about runs are about those functions.
- SHA-256 over canonical JSON is a free constructor (injective); times are integers and the clock never runs backwards;
  generated identifiers are parameters.  `Timestamps` closes the gap to the stored texts.

- Beside what every run keeps, each main operation has a law that says, on the rows or events alone, exactly when it
  succeeds and what it then leaves, so that it can neither allow nor refuse too much: the modules named `...Outcomes`,
  `ReceiptDecisions` and `OutboxRetries`.

Modules: `Text` (shared vocabulary); `Capacity`, `CapacityOutcomes`, `Leases`, `Kernel`, `KernelOutcomes`, `KernelStore`;
`Receipts`, `ReceiptProtocol`, `ReceiptTerminal`, `ReceiptDecisions`, `FilesCommand`, `ReceiptCases`, `ReceiptStore`;
`Delivery`, `DeliveryOutcomes`, `DeliveryBound`, `DeliveryRaces`, `Outbox`, `OutboxRetries`, `OutboxSteps`; `Bindings`,
`BindingOutcomes`; `Identity`, `IdentityRuns`, `IdentityOutcomes`, `IdentityCases`; `Paths`, `WorktreeRoots`,
`ExecutionContext`, `ContextOutcomes`, `ContextCases`; `Timestamps`; `Paging`, `PagingOutcomes`, `Base64Url`, `Cursors`.

Where the code does less than its documentation or than one would expect, the model follows the code, a lemma exhibits the
case, and another says exactly when the promise holds:

- A sync stores a source path that the strict validation later rejects, so a restore can be blocked
  (`Capacity.CaptureSyncsRestore`, `Capacity.UnstorablePathBlocksRestore`).
- A claim may record an after-fingerprint that is no digest; the derivation then reports the chain broken, and only then
  (`ReceiptProtocol.DerivationComplete`, `ReceiptCases.LooseClaimReachable`).
- A consume reads outside the savepoint it writes in, so two of them can give a task two terminals
  (`ReceiptTerminal.InterleavedConsumesBothLand`, `ReceiptCases.TwoTerminalsReachable`).  A commit keeps one terminal per
  task exactly if no other receipt of the task was consumed since its own read (`ReceiptTerminal.CommitKeepsOneExactly`,
  `ReceiptTerminal.GuardedRunsHaveOneTerminal`).
- The gate authorizes an item that is already done and closed; such a receipt can never be applied
  (`FilesCommand.FinishedItemNeverApplies`).  The preflight comment calls a claimed chain authoritative whatever its age,
  but a claim past the window is refused (`FilesCommand.LatePreflightAdmits`, `FilesCommand.LateClaimRefused`).
- Pumps that overlap on a row have no send bound (`DeliveryRaces.OverlappingPumpsUnbounded`); without that, whatever else
  overlaps, the bound holds (`DeliveryBound.SendsAreBoundedUnlessHeldTwice`).  An overlapping recovery reopens a sent row
  (`DeliveryRaces.StaleRecoveryResends`): it breaks finality, not the bound, and a final row that no process has in hand
  stays (`DeliveryBound.FinalOnceReleased`).
- One row without an adapter stops every later pump (`Outbox.UnroutableRowBlocks`; exactly when: `Outbox.PumpsDrain`).
- A submit resolves its binding before it writes, a retry copies the old snapshot, and the claim of an agent that is no
  longer typed takes a job unseen; each can leave a live job with a stale snapshot (`IdentityCases.SplitSubmitGoesStale`,
  `IdentityCases.RetryGoesStale`, `IdentityCases.DisabledAgentRunsStaleJob`).  `IdentityRuns.StaleExactly`, `LiveExactly`
  and `RunningExactly` say exactly when.
- A cursor can be longer than its own decoder accepts (`Cursors.LongCursorIsRefused`; exactly when: `Cursors.CursorExact`).
- Normalization strips whitespace before it splits, so it is idempotent, and a written allowlist reads back, only up to
  trailing whitespace (`ContextCases.BlankIsNormalizedTwice`, `ContextCases.BlankRootIsNotReadBack`, and on concrete paths
  `ContextCases.BlankRootOfWorkspace`; exactly when: `Paths.NormalizeIsIdempotent`, `WorktreeRoots.RootListRoundTrip`).  A
  root whose first segment starts with a colon is taken for a drive (`Paths.ContainmentExact`, `Paths.DescendantIsBeneath`).
- The claim gate can refuse what the submit let through: a `..` followed by a space passes the traversal check
  (`ContextCases.HiddenParentClimbs`), a workspace that ends in a space or holds a backslash is joined to a place beside it
  (`ContextCases.BlankWorkspaceDisagrees`, `ContextCases.BackslashWorkspaceDisagrees`), a blank last name is lost
  (`ContextCases.BlankSiblingDisagrees`; exactly when: `ExecutionContext.SiblingExactly`).  For every POSIX workspace
  `ExecutionContext.ControlAgrees` says where a control context is stored and exactly when it passes, and four lemmas turn
  that into a test of the tail: joined by slashes (`SlashControlAgrees`, `BlankControlAgrees`, `LostNameControlAgrees`) or
  by backslashes (`BackslashControlAgrees`).

## Model

| member | source | states |
|---|---|---|
| `Kernel.CapacityNeverExceeded` | src/coordinate/execution_leases.py:297-496 | In every state of every run of lease calls, syncs, restores, registry changes and clock readings, every active lease's policy id and limit are those of its agent's current policy row, and the agent's live leases never outnumber that limit, now or at any later instant |
| `Kernel.ResourceExclusion` | src/coordinate/execution_leases.py:396-445 | In every reachable lease table no two active leases share a worktree, even past expiry, and no two leases share a job attempt |
| `Kernel.LeaseHistory` | src/coordinate/execution_leases.py:508-728 | Over any stretch of a run a lease keeps its identity, a released or expired one never changes again, and its expiry never moves back nor lies more than 600 seconds ahead of the clock |
| `Kernel.RenewalExtends` | src/coordinate/execution_leases.py:508-555 | A renewal that changes the table strictly extends exactly one live lease, to the clock plus its TTL |
| `Kernel.SyncPins` | src/coordinate/executor_capacity.py:384-411 | A sync that the active-lease guard lets through leaves every active lease pinned to the same policy id and limit |
| `Kernel.RestoreKeeps` | src/coordinate/executor_capacity.py:1203-1207 | A restore keeps the run invariant: the guard leaves no active lease a replaced policy could strand |
| `Kernel.ReserveKeeps` | src/coordinate/execution_leases.py:396-490 | A reserve keeps capacity, pinning, resource exclusion and attempt uniqueness |
| `Kernel.RunKeeps` | src/coordinate/execution_leases.py:297-728 | The kernel invariant holds in every state of every run |
| `KernelOutcomes.GrantedExactly` | src/coordinate/execution_leases.py:297-496 | In every reachable state a reserve is granted exactly if its TTL, attempt, job row, profile, context and policy agree, no lease has its attempt, no active lease its worktree, agent and profile are registered, its id is new, and fewer of the agent's active leases expire after the counting instant than its policy allows; it then adds exactly the call's row and otherwise changes nothing, and exhausted capacity is answered exactly where only room is missing |
| `KernelOutcomes.EveryLimitIsReached` | src/coordinate/execution_leases.py:439-445 | For every limit a policy may set some run lets one agent hold exactly that many live leases |
| `KernelOutcomes.ReplayedExactly` | src/coordinate/execution_leases.py:396-422 | A repeated reserve is answered with its own lease exactly if that lease still has the call's agent, profile and worktree and the agent's current policy |
| `KernelOutcomes.RenewedExactly` | src/coordinate/execution_leases.py:508-555 | A renewal lands exactly if the claim names an active unexpired lease and the new expiry lies past the old one; it changes the renewal instant and the expiry of that row |
| `KernelOutcomes.ReleasedExactly` | src/coordinate/execution_leases.py:558-629 | A release ends exactly an active lease the claim names, and succeeds again exactly for the recorded reason |
| `KernelOutcomes.ExpiredExactly` | src/coordinate/execution_leases.py:632-691 | An expiry ends exactly an active lease the claim names, and succeeds again exactly on an expired one |
| `KernelOutcomes.DueExpiredExactly` | src/coordinate/execution_leases.py:694-728 | Expiring what is due ends exactly the active leases whose expiry is not past the instant |
| `KernelOutcomes.SyncedExactly` | src/coordinate/executor_capacity.py:276-508 | A sync in a run is accepted exactly if the catalogue is neither older nor rewritten, covers the bindings and spares the policies of active leases; it then leaves exactly its rows, and refused it leaves every row |
| `KernelOutcomes.CatalogAdvances` | src/coordinate/executor_capacity.py:304-323 | Over any stretch of a run without a restore no source loses its row or falls to an older version, and where it stands twice at one version its source row and policy rows are the same both times |
| `KernelOutcomes.OlderCatalogIsRefused` | src/coordinate/executor_capacity.py:307-312 | A catalogue older than what its source held at any point since the last restore is a downgrade and changes no row |
| `KernelStore.Database.ReserveAttemptLease` | src/coordinate/execution_leases.py:297-496 | The row-by-row reserve equals the specification: same refusals in the same order, exact replay, or one new lease; which call is granted is `KernelOutcomes.GrantedExactly` |
| `KernelStore.Database.RenewAttemptLease` | src/coordinate/execution_leases.py:508-555 | Renew equals its specification, errors included |
| `KernelStore.Database.ReleaseAttemptLease` | src/coordinate/execution_leases.py:558-629 | Release equals its specification, idempotent for the same reason only |
| `KernelStore.Database.ExpireAttemptLease` | src/coordinate/execution_leases.py:632-691 | Expire equals its specification |
| `KernelStore.Database.ExpireDueAttemptLeases` | src/coordinate/execution_leases.py:694-728 | Exactly the active leases due are expired and returned; a tampered one refuses all |
| `KernelStore.Database.CountActiveLeases` | src/coordinate/execution_leases.py:122-131 | The number of the agent's active, unexpired leases, or an error if one of them is tampered with |
| `KernelStore.Database.FindActiveResourceLease` | src/coordinate/execution_leases.py:134-151 | An active lease of the resource if there is one, whatever its expiry |
| `KernelStore.Database.SyncCapacityCatalog` | src/coordinate/executor_capacity.py:276-508 | The sync over mutable rows equals its specification: refusal order, idempotent known version, replaced rows, rollback; which call is accepted is `KernelOutcomes.SyncedExactly` |
| `KernelStore.Database.CaptureCapacitySnapshot` | src/coordinate/executor_capacity.py:1059-1109 | Validating and sorting row by row, capture answers exactly for a valid projection, with an envelope that a restore accepts and that gives back the rows it was taken from, also when the target's rows are gone |
| `KernelStore.Database.RestoreCapacitySnapshot` | src/coordinate/executor_capacity.py:1183-1318 | Restore over mutable rows equals its specification |
| `Capacity.CaptureSyncsRestore` | src/coordinate/executor_capacity.py:1183-1318 | Capture, any syncs of that source, then restore without active leases gives back exactly the captured projection if the last stored source path passes the path rule, and is refused otherwise |
| `Capacity.UnstorablePathBlocksRestore` | src/coordinate/executor_capacity.py:622-637 | The refusal happens: one accepted sync with a control character in its path blocks the restore |
| `Capacity.SyncKeepsValidity` | src/coordinate/executor_capacity.py:746-829 | A successful sync of a valid projection leaves it valid exactly if the stored source path is valid, and leaves all other sources' rows alone |
| `Capacity.SyncedPolicies` | src/coordinate/executor_capacity.py:461-490 | After a sync the policy rows are the other sources' rows and one row per catalogue policy |
| `Capacity.RestoreKeepsValidity` | src/coordinate/executor_capacity.py:1112-1318 | A successful restore of any acceptable envelope leaves a valid projection and the other sources' rows |
| `Capacity.Inserted` | src/coordinate/executor_capacity.py:466-490 | The inserted rows are keyed by the catalogue's agents and belong to its source |
| `CapacityOutcomes.SyncAccepted` | src/coordinate/executor_capacity.py:276-411 | On any rows a sync succeeds exactly if the catalogue is neither older nor rewritten, covers the bindings and, unless it is stored already, spares the policies of active leases and breaks no table constraint; it is answered with a downgrade exactly for an older version, and with a hash change exactly for the stored version under another hash |
| `CapacityOutcomes.SyncLeaves` | src/coordinate/executor_capacity.py:440-490 | An accepted sync of something new leaves the source row and one policy row per catalogue policy, column by column, and every other source's rows |
| `CapacityOutcomes.VersionsNeverFall` | src/coordinate/executor_capacity.py:304-323 | Over any syncs of any sources, accepted or refused, no stored version falls, and a version stands for one hash, path and set of policy rows |
| `CapacityOutcomes.OlderIsRefused` | src/coordinate/executor_capacity.py:307-312 | A catalogue below what any earlier sync left is answered with a downgrade and changes no row |
| `CapacityOutcomes.RestoredExactly` | src/coordinate/executor_capacity.py:1183-1318 | A restore is accepted exactly for an envelope in order over valid rows without active leases, while the other sources stand as the snapshot saw them and its rows fit beside them; it leaves the snapshot's rows for the target and every other row |
| `Receipts.LookupReceiptForPreflight` | src/coordinate/completion.py:1123-1397 | The event loop computes the derivation function on any ledger |
| `Receipts.DerivationMeaning` | src/coordinate/completion.py:1156-1397 | On an arbitrary ledger a state is reported exactly for a chain that starts with an authorization and whose statuses are a prefix of authorized, claimed, applied, consumed with agreeing identities and linked fingerprints; the state is that chain's |
| `Receipts.ScanMeaning` | src/coordinate/completion.py:1176-1388 | After n events the loop goes on exactly if they are well linked, and its variables are then what those events say |
| `Receipts.TurnMeaning` | src/coordinate/completion.py:1176-1388 | One turn of the loop goes on exactly if the event continues the well-linked chain |
| `ReceiptProtocol.DerivationCompleteOverRuns` | src/coordinate/completion.py:489-1092 | For any receipts and any interleaving of the reads and appends of prepare, claim, apply and consume, the derivation is broken exactly if the recorded claim supplied a loose digest, and otherwise returns exactly the furthest recorded stage |
| `ReceiptProtocol.NeverBroken` | src/coordinate/completion.py:1123-1397 | If every claim call supplies a canonical digest, no receipt is ever derived as broken |
| `ReceiptProtocol.DerivationComplete` | src/coordinate/completion.py:1123-1397 | The same, on any ledger that satisfies the protocol's ledger invariant |
| `ReceiptProtocol.MoveKeeps` | src/coordinate/completion.py:691-1092 | Every read, append or unrelated event keeps the ledger invariant, and every write that is still pending still fits |
| `ReceiptProtocol.StageRecorded` | src/coordinate/completion.py:427-437 | A stage's key is taken exactly if the receipt's chain reaches it, and the latest event of its type is then the one at that position |
| `ReceiptProtocol.CommitTerminalIsPair` | src/coordinate/completion.py:1038-1078 | A consume's savepoint appends `task.done` and the consumed event that names it together, or nothing |
| `ReceiptTerminal.ConsumedMeansDone` | src/coordinate/completion.py:918-1092 | In every reachable ledger a receipt is consumed exactly if its `task.done` stands, for the same workspace and task, with the fingerprint its claim announced, the digest of that item done and closed |
| `ReceiptTerminal.OneTerminalPerTask` | src/coordinate/completion.py:918-1092 | With every call in one transaction, at most one receipt per workspace and task is ever consumed |
| `ReceiptTerminal.InterleavedConsumesBothLand` | src/coordinate/completion.py:972-984 | Two consumes of one task that both read before either appends both land: the single transaction is needed |
| `ReceiptTerminal.CommitKeepsOneExactly` | src/coordinate/completion.py:972-1078 | A consume that read an earlier ledger keeps one terminal per task exactly if its commit is void or no other receipt of its task was consumed since that read |
| `ReceiptTerminal.GuardedRunsHaveOneTerminal` | src/coordinate/completion.py:918-1092 | Over all interleavings of reads and appends in which every consume commits under that guard, at most one receipt per workspace and task is ever consumed |
| `ReceiptDecisions.PrepareExactly` | src/coordinate/completion.py:489-610 | On any ledger prepare appends exactly if the workspace is known, the gate item's workflow status is review_approved or closed, or it has none and is done, the item is the task's, and the last CI event of the workspace and task passed or there is none; what it appends carries the fingerprint of that item |
| `ReceiptDecisions.ClaimExactly` | src/coordinate/completion.py:691-780 | On a reachable ledger a claim appends exactly for an entitled caller, a receipt authorized and no more, and the authorized fingerprint, is answered from the record exactly for the recorded after-fingerprint, and is refused otherwise |
| `ReceiptDecisions.ApplyExactly` | src/coordinate/completion.py:820-894 | An apply appends exactly for an entitled caller and a receipt claimed and no more with the announced fingerprint, is answered from the record exactly for the applied one, and is refused otherwise |
| `ReceiptDecisions.ConsumeExactly` | src/coordinate/completion.py:918-1078 | A consume appends its two rows exactly for the authorized actor in time, a receipt applied and no more, a task without another terminal and an item deployed as applied and owned by nobody; a consumed receipt is answered with its own `task.done`, all else is refused |
| `ReceiptDecisions.EveryStageWasDecided` | src/coordinate/completion.py:489-1092 | However reads and appends interleave, every receipt event on record was decided by an earlier read of its stage's call at which all of that held; so every authorization passed both closeout gates and carries the fingerprint of the item then read |
| `ReceiptCases.TwoTerminalsReachable` | src/coordinate/completion.py:972-1078 | A concrete run from the empty ledger in which two receipts of one task are both consumed, because both are read before either is appended |
| `ReceiptCases.LooseClaimReachable` | src/coordinate/completion.py:752-780 | A concrete run in which an accepted claim announces a text that is no digest, and the derivation then reports the chain broken |
| `FilesCommand.RetryConverges` | src/coordinate/completion_cli.py:252-375 | After any run with crashes anywhere and other receipts' events in between, an entitled invocation inside the window ends with one claim and one apply on record, the item finished by this receipt and its ownership released |
| `FilesCommand.AttemptExact` | src/coordinate/completion_cli.py:252-375 | From any state a crash may leave, one undisturbed invocation finishes exactly if it names the receipt's workspace, task and actor (or leaves the names out), has a verification, applies inside the window, and the item was not finished before without this receipt's mark |
| `FilesCommand.PrepareStarts` | src/coordinate/completion.py:489-610 | A successful prepare leaves the ledger and item in the state the files command starts from |
| `FilesCommand.FilesRunKeeps` | src/coordinate/completion_cli.py:252-375 | At every crash point the item is the original or this receipt's finished one, and the ledger holds a beginning of its lifecycle |
| `FilesCommand.OnlyBindingOrAgeRefuses` | src/coordinate/completion.py:710-750 | From every such state claim and apply are refused exactly by the binding or the receipt's age |
| `FilesCommand.WriteOutcome` | src/coordinate/transitions.py:1253-1340 | The checklist write lands exactly if there is a verification and the item was not finished without this receipt |
| `FilesCommand.WouldBeDoneAgain` | src/coordinate/completion.py:136-167 | The would-be-done fingerprint is idempotent, and equals an item's own fingerprint exactly if it is done and closed |
| `FilesCommand.FinishedItemNeverApplies` | src/coordinate/transitions.py:1273-1302 | A receipt prepared over an item already done and closed, without that receipt's mark, is never applied on any run |
| `FilesCommand.LateClaimRefused` | src/coordinate/completion.py:651-665 | A claim past the receipt's window is refused whatever was claimed before |
| `FilesCommand.LatePreflightAdmits` | src/coordinate/completion_cli.py:643-652 | The preflight admits a claimed receipt at any time |
| `FilesCommand.FinishedCanBeConsumed` | src/coordinate/completion.py:986-1025 | What the files command leaves, once deployed, is consumable exactly by the authorized actor, inside the window, naming its workspace or none, with no other terminal |
| `ReceiptStore.Store.PrepareReceipt` | src/coordinate/completion.py:489-610 | Prepare over the event table follows its specification; which call appends is `ReceiptDecisions.PrepareExactly` |
| `ReceiptStore.Store.ClaimReceipt` | src/coordinate/completion.py:691-794 | Claim over the event table follows its specification, and answers its own fingerprints or the recorded ones |
| `ReceiptStore.Store.ApplyReceipt` | src/coordinate/completion.py:820-894 | Apply over the event table follows its specification |
| `ReceiptStore.Store.ConsumeReceipt` | src/coordinate/completion.py:918-1092 | Consume over the event table follows its specification |
| `ReceiptStore.Store.WriteTerminal` | src/coordinate/completion.py:1038-1082 | The savepoint appends both rows or restores the table |
| `ReceiptStore.Store.Append` | src/coordinate/db.py:1777-1822 | An existing idempotency key returns its row and appends nothing; a clash of generated ids raises |
| `ReceiptStore.Store.LatestEvent` | src/coordinate/db.py:1915-1934 | The last matching event in row order |
| `ReceiptStore.CodingHost.MarkDone` | src/coordinate/transitions.py:1249-1340 | The checklist mutation equals its specification: all checks before the first write |
| `ReceiptStore.CodingHost.MarkDoneFilesReceipt` | src/coordinate/completion_cli.py:252-375 | The whole command equals the four steps of the state machine, stopping at the first failure |
| `Delivery.AtMostOnePost` | src/coordinate/db.py:1326-1422 | With any senders, pumps, recovery passes, rebindings and crashes interleaved, the adapter is called at most once, by anyone, for the key of a channel delivery |
| `Delivery.SentIsWhatThePostReturned` | src/coordinate/channel_delivery.py:233-257 | A channel row marked sent carries the id that its one call returned, a dead one was rejected, and every sender that is told a message id is told that one; that it is sent, and when not, are `DeliveryOutcomes.StoredExactly` and `StillSendingExactly` |
| `Delivery.UnclearStaysSending` | src/coordinate/db.py:1273-1275 | A channel row whose calls all ended unclear, or that had none, stays sending: nothing retries it |
| `Delivery.FinalChannelRowsStay` | src/coordinate/db.py:1385-1422 | A sent or dead channel row never changes again |
| `Delivery.MoveKeeps` | src/coordinate/channel_delivery.py:134-257 | Every step of every process keeps the table invariant |
| `Delivery.Inspect` | src/coordinate/db.py:1308-1323 | An accepted prior row has the request's key; no prior means the key is free |
| `Delivery.Stuck` | src/coordinate/db.py:1258-1275 | A recovery pass selects sending rows only, and no channel row |
| `Delivery.Listed` | src/coordinate/bus.py:283-292 | A pump's queue holds rows of the wanted status and scope only |
| `DeliveryOutcomes.StoredExactly` | src/coordinate/channel_delivery.py:233-257 | In every run a sender that stores its call's outcome finds its row sending; after a well-formed id the row is sent with that id and the sender is told it, after a rejection the row is dead, after anything else it stays |
| `DeliveryOutcomes.ChannelRowExactly` | src/coordinate/db.py:1385-1422 | In every run a channel row is sent with a text exactly if its sender stored that text, a well-formed id, as its call's answer; dead exactly if it stored a rejection; and otherwise still sending |
| `DeliveryOutcomes.StillSendingExactly` | src/coordinate/channel_delivery.py:233-257 | A channel row whose recorded call ended with a well-formed id or a rejection is still sending exactly if its sender still holds the answer, died with it, or failed to store it |
| `DeliveryOutcomes.NewMessageIsSent` | src/coordinate/channel_delivery.py:134-257 | From any reachable state a message under a new key, sent with nobody in between, calls the adapter exactly once if the channel is bound to its workspace, and its row and what its sender is told are what that call came to |
| `DeliveryOutcomes.RepeatedMessageIsReplayed` | src/coordinate/channel_delivery.py:195-215 | The same key again makes no row and no call, and is told what the row tells by then while the channel is still bound to the workspace |
| `DeliveryOutcomes.InspectedExactly` | src/coordinate/db.py:1308-1323 | In every reachable state the inspection is forbidden exactly where the channel is not bound to the workspace, finds a prior exactly for the same message to the same place, no prior exactly for a free key, and a conflict otherwise |
| `DeliveryBound.SendsAreBoundedUnlessHeldTwice` | src/coordinate/bus.py:238-269 | With pumps, direct sends, recoveries, senders and crashes interleaved, a row that no two processes hold at one time between status check and stored outcome is sent at most the attempt limit plus the number of times recovery updated it |
| `DeliveryBound.OnlyHoldersChange` | src/coordinate/db.py:1258-1287 | A step changes a sent or dead row only if a recovery selected it before or a process already holds it |
| `DeliveryBound.FinalOnceReleased` | src/coordinate/bus.py:247-252 | A final row that no process holds and no recovery has selected stays as it is and is not sent again for the rest of the run |
| `DeliveryRaces.OverlappingPumpsUnbounded` | src/coordinate/bus.py:247-260 | For every n there is a run of overlapping pumps without recovery that sends one generic row n times |
| `DeliveryRaces.StaleRecoveryResends` | src/coordinate/db.py:1258-1287 | A recovery that selects a row before its pump stores the outcome reopens the sent row, and it is sent again |
| `Outbox.SendsAreBounded` | src/coordinate/bus.py:238-269 | Over whole pumps, direct sends, recoveries and enqueues in sequence, with deaths at any call, a row is sent at most the attempt limit plus the number of times recovery reopened it |
| `Outbox.FinalRowsStay` | src/coordinate/bus.py:247-252 | Without overlap no use of the outbox changes a sent or dead row or calls an adapter for it |
| `Outbox.PumpsDrain` | src/coordinate/bus.py:272-308 | Enough pumps of a scope without recovery leave nothing waiting, whatever the adapters answer, exactly if every waiting row's platform has an adapter |
| `Outbox.BlockedPumpsStandStill` | src/coordinate/bus.py:296-308 | While the first waiting row has no adapter, no number of pumps of that scope changes anything |
| `Outbox.UnroutableRowBlocks` | src/coordinate/bus.py:296-308 | A concrete table: a row without an adapter, enqueued first, keeps the row behind it from ever being sent |
| `OutboxRetries.AttemptExactly` | src/coordinate/bus.py:238-269 | A direct send makes one attempt exactly on a generic row that is pending or failed and has an adapter: sent with what was returned, failed or dead by the attempts, or left sending by a death; any other row is left alone |
| `OutboxRetries.WaitingExactly` | src/coordinate/bus.py:283-292 | A row waits in a scope exactly if it is generic, in the scope, and pending or failed |
| `OutboxRetries.RaiseIsRetried` | src/coordinate/bus.py:261-266 | After a raise the row waits for the next pump of its scope exactly if its attempts are still fewer than the limit, and is dead otherwise |
| `OutboxRetries.DeadMeansSpent` | src/coordinate/bus.py:264 | Over any uses a generic row is dead only once it used every attempt, and failed only while some are left |
| `OutboxRetries.PumpExactly` | src/coordinate/bus.py:272-308 | A pump makes one attempt on each waiting row of its scope in order, up to its limit, as long as rows have adapters and the process lives, and leaves every other row as it was once the stuck ones are reopened |
| `OutboxRetries.RetriedExactly` | src/coordinate/bus.py:238-308 | A new row whose k attempts, by pumps or direct sends with other uses in between, all raised has exactly k attempts and is failed while k is below the limit, dead at the limit |
| `OutboxRetries.RetriedThenSent` | src/coordinate/bus.py:238-308 | If its adapter then delivers, the row is sent with what was returned after k + 1 attempts |
| `OutboxSteps.PumpAloneIsPump` | src/coordinate/bus.py:238-308 | A pump process of the concurrent model that nobody interrupts leaves the table exactly as the sequential pump does, whatever each call comes to |
| `OutboxSteps.RecoveryAloneIsRecover` | src/coordinate/db.py:1258-1287 | The two steps of a recovery with nobody in between reopen what the sequential recovery does |
| `Outbox.Store.SendDelivery` | src/coordinate/bus.py:238-269 | The send over mutable rows equals its specification, which makes exactly the attempts of `OutboxRetries.AttemptExactly` |
| `Outbox.Store.PumpDeliveries` | src/coordinate/bus.py:272-308 | The pump over mutable rows equals its specification |
| `Outbox.Store.SendQueue` | src/coordinate/bus.py:296-308 | The pump's loop sends the queue in order until a send raises; a whole pass counts every row as sent or failed |
| `Outbox.Store.RecoverSending` | src/coordinate/db.py:1258-1287 | Recovery reopens exactly the selected rows |
| `Bindings.TableIsTheLog` | src/coordinate/db.py:2130-2354 | However checks and writes of binds and releases interleave, the active rows are exactly the log's events in order, and every logged change was lawful when made |
| `Bindings.ReplayedReleaseSparesRebind` | src/coordinate/db.py:2238-2249 | A recorded release replayed at any later time changes neither log nor table, whoever rebound the channel |
| `Bindings.RecordedKeyIsSpent` | src/coordinate/db.py:2072-2127 | An idempotency key belongs to one event for ever: later calls with it change nothing |
| `Bindings.BindsAlternate` | src/coordinate/db.py:2182-2193 | Between two binds of a channel lies a release from the workspace the first one bound |
| `Bindings.DoneIsReplayed` | src/coordinate/db.py:2195-2235 | What a write answers as bound or released is on record under its key ever after, and the same call is then answered replayed without a change |
| `Bindings.ReplayedWasDone` | src/coordinate/db.py:2072-2127 | Replayed is answered only for a key and change that an earlier write of the run answered as done |
| `BindingOutcomes.CheckedExactly` | src/coordinate/db.py:2158-2193 | In every reachable state the check of a bind or release answers exactly by the log: replayed, key conflict, free, the call's own, or another's channel |
| `BindingOutcomes.WrittenExactly` | src/coordinate/db.py:2195-2354 | Under a new key a bind lands exactly if the channel is then free and a release exactly if it is then bound to the call's workspace; what lands changes that channel only, what does not changes nothing |
| `BindingOutcomes.CallLandsAlone` | src/coordinate/db.py:2130-2354 | A call that nobody comes between gives a known workspace a free channel, takes its own away, and does nothing else |
| `Bindings.Store.WriteBind` | src/coordinate/db.py:2195-2235 | The bind savepoint equals its specification: event first, rollback when the row is taken |
| `Bindings.Store.WriteRelease` | src/coordinate/db.py:2304-2354 | The release savepoint equals its specification: compare and delete, else rollback |
| `Bindings.Store.CheckChange` | src/coordinate/db.py:2158-2193 | The checks of bind and release equal their specification |
| `IdentityRuns.StaleExactly` | src/coordinate/runtime.py:852-985 | However split submits, retries, syncs and validated or unvalidated starts interleave, a job carrying a snapshot once resolved for its agent is current, and passes the claim's validation, exactly if its source still stands at the snapshot's version |
| `IdentityRuns.TypedJobsAreIssued` | src/coordinate/jobs.py:243-300 | Every typed job of a run carries such a snapshot, retried ones too, unless one is written by hand |
| `IdentityRuns.LiveExactly` | src/coordinate/executor_identity.py:401-412 | Pending and running jobs carry their agents' current resolutions throughout a run exactly if every submit, retry, hand-written job and unvalidated start finds its snapshot current at that moment |
| `IdentityRuns.RunningExactly` | src/coordinate/runtime.py:1525-1740 | Running jobs do so throughout exactly if every start that skips the validation finds its job current, however submits and retries go stale |
| `IdentityRuns.StoredBindingsStayCurrent` | src/coordinate/runtime_lease.py:983-998 | If every submit inserts what its agent resolves to at that moment and every typed job is started by a validated claim, every pending or running typed job is current and validates |
| `IdentityCases.DisabledAgentRunsStaleJob` | src/coordinate/runtime.py:1603-1740 | A concrete run with atomic submits: a job times out, a sync disables its agent, and the agent, now untyped, runs the job again with a stale snapshot |
| `IdentityCases.RetryGoesStale` | src/coordinate/jobs.py:243-300 | A retry after a sync copies the failed job's snapshot into a pending job that is stale |
| `Identity.SyncSparesOthers` | src/coordinate/executor_identity.py:474-530 | A sync of one source leaves the resolution of every agent bound by another source unchanged |
| `Identity.RewriteMeans` | src/coordinate/executor_identity.py:566-633 | A rewriting sync installs exactly its catalogue's rows and keeps the other sources' |
| `IdentityRuns.ResolutionNeverFails` | src/coordinate/executor_identity.py:727-780 | With parsed catalogues no reachable state fails to resolve an agent, and exactly the enabled bindings resolve to a snapshot |
| `IdentityCases.SplitSubmitGoesStale` | src/coordinate/runtime.py:852-985 | A submit that resolves before a sync of the source and inserts after it leaves a pending stale job that no typed claim takes |
| `Identity.SyncIsIdempotent` | src/coordinate/executor_identity.py:443-468 | After a successful sync the source stands at the catalogue's version and hash, and the same sync changes nothing |
| `IdentityOutcomes.SyncAccepted` | src/coordinate/executor_identity.py:415-640 | A sync succeeds exactly for the stored catalogue, or a newer one that claims no id of another source, repeats none, names agents, profiles and definitions that exist, while no pending or running job carries a snapshot of the source; older and rewritten versions have their own answers |
| `IdentityOutcomes.SyncLeaves` | src/coordinate/executor_identity.py:566-633 | An accepted sync of something new leaves the catalogue's definitions and bindings, column by column, and no others of the source |
| `IdentityOutcomes.VersionsNeverFall` | src/coordinate/executor_identity.py:443-456 | Over any stretch of a run no source loses its row or falls to an older version, no version changes its hash, and a catalogue older than any its source stood at is refused |
| `IdentityOutcomes.ClaimStartsExactly` | src/coordinate/runtime.py:1525-1740 | A typed claim starts its job exactly if the job waits or timed out recoverably and carries what its agent resolves to at that moment |
| `Identity.Registry.SyncExecutorCatalog` | src/coordinate/executor_identity.py:415-640 | The sync over mutable rows equals its specification, with its refusals in order and its rollback |
| `Identity.Registry.Rewrite` | src/coordinate/executor_identity.py:566-638 | Upsert, deletes and inserts, or everything restored |
| `Identity.Registry.InFlightTypedJobs` | src/coordinate/executor_identity.py:401-412 | True exactly if a pending or running job carries a snapshot of the source |
| `Paths.NormalizeKeepsLocation` | src/coordinate/execution_resources.py:315-377 | A normalized path is normal and names the location a segment-by-segment walk of the stripped path reaches |
| `Paths.NormalizeIsIdempotent` | src/coordinate/execution_resources.py:329 | Normalizing again gives the same path exactly if the normal form does not end in whitespace |
| `Paths.NormalizeAgain` | src/coordinate/execution_resources.py:315-377 | What a second normalization gives, by segments |
| `Paths.CollapseSegments` | src/coordinate/execution_resources.py:368-377 | The stack loop of `normpath` computes the walk |
| `Paths.ContainmentIsSegments` | src/coordinate/execution_resources.py:139-149 | On a normalized POSIX root the prefix test holds exactly if the root's segments are a proper prefix of the candidate's |
| `Paths.DescendantIsBeneath` | src/coordinate/execution_resources.py:139-149 | On any normalized POSIX root the prefix test holds exactly if the root's segments are a proper prefix of the candidate's, or, for a root taken for a drive, if they agree up to the last one and that one, closed by one backslash, starts the candidate's |
| `Paths.ContainmentExact` | src/coordinate/execution_resources.py:87-93 | That holds for all candidates exactly if the root's first segment does not start with a colon |
| `WorktreeRoots.RootListRoundTrip` | src/coordinate/execution_resources.py:214-283 | A written list holds each normal form once and reads back unchanged exactly if no root ends in whitespace or, read with backslashes, traverses |
| `WorktreeRoots.WrittenList` | src/coordinate/execution_resources.py:214-251 | A written list is the first occurrences, in order, of the items' normal forms; one invalid item fails it |
| `WorktreeRoots.ReadList` | src/coordinate/execution_resources.py:254-283 | A read accepts exactly distinct roots that are their own normal forms, and returns them unchanged |
| `WorktreeRoots.NormalizeRootList` | src/coordinate/execution_resources.py:214-251 | The shared loop equals its specification for both settings |
| `WorktreeRoots.AcceptedIsNotAbove` | src/coordinate/execution_resources.py:169-211 | No path accepted against validated roots is the canonical workspace or an ancestor of it |
| `WorktreeRoots.AnyRootContains` | src/coordinate/execution_resources.py:206-211 | True exactly if the path is a strict descendant of some root |
| `ExecutionContext.ControlAgrees` | src/coordinate/execution_context.py:317-332 | For every POSIX workspace a control context is stored at the place its tail leads to, and passes the claim gate exactly if that place, normalized once more, is the workspace or beneath it or a root |
| `ExecutionContext.ControlLocation` | src/coordinate/execution_context.py:168-215 | Joined by slashes a control path leads from the workspace's unstripped text through the names of its tail; joined by backslashes it is one long name in the workspace's parent |
| `ExecutionContext.ControlRootAgrees` | src/coordinate/execution_context.py:206-207 | The control root maps to the workspace and passes exactly if its normal form does not end in whitespace |
| `ExecutionContext.SlashControlAgrees` | src/coordinate/execution_context.py:161-176 | For a workspace joined by slashes whose text does not end in whitespace, a control context passes exactly if its tail neither climbs out through a parent segment hidden by whitespace nor lands on a workspace whose normal form ends in whitespace |
| `ExecutionContext.BlankControlAgrees` | src/coordinate/execution_context.py:168-176 | For one whose text ends in whitespace after a name, it passes exactly if its tail lands on the workspace itself or its place is beneath a root |
| `ExecutionContext.LostNameControlAgrees` | src/coordinate/execution_context.py:168-176 | For one whose last name is lost when stripped, it passes unless the tail is a bare parent segment and the workspace does not hold where its own directory settles |
| `ExecutionContext.BackslashControlAgrees` | src/coordinate/execution_context.py:161-176 | For a workspace joined by backslashes and not taken for a drive, it passes exactly if the workspace's last name is lost when stripped, or the workspace ends in one backslash and nothing is left of the stripped tail |
| `ExecutionContext.ColonControlPasses` | src/coordinate/execution_context.py:161-165 | For a workspace taken for a drive, every control path below the root passes, unless the workspace's last name is lost or shortened when stripped |
| `ExecutionContext.SiblingAgrees` | src/coordinate/execution_context.py:317-325 | For every POSIX workspace a sibling context passes the gate exactly if its path, normalized twice more, is still contained; so always if its normal form does not end in whitespace |
| `ExecutionContext.SiblingExactly` | src/coordinate/execution_context.py:317-332 | For a workspace not taken for a drive it passes exactly if its last name still names something once stripped, or the place left without it is in the workspace or strictly under a root |
| `ExecutionContext.DefaultAgrees` | src/coordinate/execution_context.py:326-332 | Without a path the context passes the gate exactly if the workspace's normal form does not end in whitespace |
| `ExecutionContext.GateIsSegments` | src/coordinate/execution_resources.py:286-312 | The claim gate of every POSIX workspace, by segments |
| `ContextOutcomes.DefaultResolvesExactly` | src/coordinate/execution_context.py:308-332 | Without a worktree path resolution accepts exactly a workspace path that is absolute, on one line, without parent or self segments, and normalizes |
| `ContextOutcomes.ControlResolvesExactly` | src/coordinate/execution_context.py:179-215 | Over a POSIX workspace a control path is accepted exactly if it is itself absolute, on one line and without parent or self segments, and the joined text is short and clean enough to store; the stored path is that text normalized |
| `ContextOutcomes.SiblingResolvesExactly` | src/coordinate/execution_context.py:317-332 | Any other path is accepted exactly if it holds no control character, traverses by neither separator as written nor as normalized, and its normal form lies beneath a root |
| `ContextOutcomes.RootAcceptedExactly` | src/coordinate/execution_resources.py:169-195 | An allowlist entry is accepted exactly if it is clean, does not traverse, normalizes, is not the filesystem's root, has the workspace's flavour, and is neither the workspace nor above it by segments |
| `ContextCases.HiddenParentClimbs` | src/coordinate/execution_context.py:200-203 | A concrete control path that resolves to the filesystem root and is refused at claim |
| `ContextCases.BlankWorkspaceDisagrees` | src/coordinate/execution_context.py:308-332 | A concrete workspace ending in a space: an ordinary control path resolves and is refused |
| `ContextCases.BackslashWorkspaceDisagrees` | src/coordinate/execution_context.py:161-176 | A concrete workspace with a backslash: an ordinary control path resolves and is refused |
| `ContextCases.BlankSiblingDisagrees` | src/coordinate/execution_context.py:317-332 | For any root, its sibling with a blank last name resolves to the root itself and is refused |
| `ContextCases.BlankIsNormalizedTwice` | src/coordinate/execution_resources.py:329 | For any root, a blank last name survives one normalization and is lost in the next |
| `ContextCases.BlankRootIsNotReadBack` | src/coordinate/execution_resources.py:214-283 | An allowlist with such a root is written, and the stored list is refused when read back |
| `ContextCases.BlankRootOfWorkspace` | src/coordinate/execution_resources.py:214-283 | Both on concrete paths |
| `Timestamps.TextOrderIsTimeOrder` | src/coordinate/execution_leases.py:122-128 | For rendered timestamps of years 1 to 9999 the order of texts is the order of epoch seconds |
| `Timestamps.GuardsDecideInstants` | src/coordinate/execution_leases.py:499-537 | The text guards of the lease calls decide the intended comparisons, and the computed expiry is the instant plus the lifetime |
| `Timestamps.LaterIsLater` | src/coordinate/execution_leases.py:499-505 | Adding a lifetime with every carry adds it to the instant, and fails exactly past the calendar's end |
| `Timestamps.ReadRender` | src/coordinate/execution_leases.py:499-505 | Reading a rendered timestamp gives it back |
| `Paging.PageIsExact` | src/coordinate/discord_history.py:175-202 | With honest answers a page after a cursor is exactly the next ids in order, and `has_more` is true exactly if a later id exists at the deciding fetch |
| `Paging.FirstPageIsExact` | src/coordinate/discord_history.py:175-202 | With honest answers the first page, without a cursor, is exactly the newest ids in ascending order, and `has_more` is true exactly if a message came between fetch and probe |
| `Paging.FirstThenFollow` | src/coordinate/channel_messages.py:112-129 | Reading a first page and following the cursors from it leaves no gap: every message from the first one returned to the last, once, in ascending order |
| `Paging.FollowingCovers` | src/coordinate/channel_messages.py:112-129 | Following the cursors from any position yields every message up to the last returned exactly once in ascending order, while the channel grows |
| `Paging.NothingMoreIsEverything` | src/coordinate/channel_messages.py:115-129 | When a page says there is no more, everything after the start has been returned |
| `PagingOutcomes.PageAccepted` | src/coordinate/discord_history.py:175-202 | For any answers of the service, honest or not, a page is made exactly if the limit is in range, the ids are distinct, above the cursor and no more than asked for, and a needed probe holds at most one id past the page; it is the smallest ids in ascending order |
| `Cursors.CursorExact` | src/coordinate/channel_messages.py:34-53 | The JSON and base64 text of a cursor decodes to the position it was made for in its own scope and is refused in every other, exactly if it is not too long; a longer one is refused in its own scope too |
| `Cursors.BasicPlaneFits` | src/coordinate/channel_messages.py:60-62 | No cursor of a workspace whose id lies in Unicode's basic plane is too long |
| `Cursors.LongCursorIsRefused` | src/coordinate/channel_messages.py:41 | A valid workspace id of 256 characters outside it: the service refuses the cursors it issues |
| `Cursors.CursorHandsOn` | src/coordinate/channel_messages.py:115-118 | The cursor of a result leads to its last message, or to where the request stood |
| `Base64Url.DecodeEncode` | src/coordinate/channel_messages.py:36-43 | Decoding the unpadded URL-safe base64 of any bytes gives them back |
| `Paging.ReadPage` | src/coordinate/discord_history.py:175-202 | The page method equals its specification, malformed answers included |

## Left out

- Sync results: the lists of added, updated, removed and unchanged ids are reporting only.
- Snapshot files: reading, writing and fsync of the snapshot, and the byte form of its JSON; an envelope is a value.
- Sorted JSON and row order of sources and policies: rows are maps, so the order checks on captured lists are not modelled.
- Malformed stored timestamps in lease rows, and timestamps that are not in the rendered form.
- Catalogue parsing (TOML): catalogues are values; `Capacity.Parsed` and `Identity.IsParsed` say what parsing guarantees.
- Checks of a submit and of a claim that do not concern the binding: replay keys, contexts, capacity and leases, the order in which candidates are tried.
- Cursor texts in another JSON layout than the service writes (spaces, other key orders): they are reported as no cursor.
- Evidence fields of receipts (review and forge evidence, verification text in `task.done`), repair and forced paths, and the monolithic mark-done.
- Checklist files: locks, validation, atomic replacement and the guard on deployed copies; the checklist is the one item under the receipt's task id.
- Remote transports and their argument checks; a remote step succeeds, refuses or is lost with the host.
- Discord, KOOK and webhook calls, permissions, rate limits, deadlines and message rendering; an adapter call returns, is rejected or is unclear.
- Sender identity checks of channel sends: a replay is told the row's receipt, as the code does even on a conflict.
- Table checks on channel keys: normalization of platform and channel id of a binding happens before the model's calls.
- Negative pump limits.
- Windows drive and UNC paths, Unicode normalization: the POSIX branch on text already in NFC; another flavour is reported as `Windows`.
- Harness root, logs path, session scopes, branch and digest of an execution context, and validation of a stored context.
- Wait capacity, authorization of channel reads, deleted messages: a channel only grows.
- IdentityRuns.ResolutionNeverFails: needs catalogues as parsing leaves them; a hand-built one whose binding names another source's definition would not resolve.
- FilesCommand.RetryConverges: the checklist item changes by nothing but the command, and one host works on the receipt at a time.
- Paging.FollowingCovers: the service is taken to answer with the smallest ids above the cursor, in any order.
