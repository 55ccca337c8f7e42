# Verified model of the UEAF reference runtime

This project models the stateful cores of the reference runtime in Dafny and proves what they keep,
over every input, every history and, where clients or drains interleave, every interleaving.
`dafny verify dfyconfig.toml` checks all of it.

## What is modelled

**Run lifecycle** (`RunObjects`, `RunProtocol`, `RunHistory`, `RunLeases`, `RunEvents`, `RunPhases`,
`RunFields`, `RunEffects`, `RunRepositories`, `RunCoordinator`). `RunProtocol` states each coordinator
command as a decision on the record it read, followed by one commit; `RunCoordinator` is the
coordinator itself, a class over its repositories and outbox, and every command is proved to perform exactly the protocol's
step. The other modules prove what holds over whole histories of commands: revisions, the transition
table, leases and fencing tokens, outcomes and attempts, what each command writes, announces and
refuses, and the accounting of outbox events against records and the summary projection.

**Interleaving clients** (`SplitClients`). Every command except run creation and `begin_admission` is
split into a read and a conditional write. The split system refines the atomic one.

**Outbox** (`Outbox`, `OutboxDelivery`). The store and the publisher as classes, and a small-step
system of any number of drains that may stop between publishing an entry and marking it.

**Token budget and context** (`Sorting`, `TokenBudgeter`, `BudgetLaws`, `BudgetOrder`,
`ContextBuild`, `ContextManifest`). Sorting, deduplication, the greedy fit under a reserve, the builder
that packs authorised sources with it, and what its manifest says.

**Workflow** (`Workflow`, `WorkflowLaws`). The orchestrator, and the theorem that rounds of scheduling
and completing finish a workflow exactly when its graph has no cycle.

**Governed memory** (`MemoryGovernance`, `MemoryService`, `MemoryHistory`, `MemoryRecall`,
`MemoryEffects`). Promotion, correction, expiry, deletion, consent revocation and recall over a
versioned store.

**Codec** (`Codec`), **authorisation cache** (`ContextCache`), **retrieval** (`Chunker`, `ChunkText`,
`RetrievalStores`, `RankFusion`, `FusionLaws`) and **JetStream gap accounting** (`JetStream`).

## How it is built

An object that the source updates in place is a class here; each of its methods equates the new state
and the answer with a function of the old state, and the properties are lemmas about that function over
histories. Errors the source raises are `Result` values. Fresh identifiers, the clock, embeddings,
relevance counts, text normalisation, date texts and class constructors come in as parameters, with
only the assumptions stated where they are used (`FreshTickets`, `IdIsFresh`, `LibraryOk`).

Where a promise of the source is false in general, the model keeps the code's behaviour, proves an
if-and-only-if condition under which the promise holds, and shows an input outside it:

- The table lists waiting to terminal, but `_commit_terminal` keeps the wait reason and the record
  constructor refuses it: `EdgesTakenExactly`; `WaitingRunCannotBeCancelled`.
- `begin_admission` compares no revision: `UncheckedCommitIsAtomicExactly`; `UncheckedAdmissionUndoesCancel`.
- The projected phase is the one named last, not the stored one: `ProjectedPhaseIsLastNamed`,
  `StepProjectsPhase`; `DeferredAdmissionProjectsTerminal`.
- Fencing tokens start again after a dropped lease: `NextTokenExactly`, `TokenIsAcquiresSinceDrop`;
  `TokenRestartsAfterPause`.
- An entry whose drain stopped before marking it is never marked: `UnmarkedExactly`,
  `StoppedEntryStaysUnmarked`; `StoppingLeavesUnmarked`.
- A critical slot below tier 0 is taken without looking at what is left: `NoOverrunExactly`;
  `LateCriticalSlotOverruns`.
- Slots with equal keys are served in the order given, which matters unless the critical tokens alone
  exceed the limit: `EqualKeysMatterExactly`; `EqualKeysDependOnInputOrder`.
- Documents that share a ref are budgeted once and all packed: `PackedAsReportedExactly`, `PackedSurplus`,
  `PackedWithinLimitExactly`, `SelectedDecidesPack`; `DuplicateRefsOverrun`.
- A correction skips the duplicate and conflict checks: `CorrectionClashesExactly`;
  `CorrectionCanDuplicate`, `CorrectionReachesClash`.
- Reserved keys, naive dates and unregistered classes do not survive the codec: `RoundTripsExactly`;
  `ReservedKeyCollides`, `NaiveDateGainsUtc`.
- Overwriting a cache entry with other sources or another scope leaves it listed under the old ones:
  `StoreKeepsExactExactly`; `OverwriteOverInvalidates`, `OverwriteOverInvalidatesScope`.
- Cache keys of different principals can coincide: `PrincipalsShareKeysExactly`; `SeparatorCollides`.
- A later ingestion can displace a held chunk: `HeldSurvivesExactly`; `IdsCollideAcrossSources`,
  `CollidingIngestsDisplace`.

## Model

| member | source | states |
|---|---|---|
| RunProtocol.DecideAdvances | src/ueaf/runtime/coordinator.py:134-668 | A command that writes moves one record by one revision, along the transition table or within its phase, never out of terminal and never from waiting to terminal; a command that writes nothing is a replay on a terminal run; the new record keeps every record invariant (a lease only in an executing phase and itself valid, a wait reason exactly when waiting, a disposition exactly when terminal) |
| RunProtocol.ReachableInv | src/ueaf/runtime/objects.py:95-121 | After every history of commands every stored record passes the constructor's checks and the stronger record invariant |
| RunHistory.StepTouchesOneRecord | src/ueaf/runtime/coordinator.py:134-668 | A failed command changes nothing at all; a successful one changes at most the record it names and no run disappears |
| RunHistory.RecordsOnlyAdvance | src/ueaf/infrastructure/db/repositories.py:112-129 | Along any history a run keeps its identity and frozen bindings, its revision never falls, two moments with one revision hold one record, and a terminal record is never replaced |
| RunHistory.OneRecordPerRevision | src/ueaf/runtime/coordinator.py:513-668 | The i-th different record a run ever had carries revision i, and the last of them is the stored one |
| RunHistory.CommandsSucceedExactly | src/ueaf/runtime/coordinator.py:204-640 | Each command succeeds exactly when a guard on the stored record and the clock holds, and leaves the phase it names; in particular an accepted heartbeat always builds a valid lease, and a waiting run refuses every terminal disposition |
| RunEffects.StepRefusesExactly | src/ueaf/runtime/coordinator.py:202-668 | Each refusal carries the error of the first check that fails, for an unknown run, by the run's phase, lease, clock and arguments, or for an admission result used before, and changes nothing |
| RunEffects.PendingActionsBlock | src/ueaf/runtime/coordinator.py:478-615 | Unsettled actions refuse the cancel of a running run and the completion of an executed one, and nothing else |
| RunHistory.TerminalReplayIsNoOp | src/ueaf/runtime/coordinator.py:602-605 | On a terminal run, cancelling and repeating the same disposition return the record and change nothing, another disposition is refused |
| RunHistory.EdgesTakenExactly | src/ueaf/runtime/state_machine.py:13-21 | Over all histories the phase changes that occur are exactly the table's edges other than waiting to terminal |
| RunHistory.EnteredExactly | src/ueaf/runtime/state_machine.py:13-21 | Over all histories each phase is entered from exactly the phases listed, none for queued |
| RunHistory.WaitingRunCannotBeCancelled | src/ueaf/runtime/coordinator.py:616-626 | A concrete history after which cancelling a waiting run fails in the record constructor, although the table lists the edge |
| RunCoordinator.RunCoordinator.CreateRun | src/ueaf/runtime/coordinator.py:135-199 | Creates the task state and the queued run, appends the creation event; state and answer are those of the protocol's step |
| RunCoordinator.RunCoordinator.BeginAdmission | src/ueaf/runtime/coordinator.py:204-218 | Performs the protocol's step; no revision is compared |
| RunCoordinator.RunCoordinator.ApplyAdmission | src/ueaf/runtime/coordinator.py:221-285 | Records the result, its first event and then the outcome, piece by piece; state and answer are those of one whole step, so no half-applied admission is left |
| RunCoordinator.RunCoordinator.AcquireLease | src/ueaf/runtime/coordinator.py:290-331 | Performs the protocol's step: a fresh lease with the next fencing token, or 1 when no lease was held |
| RunCoordinator.RunCoordinator.Heartbeat | src/ueaf/runtime/coordinator.py:334-360 | Performs the protocol's step and appends no event |
| RunCoordinator.RunCoordinator.EnsureLease | src/ueaf/runtime/coordinator.py:576-589 | Refuses exactly the callers without the current lease or with a lower token, naming which |
| RunCoordinator.RunCoordinator.RegisterWait | src/ueaf/runtime/coordinator.py:363-380 | Performs the protocol's step: the run waits, its lease is dropped |
| RunCoordinator.RunCoordinator.Resume | src/ueaf/runtime/coordinator.py:383-412 | Performs the protocol's step and clears the wait |
| RunCoordinator.RunCoordinator.ScheduleRetry | src/ueaf/runtime/coordinator.py:415-444 | Performs the protocol's step |
| RunCoordinator.RunCoordinator.Pause | src/ueaf/runtime/coordinator.py:447-474 | Performs the protocol's step: the lease is dropped |
| RunCoordinator.RunCoordinator.Cancel | src/ueaf/runtime/coordinator.py:477-489 | Performs the protocol's step: a terminal run is returned as it is, in-flight actions refuse |
| RunCoordinator.RunCoordinator.CommitTerminal | src/ueaf/runtime/coordinator.py:492-509 | Performs the protocol's step, including the idempotent replay |
| RunCoordinator.RunCoordinator.Apply | src/ueaf/runtime/coordinator.py:642-668 | Writes the replacement of a plain phase change, or nothing when its constructor refuses it |
| RunRepositories.InMemoryRunRecordRepository.Update | src/ueaf/infrastructure/db/repositories.py:112-129 | Replaces the record exactly when the id is known, the expected revision matches and the fencing token is not stale; otherwise nothing changes |
| RunRepositories.InMemoryRunRecordRepository.Create | src/ueaf/infrastructure/db/repositories.py:106-110 | Stores a record under an unused id only |
| RunRepositories.InMemoryAdmissionResultRepository.Create | src/ueaf/infrastructure/db/repositories.py:164-170 | Stores a result under an unused id only |
| RunLeases.LostLeaseNeverReturns | src/ueaf/runtime/coordinator.py:290-360 | A lease id that was current and then was replaced or dropped is never current again, in any continuation with fresh ids |
| RunLeases.LostLeaseCannotHeartbeat | src/ueaf/runtime/coordinator.py:576-589 | No later heartbeat with a lost lease id succeeds, whatever token it carries |
| RunLeases.TokenCountsAcquires | src/ueaf/runtime/coordinator.py:300-312 | While a run is never without a lease its fencing token grows by exactly one an acquire |
| RunLeases.NextTokenExactly | src/ueaf/runtime/coordinator.py:300-312 | From one accepted acquire to the next the token grows, by one, if and only if the run held a lease at every moment between; otherwise it is 1 |
| RunLeases.TokenIsAcquiresSinceDrop | src/ueaf/runtime/coordinator.py:300-312 | The token of a held lease is the number of acquires accepted since the run last was without a lease, in every history |
| RunLeases.TokenRestartsAfterAnyDrop | src/ueaf/runtime/coordinator.py:300-312 | Whatever dropped the lease, the next accepted acquire has token 1 |
| RunLeases.DropsLeaseExactly | src/ueaf/runtime/coordinator.py:526-535 | An accepted command drops a held lease exactly when it leaves the run waiting, paused or terminal |
| RunLeases.TokenRestartsAfterPause | src/ueaf/runtime/coordinator.py:300-312 | One such history: pause, resume and acquire, all of them accepted, and token 1 |
| SplitClients.WriteReplacesItsSnapshot | src/ueaf/infrastructure/db/repositories.py:121-128 | A conditional write either fails without effect or replaces the very snapshot it was computed from, with the result the command would have had alone |
| SplitClients.InterleavingRefinesAtomic | src/ueaf/runtime/coordinator.py:513-668 | Under every interleaving of clients that read and write in separate steps, the state is that of an atomic history of the commands that took effect |
| SplitClients.NoLostUpdate | src/ueaf/runtime/coordinator.py:513-668 | In every interleaving a pending command takes effect if and only if its snapshot is still the stored record and it would succeed alone, and then its outcome is the one it would have had alone; otherwise nothing changes |
| SplitClients.CurrentWriteRunsAlone | src/ueaf/runtime/coordinator.py:513-668 | A write whose snapshot is still the stored record has the state and the answer of the command run alone |
| SplitClients.InterleavedRevisions | src/ueaf/infrastructure/db/repositories.py:121-128 | Interleaved clients also produce one record a revision |
| SplitClients.CancelIsItsCommit | src/ueaf/runtime/coordinator.py:476-489 | On a run that is not terminal, cancelling decides what the terminal commit it calls decides, so the later read inside it is that of a terminal commit |
| SplitClients.UncheckedCommitIsAtomicExactly | src/ueaf/runtime/coordinator.py:211-218 | Split without an expected revision, `begin_admission` has the atomic effect exactly when the stored record is still the one it read |
| SplitClients.UncheckedAdmissionUndoesCancel | src/ueaf/runtime/coordinator.py:211-218 | A cancellation committed in between would be undone: the terminal run would be admitting again |
| SplitClients.LogIsFresh | src/ueaf/runtime/coordinator.py:300-312 | The atomic history behind an interleaving draws no identifier twice, so the lease results apply to it |
| RunFields.OutcomeIsTheLastCommands | src/ueaf/runtime/coordinator.py:602-640 | An unfinished run of any history carries no result, error or terminal reason; a run that has just ended carries the disposition, result, error and reasons its last command asked for: those of a terminal commit, Cancelled of a cancel, Rejected of a rejected admission |
| RunEffects.LastWriterDecides | src/ueaf/runtime/coordinator.py:513-668 | In every history the record of a run that has changed is what its last writer wrote: the disposition that command ends runs with and none otherwise, the wait reason, references and origin it gave, the lease's holder and moments, the time of the command |
| RunEffects.StepEffects | src/ueaf/runtime/coordinator.py:204-668 | An accepted command on an unfinished run appends exactly its own announcements, each with the caller's values, its revision and fresh id, and writes those fields |
| RunEffects.CommitTerminalIsReplayed | src/ueaf/runtime/coordinator.py:602-605 | Whatever follows an accepted terminal commit, the same disposition again returns the stored record and changes nothing, and any other disposition is a conflict |
| RunEffects.CreationEffects | src/ueaf/runtime/coordinator.py:135-199 | A creation is refused for a known task or run id, and otherwise adds the task, the queued record at revision 1 and the creation event, and nothing else |
| RunEffects.ResultsKeptExactly | src/ueaf/runtime/coordinator.py:226-330 | An accepted admission keeps its result; no other command touches results or tasks |
| RunFields.AttemptCountsRetries | src/ueaf/runtime/coordinator.py:309-331 | The attempt number is one more than the retries picked up without a held lease |
| RunFields.RenewedLeaseLastsExactly | src/ueaf/runtime/coordinator.py:300-360 | After an accepted acquire or heartbeat, a heartbeat on that lease is accepted exactly during the next 120 seconds |
| RunFields.SummaryShowsTaskAndWait | src/ueaf/operations/projections.py:44-74 | In every history a run's summary names its task, and while the run waits, its wait reason |
| RunEffects.SummaryShowsAttempt | src/ueaf/operations/projections.py:56-65 | In every history a run's summary shows the attempt at which its last accepted retry was scheduled |
| RunEvents.RunEventAccounting | src/ueaf/runtime/coordinator.py:670-699 | For every run of every history: events = revision + admissions applied - heartbeats accepted; versions never decrease; a terminal event exists exactly when the record is terminal and is the last; the projected disposition is the stored one and the projected revision lags by the heartbeats since the last event |
| RunEvents.ProjectIsPerRun | src/ueaf/operations/projections.py:38-74 | Folding a stream that mixes runs gives each run the fold of its own events |
| RunEvents.RunSummaryProjector.Apply | src/ueaf/operations/projections.py:38-74 | The stored summaries are always the fold of every event applied so far |
| RunEvents.DeferredAdmissionProjectsTerminal | src/ueaf/runtime/coordinator.py:251-276 | The failing branch: after any deferred admission the run is waiting while its projected phase says terminal |
| RunPhases.StepProjectsPhase | src/ueaf/runtime/coordinator.py:204-640 | After each accepted command the projected phase is the one its events name, or unchanged: so it equals the stored phase after beginning an admission, an acquire or an admission that is not deferred, differs after a deferred one, and after any other command equals it exactly when the old projection is the phase the run has now |
| RunPhases.ProjectedPhaseIsLastNamed | src/ueaf/operations/projections.py:47-49 | In every history the projected phase is the one named last (admitting, running, terminal for deferred and rejected, or the phase of an acquire), none if none was named, and it is the stored phase exactly when the run has not moved away from it |
| Outbox.InMemoryOutboxStore.Append | src/ueaf/runtime/outbox.py:62-66 | Appends exactly the entries whose event id is new |
| Outbox.InMemoryOutboxStore.Unpublished | src/ueaf/runtime/outbox.py:68-71 | The entries not marked published, in append order |
| Outbox.InMemoryOutboxStore.MarkPublished | src/ueaf/runtime/outbox.py:73-76 | Marks exactly the known event ids |
| Outbox.InMemoryOutboxPublisher.Publish | src/ueaf/infrastructure/queue/publisher.py:77-82 | Delivers an event id once; a second offer is declined and changes nothing |
| Outbox.InMemoryOutboxPublisher.Drain | src/ueaf/infrastructure/queue/publisher.py:84-90 | A drain that is not interrupted, by any publisher on any outbox, delivers in append order exactly the entries that are not marked and that it had not delivered, counts and marks exactly those; a publisher in step has then delivered the whole outbox |
| OutboxDelivery.DeliveredInOrderOnce | src/ueaf/infrastructure/queue/publisher.py:84-90 | For any interleaving of appends and drains, stopped anywhere, the delivered list is a duplicate-free prefix of the outbox, and every delivered entry is marked, about to be marked by one drain, or left by a stopped one |
| OutboxDelivery.FinishedDrainDeliveredItsSnapshot | src/ueaf/infrastructure/queue/publisher.py:84-90 | A drain at the end of its snapshot finds all of it delivered, whoever delivered it |
| OutboxDelivery.StoppedEntryStaysUnmarked | src/ueaf/infrastructure/queue/publisher.py:84-90 | An entry whose drain stopped between publish and mark is never marked by any later drain |
| OutboxDelivery.UnmarkedExactly | src/ueaf/infrastructure/queue/publisher.py:84-90 | A delivered entry that no running drain is about to mark is unmarked if and only if a drain stopped between publishing and marking it |
| OutboxDelivery.StoppingLeavesUnmarked | src/ueaf/infrastructure/queue/publisher.py:84-90 | It happens: a drain stops before the mark, a second one runs to its end, and the entry is delivered and unmarked |
| OutboxDelivery.OutboxIdsAreDistinct | src/ueaf/runtime/coordinator.py:670-699 | The coordinator's histories never give two events one id, so its appends never fail |
| Sorting.SortedSorts | src/ueaf/context/token_budgeter.py:216-216 | The stable sort returns a rearrangement in key order |
| Sorting.SortedOrderIndependent | src/ueaf/context/token_budgeter.py:216-216 | With distinct keys its result does not depend on the input order |
| Sorting.SortedIsStable | src/ueaf/context/token_budgeter.py:216-216 | Sorting keeps the input order of elements with one key |
| Sorting.StringLeExactly | src/ueaf/context/token_budgeter.py:216-216 | String keys compare by the first character in which they differ, a prefix first |
| TokenBudgeter.TokenBudgeter.Budget | src/ueaf/context/token_budgeter.py:103-176 | Dedupe, critical check, the two fit loops and both failures, equal to the result function the laws are about |
| TokenBudgeter.TokenBudgeter.FitItems | src/ueaf/context/token_budgeter.py:136-158 | The inner loop over one slot, with its early failure |
| TokenBudgeter.TokenBudgeter.OrderedSlots | src/ueaf/context/token_budgeter.py:212-233 | Sort, first occurrence of each ref, empty slots left out |
| BudgetLaws.ServedByTierAndRef | src/ueaf/context/token_budgeter.py:216-233 | Slots are served by tier and within a tier by their refs |
| BudgetLaws.KeptAndOmittedPartitionRefs | src/ueaf/context/token_budgeter.py:130-176 | On success kept refs and omissions are together the distinct input refs, each exactly once |
| BudgetLaws.SavedTokensAreOmitted | src/ueaf/context/token_budgeter.py:130-176 | Size before less size after is the tokens of the omitted items |
| BudgetLaws.CriticalNegationsAreKept | src/ueaf/context/token_budgeter.py:146-157 | No item flagged as a critical negation after deduplication is omitted |
| BudgetLaws.TierZeroRefsAreKept | src/ueaf/context/token_budgeter.py:133-141 | Every ref a tier 0 slot mentions is kept, whatever other slots mention it |
| BudgetLaws.BudgetBound | src/ueaf/context/token_budgeter.py:133-170 | The size after is at most the limit less the reserve plus the tokens of critical slots below tier 0 |
| BudgetLaws.NoOverrunWhenOnlyTierZeroIsCritical | src/ueaf/context/token_budgeter.py:133-170 | There is no overrun when only tier 0 slots are critical |
| BudgetLaws.NoOverrunExactly | src/ueaf/context/token_budgeter.py:133-141 | The size after stays within the limit less the reserve if and only if every critical slot below tier 0 fits into what is left at its turn, the check the critical branch leaves out |
| BudgetLaws.LateCriticalSlotOverruns | src/ueaf/context/token_budgeter.py:133-170 | An input that breaks the condition: a budget of 10 that ends at 13 |
| BudgetLaws.OmittedWouldNotFit | src/ueaf/context/token_budgeter.py:143-158 | The fit is maximal: with nonnegative tokens no omitted item could still be added without overrunning the limit or its slot's own limit |
| BudgetLaws.FailsExactly | src/ueaf/context/token_budgeter.py:112-163 | A budget fails if and only if its critical tokens exceed what is available or else an optional slot that is reached refuses a flagged item; it then keeps nothing, and in the second case reports what the slots before that one spent |
| BudgetOrder.BudgetIgnoresInputOrder | src/ueaf/context/token_budgeter.py:103-233 | Every permutation of the slots gives the same whole result, failures included, when slots with one (tier, ref) key are equal: with distinct keys, or with repeated equal slots |
| BudgetOrder.EqualKeysMatterExactly | src/ueaf/context/token_budgeter.py:112-233 | For any slots that share no ref and flag no item, every permutation gives the same whole result if and only if no two slots with items share a (tier, ref) key, or the critical tokens exceed what is available, the guard of the first failure |
| BudgetOrder.EqualKeysDependOnInputOrder | src/ueaf/context/token_budgeter.py:216-216 | Of any two optional one-item slots with one key and different refs, fitting singly but not together, the one given first is kept and the other omitted, in either order |
| ContextBuild.ContextBuilder.Build | src/ueaf/context/context_build.py:114-217 | Filters, sorts, slices, budgets and packs; a rejected build leaves the last evidence pack as it was |
| ContextBuild.BuildIsSafe | src/ueaf/context/context_build.py:114-217 | Without a freshness limit, whatever the refs: what is packed is authorised and in (tier, ref) order, holds with the overhead the reported tokens plus those of documents that repeat a ref, the reported tokens are at most the limit less the reserve, everything packed is tier 0 if an authorised tier 0 source was left out, and with distinct refs nothing repeats |
| ContextBuild.RejectedExactly | src/ueaf/context/context_build.py:123-166 | A build is rejected exactly when the selected tier 0 sources, each ref once, with the overhead exceed the limit less the reserve |
| ContextManifest.PackFollowsLabels | src/ueaf/context/context_build.py:63-69 | In the pack no document stands before one whose label comes earlier in tier0, high, medium, any other; within a label rank refs decide |
| ContextManifest.CutFollowsLabels | src/ueaf/context/context_build.py:117-124 | A source one of the principal's scopes opens is cut only behind selected ones: its label never comes strictly earlier, and within a rank its ref comes later |
| ContextManifest.SelectedExactly | src/ueaf/context/context_build.py:113-124 | Selected are as many authorised sources as the limit allows, a negative limit counting from the end |
| ContextManifest.SectionsExactly | src/ueaf/context/context_build.py:175-185 | A manifest has one section for each packed ref, in pack order, with that ref and its own tokens |
| ContextManifest.DecisionsExactly | src/ueaf/context/context_build.py:186-216 | Each selected source is reported in order, as selected if and only if it is packed; labels and evidence refs are those of the pack |
| ContextManifest.OmissionsExactly | src/ueaf/context/context_build.py:212-213 | A ref is omitted, once, if and only if it is selected and not packed |
| ContextBuild.PackedAsReportedExactly | src/ueaf/context/context_build.py:168-169 | The pack with the overhead holds exactly the reported tokens if and only if no two packed documents share a ref |
| ContextBuild.PackedSurplus | src/ueaf/context/context_build.py:168-169 | For every success the surplus is the tokens of the documents that repeat a ref: packed by ref, deduplicated before the count |
| ContextBuild.PackedWithinLimitExactly | src/ueaf/context/context_build.py:168-169 | The pack stays within the limit less the reserve if and only if the repeated documents fit into what the budget left |
| ContextBuild.AllPackedExactly | src/ueaf/context/context_build.py:127-169 | Everything selected is packed if and only if the first documents of the selected refs fit together into the limit less the reserve |
| ContextBuild.SelectedDecidesPack | src/ueaf/context/context_build.py:127-169 | When they do, the pack holds what is reported if and only if the selected refs are distinct, and stays within the limit if and only if all selected documents together do |
| ContextBuild.DuplicateRefsOverrun | src/ueaf/context/context_build.py:168-169 | An input that breaks it: 112 tokens packed under a limit of 100 |
| Workflow.WorkflowOrchestrator.Instantiate | src/ueaf/workflow/orchestrator.py:46-75 | One pending node run a node, in order, with the sources of its incoming edges |
| Workflow.WorkflowOrchestrator.ScheduleReady | src/ueaf/workflow/orchestrator.py:77-89 | Starts exactly the pending node runs whose dependencies were completed before the pass, and reports their ids in order |
| Workflow.WorkflowOrchestrator.CompleteNode | src/ueaf/workflow/orchestrator.py:91-98 | Completes the first node run with the id; the run completes when all have |
| Workflow.WorkflowOrchestrator.FailNode | src/ueaf/workflow/orchestrator.py:100-107 | Fails the first node run with the id and the run |
| WorkflowLaws.PassSetsStatus | src/ueaf/workflow/orchestrator.py:77-89 | A pass leaves the run running when it reports anything, and changes nothing otherwise |
| WorkflowLaws.InstantiatedExactly | src/ueaf/workflow/orchestrator.py:46-75 | Each node gets one pending node run under the run's id, of the kind its id's prefix announces, that waits for exactly the sources of its incoming edges |
| WorkflowLaws.AdvancedExactly | src/ueaf/workflow/orchestrator.py:79-89 | A pass reports exactly the node runs whose status it changes, all from pending to running |
| WorkflowLaws.ReachableInv | src/ueaf/workflow/orchestrator.py:77-107 | In every run in which only running nodes are completed or failed, whatever has left pending has all dependencies completed, and the run is completed exactly when it has nodes and all are |
| WorkflowLaws.CycleNeverStarts | src/ueaf/workflow/orchestrator.py:83-87 | A node on a cycle is pending in every reachable state |
| WorkflowLaws.ReachableProgress | src/ueaf/workflow/orchestrator.py:77-98 | In an acyclic workflow every reachable state without failures is finished, has a running node or can schedule one |
| WorkflowLaws.FinishesExactlyWhenAcyclic | src/ueaf/workflow/orchestrator.py:63-98 | After as many rounds of scheduling and completing as there are nodes, whatever the order within each round, the run is completed if and only if the graph has no cycle |
| WorkflowLaws.LongWalkHasCycle | src/ueaf/workflow/orchestrator.py:63-75 | A walk longer than the number of nodes contains a cycle |
| MemoryGovernance.TextRules.DetectConflict | src/ueaf/memory/governance.py:119-153 | Exactly the active records of the subject and scope that say something else and share half of the smaller token set, in order |
| MemoryGovernance.RetentionIsLater | src/ueaf/memory/governance.py:33-37 | A retention decision never yields an expiry at or before the start |
| MemoryService.InMemoryMemoryStore.Save | src/ueaf/memory/service.py:44-48 | Stores under an unused id only, last in iteration order |
| MemoryService.InMemoryMemoryStore.Update | src/ueaf/memory/service.py:50-61 | Replaces exactly with the next revision of a known record |
| MemoryService.MemoryService.PromoteGoverned | src/ueaf/memory/service.py:191-266 | The governance ladder in its order: consent, review, retention, duplicate, conflict, record |
| MemoryService.MemoryService.Correct | src/ueaf/memory/service.py:309-371 | Supersedes first and saves the successor second, with every failure point in between |
| MemoryService.MemoryService.Expire | src/ueaf/memory/service.py:373-388 | Only active records expire |
| MemoryService.MemoryService.Delete | src/ueaf/memory/service.py:390-418 | Deletes a known record once; a second deletion changes nothing |
| MemoryService.MemoryService.RevokeConsent | src/ueaf/memory/service.py:420-444 | Deletes the active records of a consent one after the other |
| MemoryService.MemoryService.Recall | src/ueaf/memory/memory_recall.py:58-84 | Exactly the records the query may hit, in store order |
| MemoryHistory.StepKeepsInv | src/ueaf/memory/service.py:191-444 | In every reachable store a command raises only what it checks before its first write, and then changes nothing; neither the revision check nor a constructor ever stops it halfway |
| MemoryHistory.CorrectionSucceedsExactly | src/ueaf/memory/service.py:309-371 | A correction succeeds exactly for a valid confidence on an active record, retires that record and adds its successor |
| MemoryHistory.PromotionAdds | src/ueaf/memory/service.py:191-266 | A promotion never raises: it adds one valid record or leaves the store as it was |
| MemoryRecall.PromotesExactly | src/ueaf/memory/service.py:191-266 | A candidate is promoted exactly when it passes consent, review and retention and no active record of its subject duplicates or conflicts with it |
| MemoryHistory.RevocationDeletes | src/ueaf/memory/service.py:433-444 | A revocation deletes exactly the affected records and never fails midway |
| MemoryEffects.RevokesExactly | src/ueaf/memory/service.py:420-444 | Revoking a consent deletes exactly the active records under it, with the given reason; every other record and the order stay |
| MemoryEffects.RevocationAnswersExactly | src/ueaf/memory/service.py:420-444 | The answer lists exactly the ids of those records, each once, in store order |
| MemoryEffects.PromotionAnswersExactly | src/ueaf/memory/service.py:191-266 | The first check that fails gives the answer: sensitivity, review, session retention, the ids that repeat the statement, the ids that contradict it; promoted if and only if none does |
| MemoryEffects.PromotionWrites | src/ueaf/memory/service.py:252-307 | A promotion adds one record with the candidate's own fields, scope, consent reference and expiry; any other answer changes nothing |
| MemoryEffects.RetentionExactly | src/ueaf/memory/governance.py:33-76 | Only a session hint prevents persistence; expiry is the days of the hint, hours rounded down but at least one day, or of the class, after the start, and none without days above zero |
| MemoryEffects.CorrectionWrites | src/ueaf/memory/service.py:309-371 | A correction supersedes the record it names and adds its successor with the new words and the prior's line, inheriting an expiry that has not passed; each refusal has its condition and writes nothing |
| MemoryEffects.ExpiryWrites | src/ueaf/memory/service.py:373-388 | Expiring marks an active record expired at the next revision, and nothing else |
| MemoryEffects.DeletionWrites | src/ueaf/memory/service.py:390-418 | Deleting marks any undeleted record deleted with its reason, by default deleted; a deleted record is returned unchanged |
| MemoryEffects.ReplacementExactly | src/ueaf/memory/objects.py:67-77 | A replacement is written if and only if it passes the constructor's checks and is the next revision of a stored record |
| MemoryEffects.StoredRecordsAreValid | src/ueaf/memory/objects.py:67-77 | In every history each stored record passes those checks and none is sensitive |
| MemoryHistory.LineagesAreLinear | src/ueaf/memory/service.py:309-371 | In every history each record is on a supersession line, lines never fork or join, everything before a tip is superseded or deleted, and subject, scope, sensitivity and consent are constant along a line |
| MemoryHistory.ActiveRecordsAreOnDifferentLines | src/ueaf/memory/service.py:328-335 | Two active records are never on one line |
| MemoryHistory.RevisionsAreBounded | src/ueaf/memory/service.py:50-61 | Active records are exactly those of revision 1, none exceeds 3, and only deleted records reach 3 |
| MemoryRecall.DefaultRecallIsActiveFor | src/ueaf/memory/service.py:66-74 | A recall that names only a subject equals the store's active list, order included |
| MemoryRecall.RecalledExactly | src/ueaf/memory/memory_recall.py:58-84 | An id is recalled exactly when its stored record is active, in its window, visible to the caller and matches the filters |
| MemoryEffects.RecallExactly | src/ueaf/memory/memory_recall.py:58-84 | A recall returns, in store order, exactly the active stored records valid at the moment that match every given filter and belong to the subject or to a team or tenant the caller is authorised for |
| MemoryEffects.DefaultRecallExactly | src/ueaf/memory/memory_recall.py:58-84 | With only a subject and a moment it returns that subject's active records of the moment, and nothing shared |
| MemoryRecall.PromotionIsRecalled | src/ueaf/memory/service.py:268-305 | A promoted candidate is recalled for its subject from that moment |
| MemoryRecall.CorrectionTakesOver | src/ueaf/memory/service.py:334-371 | Right after a correction the recall returns the new statement and not the old record |
| MemoryRecall.RetiredIsNeverRecalled | src/ueaf/memory/service.py:390-418 | A record that was deleted, superseded or expired is returned by no later recall, whatever it asks for |
| MemoryRecall.NoClashWithoutCorrections | src/ueaf/memory/governance.py:106-153 | In every history without corrections no two active records of a subject share a normalised statement, and no two of one scope overlap by half |
| MemoryRecall.CorrectionClashesExactly | src/ueaf/memory/service.py:309-371 | A correction keeps that exactly when the duplicate and conflict checks it skips would have passed |
| MemoryRecall.CorrectionCanDuplicate | src/ueaf/memory/service.py:309-371 | Correcting an active record to another active record's statement is such a clash |
| MemoryRecall.CorrectionReachesClash | src/ueaf/memory/service.py:309-371 | A history that reaches it from the empty store: two promotions that do not clash, then a correction after which two active records of one subject say the same |
| Codec.RoundTripsExactly | src/ueaf/infrastructure/db/serialization.py:43-85 | A value decodes from its encoding to itself if and only if its dates are aware, its dicts use no reserved key and its instances are of registered classes, at every depth |
| Codec.EncodingIsInjective | src/ueaf/infrastructure/db/serialization.py:43-63 | On those values the encoding is injective |
| Codec.StoredForm | src/ueaf/infrastructure/db/serialization.py:43-63 | The JSON of each kind of value, down to the reserved keys and the order of items |
| Codec.EncodesExactly | src/ueaf/infrastructure/db/serialization.py:43-63 | A value can be written if and only if nothing in it, at any depth, is of an unsupported kind |
| Codec.TextUnderTupleKey | src/ueaf/infrastructure/db/serialization.py:74-75 | A text under the tuple key is read as the tuple of its characters |
| Codec.ReservedKeyCollides | src/ueaf/infrastructure/db/serialization.py:45-52 | A dict with the date key encodes like the date it imitates |
| Codec.NaiveDateGainsUtc | src/ueaf/infrastructure/db/serialization.py:68-73 | A naive date comes back in UTC |
| ContextCache.InMemoryContextCache.Get | src/ueaf/context/cache.py:74-81 | Returns a live, unexpired entry; an expired one is removed everywhere |
| ContextCache.InMemoryContextCache.Put | src/ueaf/context/cache.py:83-89 | Stores the entry and lists it under its sources and scope |
| ContextCache.InMemoryContextCache.InvalidateSource | src/ueaf/context/cache.py:91-96 | Drops the source's row and every key it listed; returns how many |
| ContextCache.InMemoryContextCache.InvalidateScope | src/ueaf/context/cache.py:98-103 | Drops the scope's row and every key it listed; returns how many |
| ContextCache.ReachableSound | src/ueaf/context/cache.py:74-109 | After every history each live entry is listed under all its sources and its scope, and every listed key is live |
| ContextCache.StoredIsFoundUntilExpiry | src/ueaf/context/cache.py:71-83 | What was stored is found under its own key until it expires, and no other key is touched |
| ContextCache.SourceInvalidationIsComplete | src/ueaf/context/cache.py:91-96 | Afterwards no live entry names the source, and the count is exactly the number of entries removed |
| ContextCache.ScopeInvalidationIsComplete | src/ueaf/context/cache.py:98-103 | The same for a scope |
| ContextCache.StoreKeepsExactExactly | src/ueaf/context/cache.py:83-89 | A store keeps the indexes exact if and only if a live entry is overwritten with the same scope and at least the same sources |
| ContextCache.RefinesPlainMap | src/ueaf/context/cache.py:74-109 | While overwrites conform, the cache is a plain map whose invalidations delete by filter |
| ContextCache.OverwriteOverInvalidates | src/ueaf/context/cache.py:83-96 | Otherwise an entry goes with a source it no longer names |
| ContextCache.OverwriteOverInvalidatesScope | src/ueaf/context/cache.py:83-105 | Likewise with a scope it no longer has |
| ContextCache.JoinedIsInjective | src/ueaf/context/cache.py:29-40 | Keys tell all parts apart when no part but the last contains the separator |
| ContextCache.PrincipalsShareKeysExactly | src/ueaf/context/cache.py:29-40 | A request's key is also the key of some request of another principal if and only if some part of the request contains the separator |
| ContextCache.AmbiguousExactly | src/ueaf/context/cache.py:29-40 | For two or more parts: other parts with the same key exist if and only if some part contains the separator, and then some with another last part do |
| ContextCache.PrincipalsNeverShareKeys | src/ueaf/context/cache.py:29-40 | Requests of different principals have different keys when they agree in the seven other parts, whatever the parts contain, or when none of those parts contains the separator |
| ContextCache.SeparatorCollides | src/ueaf/context/cache.py:29-40 | For all parts: when the region ends in a separator and a text, that text and separator can as well begin the principal, and the eight-part keys are equal although the principals differ |
| RankFusion.HybridRetriever.Fuse | src/ueaf/rag/hybrid.py:129-147 | Both accumulation loops and the final ordering, equal to the fused list the laws are about |
| RankFusion.HybridRetriever.Search | src/ueaf/rag/hybrid.py:70-117 | Lexical and vector channels, the second filter on vector results, fusion and the cut |
| FusionLaws.FusionKeepsOrder | src/ueaf/rag/hybrid.py:129-147 | A chunk ranked ahead of another in every list that holds the other stands before it in the fused order |
| FusionLaws.ResultsByScoreThenId | src/ueaf/rag/hybrid.py:146-147 | Results come by falling score, equal scores by chunk id |
| FusionLaws.ResultsKeepOrder | src/ueaf/rag/hybrid.py:107-117 | The same for the returned results, after filtering and cutting |
| FusionLaws.ResultsAreAuthorised | src/ueaf/rag/hybrid.py:98-117 | Returned ids differ, are at most `top_k`, and come from the authorised sources |
| FusionLaws.FallbackIsLexical | src/ueaf/rag/hybrid.py:84-97 | Without vector results the answer is the first `top_k` lexical results in order, marked degraded |
| FusionLaws.LexicalSources | src/ueaf/rag/retrieval.py:68-85 | Lexical results are distinct and from the allowlist |
| FusionLaws.LexicalExactly | src/ueaf/rag/retrieval.py:68-85 | The lexical list rearranges exactly the candidates of the allowed sources, relevance never rises, and equally relevant candidates keep their order |
| FusionLaws.FallbackByRelevance | src/ueaf/rag/hybrid.py:84-97 | Without vector results the answer has as many allowed candidates as fit, most relevant first, the i-th scored 1 / (k + i), and none left out is more relevant than a returned one |
| FusionLaws.ResultScoresExactly | src/ueaf/rag/hybrid.py:129-147 | A result scores 1 / (k + rank) for each of its ranks, and is marked degraded exactly without vector results |
| FusionLaws.VectorExactly | src/ueaf/rag/hybrid.py:98-106 | The vector list keeps exactly the backend's results from the sources asked for, in order |
| Chunker.SplitSemanticChunks | src/ueaf/rag/index.py:65-93 | The line loop, with its flushes and the check for an empty body |
| Chunker.GroupsKeepLines | src/ueaf/rag/index.py:65-93 | The chunks' lines before stripping are the text's nonblank lines, in order |
| Chunker.NoBufferIsDropped | src/ueaf/rag/index.py:80-93 | Every flushed buffer becomes a nonempty chunk, numbered from 0 |
| Chunker.FencedBlockIsInOneChunk | src/ueaf/rag/index.py:74-78 | A fenced block lies in one chunk without interruption |
| ChunkText.FencedBlockIsInOneText | src/ueaf/rag/index.py:65-93 | The inside of a fenced block stands in the text of one emitted chunk, line by line |
| ChunkText.TextIsItsLines | src/ueaf/rag/index.py:80-93 | Cutting a chunk's text at newlines gives its buffer's lines back, only without the space before the first and after the last |
| ChunkText.CutJoined | src/ueaf/rag/index.py:81-90 | Cutting joined lines at newlines gives the lines back |
| ChunkText.FenceExactly | src/ueaf/rag/index.py:74-74 | A line is a fence if and only if three backticks come first in it, apart from space |
| ChunkText.StripExactly | src/ueaf/rag/index.py:81-90 | Stripping takes away the space at both ends, all of it, and nothing else |
| ChunkText.DecimalExactly | src/ueaf/rag/index.py:83-92 | Chunk numbers are written in decimal digits without leading zeros |
| Chunker.HeadingOpensChunk | src/ueaf/rag/index.py:79-87 | Outside fences a heading or table line is the first of its chunk |
| Chunker.LineIsInItsChunk | src/ueaf/rag/index.py:65-93 | Each nonblank line is in the chunk its position gives |
| Chunker.NeighboursShareChunkExactly | src/ueaf/rag/index.py:74-89 | Two neighbouring nonblank lines share a chunk exactly when a fence is open between them or the second is no heading or table line |
| Chunker.BlankLineSeparates | src/ueaf/rag/index.py:79-88 | Lines before and after a blank line outside fences share no chunk |
| RetrievalStores.RetrievalIndex.Add | src/ueaf/rag/index.py:103-107 | Adds a chunk unless its source was deleted |
| RetrievalStores.RetrievalIndex.DeleteSource | src/ueaf/rag/index.py:109-113 | Removes exactly the source's chunks and closes the source |
| RetrievalStores.InMemoryVectorBackend.Upsert | src/ueaf/infrastructure/vector/__init__.py:70-81 | Unequal lengths change nothing; otherwise exactly the chunks of open sources are stored and returned |
| RetrievalStores.InMemoryVectorBackend.Delete | src/ueaf/infrastructure/vector/__init__.py:106-115 | Removes exactly the source's points, counts them and closes the source |
| RetrievalStores.IndexingPipeline.Ingest | src/ueaf/rag/pipeline.py:64-84 | Splits, embeds, writes the backend and then the mirror if there is one, and returns the projection with the embedder recorded in its policy; a wrong number of vectors changes neither store |
| RetrievalStores.IndexingPipeline.Delete | src/ueaf/rag/pipeline.py:86-90 | Deletes the source from the backend and from the mirror if there is one |
| RetrievalStores.StoresMirrorEachOther | src/ueaf/rag/pipeline.py:64-90 | In every history the two stores hold the same chunks, each under its own id and none of a deleted source |
| RetrievalStores.DeletedSourceNeverReturns | src/ueaf/rag/pipeline.py:86-90 | After a deletion neither store ever holds a chunk of the source again |
| RetrievalStores.IngestedIsHeld | src/ueaf/rag/pipeline.py:64-104 | A document of an open source is held whole by both stores after its ingestion |
| RetrievalStores.ProjectionExactly | src/ueaf/rag/pipeline.py:76-104 | The projection names the document, its chunks by number and the embedder used; chunk ids, sources, versions and locators are the document's |
| RetrievalStores.HeldSurvivesExactly | src/ueaf/rag/pipeline.py:64-104 | A held chunk survives the next operation if and only if that neither deletes its source nor writes another chunk under its id |
| RetrievalStores.HeldUntilDisplaced | src/ueaf/rag/pipeline.py:64-104 | Through any history of operations that do not displace it, shorter re-ingestions included, a held chunk stays in both stores |
| RetrievalStores.IdsCollideAcrossSources | src/ueaf/rag/pipeline.py:93-104 | Chunks of two different sources can have one id |
| RetrievalStores.CollidingIngestsDisplace | src/ueaf/rag/pipeline.py:64-104 | After any history, ingesting such a document puts its chunk into both stores, and ingesting the other one then replaces it in both |
| JetStream.JetStreamConsumer.Subscribe | src/ueaf/infrastructure/queue/jetstream.py:101-141 | Reads until the stream ends or the caller, counting after each delivery, has enough, over any number of calls, keeping the statistics of everything read so far |
| JetStream.StreamIsBalanced | src/ueaf/infrastructure/queue/jetstream.py:107-122 | Over any stream: deliveries strictly increase, deliveries + duplicates = messages read, last - first + 1 = deliveries + total gap size, and gaps are nonempty, ordered and inside |
| JetStream.EveryNumberOnce | src/ueaf/infrastructure/queue/jetstream.py:107-122 | Every number from the first to the last delivery is delivered or lies in exactly one gap |
| JetStream.DeliveredExactlyNewMaxima | src/ueaf/infrastructure/queue/jetstream.py:107-110 | A message is delivered exactly when its number is larger than every number read before it |

## Left out

- Storage and transport around the in-memory semantics: SQL, Alembic, Qdrant, NATS connections, S3, telemetry and HTTP. A transaction is one atomic step, and a SQL compare-and-set is the in-memory conditional update.
- Clock: a command of the coordinator gets one moment, while the source reads its clock again for the record and for each event. Only order against leases and admission expiry matters to the properties.
- Run fields without effect on the modelled behaviour: meta, tenant, budget snapshots, principal, schema references, wait expiry and event payload fields the projection does not read.
- RunCoordinator.RunCoordinator.Resume: accepts any target phase, where the source's annotation names running and admitting only; its code checks the table alone.
- RunRepositories.InMemoryRunRecordRepository.Update: the coordinator never passes the fencing token, so no history theorem depends on that branch.
- SplitClients.InterleavingRefinesAtomic: a command writes against its first snapshot. A deferred or rejected admission and a cancel read the run again inside one transaction and write against that second read; for a cancel that is the terminal commit it calls, a command of the model's own (`CancelIsItsCommit`), while an admission whose run changes between its two reads, without a transaction around them, is not modelled.
- TokenBudgeter.TokenBudgeter.Budget: the constructor's refusal of negative settings is a precondition of the class's constructor; the context builder models the refusal as an error.
- BudgetOrder.EqualKeysMatterExactly: speaks of slots that share no ref with each other and flag no critical negation. When slots share a ref, or a flagged item can block the fit, equal keys may be harmless for further reasons; `BudgetIgnoresInputOrder` needs neither assumption.
- RankFusion.HybridRetriever.Search: the constructor's refusal of a rank constant or cut below 1 is a precondition; scores are exact reals, so ties that floating point would merge or break are not captured.
- Query and relevance: which chunks match a query's terms and how often are inputs of the search, as are the vector backend's similarity order and its failures.
- ContextBuild.ContextBuilder.Build: conflicts, coverage, proofs and digests of the evidence pack are not modelled, nor is parsing the freshness text; its limit comes in as an optional number.
- Compression of slots and compression lineage.
- Workflow attempts, handoffs and retries: appended records that no scheduling decision reads.
- MemoryService.MemoryService.PromoteGoverned: whether an approved review exists is an input; the review queue itself, audit counters and service-level timings are not modelled.
- MemoryGovernance.TextRules.DetectConflict: normalisation and tokenisation are arbitrary functions, and a retention hint arrives already trimmed, lower-cased and matched.
- Codec.RoundTripsExactly: dict keys are strings; keys of other types are turned into text by the source and may collide. Decoding an object under the tuple key, which the source reads as its keys, is a failure here; no encoding of a faithful value contains one.
- ContextCache.InMemoryContextCache.Put: the order in which a set of keys is visited is arbitrary, as it has no effect on the result.
- RetrievalStores.IndexingPipeline.Ingest: projection digests are hashes and are not modelled.
- RetrievalStores.StoresMirrorEachOther: speaks of a pipeline with a lexical mirror, the case in which there are two stores.
- Chunker.SplitSemanticChunks: starts from the lines of the text; which characters are spaces is a parameter.
- JetStream.JetStreamConsumer.Subscribe: message decoding, acknowledgements and subscription failures are not modelled.
- Second event bus of the outbox module, action ledger, schema registry, evolution, evaluation, release and security modules: they would add single-branch gates and look-ups.
