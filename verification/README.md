# Verification of the observability toolkit's stateful cores

This project models, in Dafny 4.11, the parts of the repository whose correctness depends on state, interleaving or
counting, and proves what they promise for all inputs and all runs. `dafny verify dfyconfig.toml` checks everything.

## What is modelled

* **Event delivery** (`OutboxRows`, `Inbox`, `DeliveryProtocol`, `DeliverySafety`, `ConsumptionHistory`,
  `InboxLeases`, `ClaimTiming`, `DeliveryProgress`, `BoundedRetries`, `MemoryRetries`, `ReplayHazard`). The outbox
  record and the Postgres row with their guarded transitions, the inbox entry, and any number of workers that claim,
  run consumers, deliver, complete, retry or dead-letter. A run is any sequence of atomic backend calls and worker
  steps; a call's answer may be lost. `Fencing` and `RowHistory` say which calls each store grants and what they
  leave.
* **The in-memory backend** (`MemorySpec`, `MemoryTheorems`, `MemoryOutcomes`, `ClaimSizes`, `BatchClaims`,
  `MemoryBackend`). The maps and byte counters as a class, each method tied to a function of an abstract view; the
  properties are proved about those functions.
* **Bounds and shutdown** of the events manager (`WorkerLimits`, `Finalization`): the FIFO permits of a consumer, the
  dispatch slots, and the resumable list of finalisation steps.
* **The flush protocol of the errors package** (`ErrorsFlush`, `FlushSafety`, `FlushServing`, `FlushProgress`,
  `ErrorsRuntime`): the handler and the report runtime below it, each with numbered admissions and chained flush
  generations. `ErrorsFlush` keeps the whole history; `ErrorsRuntime` keeps only the sets, counters and promises that
  the source keeps, and follows it.
* **The error deduplication cache** (`DedupCache`, `DedupTheorems`, `DedupAgreement`, `DedupExact`, `DedupUse`,
  `DedupForgets`, `ErrorDeduplicationCache`): entries, throttle set, eviction, and operations that are suspended at
  each `await`.
* **Strings and serialisers** (`Utf16` with `StringHash`, `JsonText`, `JsonReader`, `JsonParts`, `ProfileWriter`,
  `ProfileJson`, `SnapshotJson`): UTF-16 code units, UTF-8, the JSON text of plain data, and the loops that count its
  bytes without building it.
* **Lifecycle** (`StartupBatches`, `StartupSchedule`, `HealthRuns`, `HealthTheorems`, `HealthExact`, `HealthManager`)
  and **browser metric aggregation** (`Aggregation`, `AggregationOutcomes`, `MetricAggregator`).

A step that is not enabled changes nothing, so every sequence of steps is a run. Members described as history (for
example `completedBy`, `seen`, `verdicts`, `samples`) are read by no step; they let the theorems speak about the past.

The classes keep, as history, the steps that led to their state; their `Valid` says that the state is where these steps
lead or carries the invariant outright, so what is proved about runs holds of every object.

Results that differ from what one might expect of the code, each with an input that shows it and its exact condition:

* the memory store honours superseded tokens again after a lease was cleared (`MemorySupersededTokenRevives`, exactly
  `MemoryTokenHonoured`);
* a Postgres token revives across a reset of the attempts (`PostgresResetRevivesToken`, exactly `PostgresTokenHonoured`);
* a claim in memory can be refused half way when a record shrinks (`ClaimStopsHalfWay`, exactly `ClaimAllOrNothing`);
* replaying undoes consumption under a stalled delivery (`ReplayUndoesConsumption`, exactly `CompletionStandsExactly`);
* a renewal by a clock that is behind shortens the lease, and the event can be claimed before the time its producer set
  (`SlowClockClaimsEarly`, exactly `EarlyExactly`);
* the backoff of a record that was never claimed starts at 125 ms (`BackoffBounds`);
* the early key test of the profile serialiser refuses objects whose absent members take no room
  (`EarlyTestRefusesAbsent`, exactly `StringifyProfile`);
* eviction, or a clock that goes back, makes the deduplication cache report again (`EvictionForgets`,
  `ClockJumpForgets`, exactly `AnswersExactly`).

## Model

| member | source | states |
|---|---|---|
| DeliverySafety.CompletionMeansConsumed | packages/events/src/events/manager.ts:811-855 | In every interleaving of any number of workers, on either backend, when the outbox accepts a completion, every consumer the worker registered for the type has a completed inbox entry, unless a replay or purge forgot the event after that consumer's run had ended |
| DeliverySafety.DispatchedMeansConsumed | packages/events/src/events/manager.ts:811-855 | In every run a dispatched event was completed by a delivery of it all of whose consumers have consumed it, except where a replay or purge forgot that, which none did if none named the event; and an unbound event had at least one consumer |
| DeliverySafety.ConsumerSucceedsOnce | packages/events/src/events/manager.ts:580-669 | Two deliveries of an event never both report success for the same consumer, unless a replay or purge forgot one of the two successes |
| DeliverySafety.EveryRunKeeps | packages/events/src/events/manager.ts:580-882 | After every sequence of steps, replays and purges included: a run counts as successful only over a completed entry it owns and as a duplicate only over a completed entry, unless it was forgotten since; a delivered event had all its consumers' runs end so; and every dispatched event names a delivery that justifies it |
| ConsumptionHistory.ConsumedExactly | packages/events/src/events/memory-backend.ts:113-125 | In every run whatsoever an inbox entry is complete if and only if the last step that completed or forgot it completed it |
| ConsumptionHistory.CompletionStandsExactly | packages/events/src/events/manager.ts:811-855 | What a replay can undo, exactly: when the outbox accepts a completion, a registered consumer's entry is complete if and only if it was completed after it was last forgotten, and a run that was not forgotten always satisfies that |
| ReplayHazard.ReplayUndoesConsumption | packages/events/src/events/postgres-backend.ts:177-177 | A concrete run with the Postgres token in which a stalled delivery's completion is accepted after a replay although its consumer's entry is gone and nobody has consumed the event again |
| DeliveryProgress.DeliversInPeace | packages/events/src/events/manager.ts:811-855 | A worker that nobody disturbs, with a token that is still good, consumes the event with every consumer it registered for the type, whatever their number, and dispatches it |
| DeliveryProgress.AppendedIsDelivered | packages/events/src/events/manager.ts:892-906 | On either backend an event that is appended can be claimed from the time it is available until it expires; the claim begins a delivery with one waiting run for each registered consumer and a good token |
| DeliveryProgress.PoisonEnds | packages/events/src/events/manager.ts:767-782 | A poisoned event whose delivery has not begun is buried exactly when the token is good |
| DeliveryProgress.CompletionEnds | packages/events/src/events/manager.ts:850-855 | A completion that is refused, or whose answer is lost, fails the delivery |
| ClaimTiming.ClaimsExactly | packages/events/src/events/postgres-backend.ts:161-161 | After every run on either backend a claim is granted if and only if the event is before the expiry of its last append and either waits and the time set by its last append, retry or replay has come, or is being delivered and the lease of its last claim or renewal is over; a granted retry waits for 250 ms doubled with each attempt, or what the failure asks for, at most a minute |
| ClaimTiming.NeverEarlyNorExpired | packages/events/src/events/memory-backend.ts:79-83 | As long as no lease of it is shortened, no event is claimed before the time its last append, retry or replay set, nor at or after its expiry |
| ClaimTiming.EarlyExactly | packages/events/src/events/memory-backend.ts:79-83 | An event can be claimed before the time its last append, retry or replay set exactly when it is being delivered under a lease that ends before that time, and before the event expires |
| ClaimTiming.SlowClockClaimsEarly | packages/events/src/events/manager.ts:791-799 | A concrete run, on either backend, in which a renewal by a clock that is behind makes the event claimable a second before its time |
| ClaimTiming.PurgesExactly | packages/events/src/events/memory-backend.ts:107-109 | On either backend a purge removes an event if and only if its last append's expiry has come and no lease of it still runs |
| InboxLeases.ClaimAnswers | packages/events/src/events/memory-backend.ts:121-121 | After every run a claim of a pair is a duplicate if and only if the pair was completed and not forgotten since; else busy if and only if the delivery that was granted it last, and did not give it back, still has the lease of its claim (half a minute) or last renewal; else granted |
| InboxLeases.LeasesDoNotOverlap | packages/events/src/events/manager.ts:593-640 | In every run, whenever a claim of a pair is granted while another run still works on it that was not forgotten, the last lease that run was granted is over by the clock of this claim, or the clock went back: it is over by that of an earlier granted claim |
| InboxLeases.OverlapExactly | packages/events/src/events/memory-backend.ts:121-121 | A claim by some clock can be granted before the end of a delivery's last lease exactly when the pair is not completed and whoever has it now, if anybody, has it for a shorter time |
| InboxLeases.RunOutcomes | packages/events/src/events/manager.ts:593-682 | What each call makes of a consumer run: a claim settles it by its answer, a completion succeeds exactly when the pair still is the run's and the answer arrives |
| BoundedRetries.RetriesAtMost | packages/events/src/events/manager.ts:856-876 | With the Postgres token an event is retried successfully at most maxAttempts - 1 times between resets, and never more often than it was claimed |
| MemoryRetries.MemoryRetriesAtMost | packages/events/src/events/manager.ts:856-876 | In memory, although superseded tokens can revive, an event that is never reset or removed, whatever happens to other events, is retried at most maxAttempts - 1 times: no two of its deliveries have the same attempt number, and the retries are as many as the attempt numbers that were granted one |
| BoundedRetries.FailureOutcome | packages/events/src/events/manager.ts:856-876 | A failure that the store accepts leaves the event dead exactly when it is permanent or the attempts are used up, and otherwise failed with one more retry counted |
| BoundedRetries.BackoffBounds | packages/events/src/events/manager.ts:868-869 | The delay lies in 250 to 60000 ms exactly when the record was claimed at least once or the failure asks for at least 250 ms, and does not shrink as attempts grow |
| ClaimTiming.WaitIsBackoff | packages/events/src/events/manager.ts:868-869 | The formula of the delay is a table: 250 ms, doubled with each attempt up to 64 s, replaced by what the failure asks for if that is longer, at most 60 s |
| Fencing.MemoryLeaseIsLastClaim | packages/events/src/events/memory-backend.ts:78-106 | In memory, from a fresh append, a record is dispatching exactly while it has a lease; the lease names the last claimer since the lease was last absent and its generation counts those claims |
| Fencing.MemoryTokenHonoured | packages/events/src/events/memory-backend.ts:91-106 | A token is honoured if and only if its owner made the last claim since the lease was last cleared and its generation is the number of those claims |
| Fencing.MemoryFencedUntilCleared | packages/events/src/events/memory-backend.ts:78-106 | A token superseded by a later claim is refused for as long as the lease is never cleared |
| Fencing.MemorySupersededTokenRevives | packages/events/src/events/memory-backend.ts:84-101 | The generation restarts at 1 once the lease is cleared: a concrete sequence after which a long superseded token completes the event |
| Fencing.PostgresFenced | packages/events/src/events/postgres-backend.ts:161-165 | With attempts as the token, a token superseded by a claim below the cap is refused after every further sequence of calls without a reset |
| Fencing.PostgresTokenHonoured | packages/events/src/events/postgres-backend.ts:161-178 | For every fresh row and every sequence of calls, resets and the cap included: a token is honoured if and only if its owner made the last accepted claim, nothing released the row since, and its generation is the number of claims since the last reset, cut off at the cap |
| Fencing.PostgresResetRevivesToken | packages/events/src/events/postgres-backend.ts:161-178 | Across a reset a superseded token can be honoured again: a concrete sequence; PostgresTokenHonoured says exactly when |
| Fencing.PostgresCapKeepsToken | packages/events/src/events/postgres-backend.ts:161-165 | A claim fails to supersede the current token exactly when the row is at the attempts cap and the same owner claims again |
| Fencing.PostgresLeaseColumns | packages/events/src/events/postgres-backend.ts:161-178 | From a fresh row, status dispatching, an owner and a lease time come and go together |
| Fencing.MemoryCompletesOnce | packages/events/src/events/memory-backend.ts:95-98 | Between replays the memory store accepts at most one completion of an event, and has accepted one exactly when the event is dispatched |
| Fencing.PostgresCompletesOnce | packages/events/src/events/postgres-backend.ts:163-163 | The same for a Postgres row |
| Fencing.MemoryClaimsDisjoint | packages/events/src/events/memory-backend.ts:78-90 | After a claim no other claim takes the record before the lease runs out, as long as no call releases it |
| Fencing.PostgresClaimsDisjoint | packages/events/src/events/postgres-backend.ts:161-162 | The same for a Postgres row, up to and including the instant of expiry |
| Fencing.ExpiryInstant | packages/events/src/events/postgres-backend.ts:161-161 | At the very instant of expiry the memory store reclaims the event and the Postgres store does not |
| RowHistory.RecordIsHistory | packages/events/src/events/memory-backend.ts:78-115 | In memory, after any calls, status, attempts, availability, lease end, failure code and write time are those of the last granted calls that set them, and nothing else of the record ever changes |
| RowHistory.RecordGrantsExactly | packages/events/src/events/memory-backend.ts:78-115 | In memory, whether each kind of call is granted is decided by that history alone |
| RowHistory.RowIsHistory | packages/events/src/events/postgres-backend.ts:161-179 | In Postgres every column is that of the last granted calls that set it, attempts up to the cap |
| RowHistory.RowGrantsExactly | packages/events/src/events/postgres-backend.ts:161-179 | In Postgres, whether each kind of call is granted is decided by that history alone |
| BatchClaims.ClaimsAreDisjoint | packages/events/src/events/memory-backend.ts:78-90 | Two batch claims of the store, the second before the leases of the first run out, share no record, whatever appends, other claims, purges before that time, replays, inbox calls and calls that release none of the records happen in between |
| Inbox.SingleCompleter | packages/events/src/events/memory-backend.ts:120-125 | Once an entry is complete, and until it is forgotten, it never changes: claims are duplicates, renewals and releases fail, and only its owner may complete it again |
| Inbox.TakenOverOwnerIsRefused | packages/events/src/events/memory-backend.ts:120-125 | An owner that no longer owns the entry and does not claim again never gets anything done, whatever else happens |
| Inbox.TakeOver | packages/events/src/events/postgres-backend.ts:170-170 | A claim by somebody else takes an entry over exactly when it is neither complete nor still leased |
| MemoryBackend.Backend.Append | packages/events/src/events/memory-backend.ts:62-77 | Stores all new events of a batch or nothing, with the source's order of refusals, and keeps the byte and record accounts exact |
| MemoryBackend.Backend.PlanAdditions | packages/events/src/events/memory-backend.ts:64-71 | The first pass finds the new events of a batch, or the first contradiction |
| MemoryBackend.Backend.WriteAdditions | packages/events/src/events/memory-backend.ts:72-76 | After the capacity checks every write of the loop succeeds |
| MemoryBackend.Backend.ClaimDue | packages/events/src/events/memory-backend.ts:78-90 | The due records, earliest first and cut off, are moved one by one until one does not fit |
| MemoryBackend.Backend.Set | packages/events/src/events/memory-backend.ts:47-53 | Writes a record exactly when there is room for it, and keeps usedBytes equal to the sum of all record and inbox sizes and within the limit |
| MemoryBackend.Backend.Renew | packages/events/src/events/memory-backend.ts:91-94 | Under the current token the lease gets its new expiry; otherwise, or when the record does not fit, nothing changes |
| MemoryBackend.Backend.Complete | packages/events/src/events/memory-backend.ts:95-98 | Under the current token the record becomes dispatched and loses its lease; otherwise, or when it does not fit, nothing changes |
| MemoryBackend.Backend.Retry | packages/events/src/events/memory-backend.ts:99-102 | Under the current token the record becomes failed, available again at the given time, without lease; otherwise, or when it does not fit, nothing changes |
| MemoryBackend.Backend.DeadLetter | packages/events/src/events/memory-backend.ts:103-106 | Under the current token the record becomes dead with its failure code and without lease; otherwise, or when it does not fit, nothing changes |
| MemoryBackend.Backend.RetryDeadLetter | packages/events/src/events/memory-backend.ts:114-114 | A dead record that fits is queued again with no attempts; any other call changes nothing |
| MemoryBackend.Backend.CancelScheduled | packages/events/src/events/memory-backend.ts:115-115 | A queued or failed record that fits is cancelled; any other call changes nothing |
| MemoryBackend.Backend.SetInbox | packages/events/src/events/memory-backend.ts:27-33 | Writes an entry exactly when its owner is short enough and it fits, and keeps the accounts exact |
| MemoryBackend.Backend.DeleteInbox | packages/events/src/events/memory-backend.ts:34-37 | Deletes an entry and its bytes, and says whether there was one |
| MemoryBackend.Backend.PurgeExpired | packages/events/src/events/memory-backend.ts:107-109 | Removes the first expired records up to the limit that are not under a live lease, together with all their inbox entries |
| MemoryBackend.Backend.Replay | packages/events/src/events/memory-backend.ts:113-113 | Resets matching finished records in order and then forgets their inbox entries; a record that does not fit stops it half way |
| MemoryBackend.Backend.InboxClaim | packages/events/src/events/memory-backend.ts:121-121 | Duplicate for a complete entry, busy for a live one, otherwise the entry passes to the new owner if it fits; keys and owners that are too long are refused |
| MemoryBackend.Backend.InboxRenew | packages/events/src/events/memory-backend.ts:122-122 | Only the owner of an incomplete entry moves its expiry, if the entry still fits |
| MemoryBackend.Backend.InboxComplete | packages/events/src/events/memory-backend.ts:123-123 | Only the owner completes an entry, if the entry still fits |
| MemoryBackend.Backend.InboxRelease | packages/events/src/events/memory-backend.ts:124-124 | Only the owner of an incomplete entry removes it, with its bytes |
| MemoryTheorems.ConflictExactly | packages/events/src/events/memory-backend.ts:65-71 | A batch is refused as contradictory if and only if one of its events differs from the stored event, or from an earlier event of the batch, with the same id |
| MemoryTheorems.NoWriteFails | packages/events/src/events/memory-backend.ts:72-76 | Once the two capacity checks have passed, no write of the batch can fail |
| MemoryTheorems.AppendStores | packages/events/src/events/memory-backend.ts:62-77 | After a successful append every event of the batch is stored with its identity |
| MemoryTheorems.AppendIdempotent | packages/events/src/events/memory-backend.ts:62-77 | Appending the same batch again succeeds and changes nothing |
| MemoryTheorems.AppendKeepsWellFormed | packages/events/src/events/memory-backend.ts:62-77 | Append keeps the record and byte limits |
| MemoryOutcomes.AppendOutcome | packages/events/src/events/memory-backend.ts:62-77 | Which of the four answers an append gives, decided by the batch's length, contradictions and the first occurrences of its new events; an accepted batch adds exactly these, in order, as they are |
| MemoryTheorems.ClaimSelects | packages/events/src/events/memory-backend.ts:79-83 | A claim picks exactly min(limit, 1000, number due) due records, none twice, none left behind that was available earlier; ClaimTakes says what being due means |
| MemoryTheorems.ClaimMovesChosen | packages/events/src/events/memory-backend.ts:84-89 | A successful claim applies the claim transition to exactly the picked records and changes nothing else |
| MemoryOutcomes.ClaimTakes | packages/events/src/events/memory-backend.ts:79-83 | A claim takes only records that have not expired and whose time or lease end has come, at most as many as asked for and 1000, and leaves such a record only when it took that many, all available no later |
| MemoryOutcomes.ClaimHandsOut | packages/events/src/events/memory-backend.ts:84-89 | The claimer is handed, in the order of selection, exactly what is stored from then on |
| Collections.StableSortStable | packages/events/src/events/memory-backend.ts:80-82 | Records available at the same time keep the order in which they are kept |
| MemoryTheorems.ClaimAllOrNothing | packages/events/src/events/memory-backend.ts:84-89 | The exact condition on the prefix sums of the growth under which a refused claim changes nothing |
| MemoryTheorems.ClaimAtomicUnlessShrinking | packages/events/src/events/memory-backend.ts:84-89 | When no claimed record shrinks, a refused claim changes nothing |
| ClaimSizes.OrdinaryClaimIsAtomic | packages/events/src/events/memory-backend.ts:84-89 | With sizes that follow the JSON text of what a claim changes: when the due records were last claimed under names no longer than the claimer's, as the manager's names never are, a refused claim changes nothing |
| ClaimSizes.ClaimStopsHalfWay | packages/events/src/events/memory-backend.ts:84-89 | With a longer name it may: two waiting records gain a lease and a third, whose lease has run out under a name of 256 characters, shrinks by more than one of them grows; the claim is refused for capacity and yet has moved the first record |
| MemorySpec.ReplayOutcome | packages/events/src/events/memory-backend.ts:113-113 | A replay that succeeds leaves each replayed event queued, unleased, unattempted and without inbox entries; one that fails has forgotten none |
| MemoryOutcomes.ReplaySelects | packages/events/src/events/memory-backend.ts:113-113 | A replay resets finished records that are wanted and no others, the earliest kept first, up to the maximum, then forgets exactly their inbox entries; it fails exactly when the next one does not fit |
| MemoryOutcomes.PurgeOutcome | packages/events/src/events/memory-backend.ts:107-109 | A purge removes only expired records that nobody holds under a running lease, the earliest kept first, up to the limit, and exactly their inbox entries |
| MemoryOutcomes.InboxOutcome | packages/events/src/events/memory-backend.ts:120-125 | An inbox call is refused exactly for names longer than 128 or 256 characters or for want of room; otherwise the entry alone decides and only it changes |
| MemorySpec.AccountPut | packages/events/src/events/memory-backend.ts:47-53 | The test on the counters decides exactly whether the record fits, and the counters stay exact |
| WorkerLimits.PermitsAreFair | packages/events/src/events/manager.ts:580-590 | In every interleaving at most the allowed number of runs hold a permit, runs wait only while all permits are out, and permits are granted strictly in order of arrival |
| WorkerLimits.ConsumerSlots.Enter | packages/events/src/events/manager.ts:584-585 | A run that proceeds holds one of fewer than maximum permits given out before, one that waits does so behind everyone who came earlier and only while maximum runs hold a permit; the object stays fair to all arrivals |
| WorkerLimits.ConsumerSlots.Leave | packages/events/src/events/manager.ts:586-590 | The freed permit goes to the first arrival that never had one, if there is one, and otherwise comes back; the object stays fair to all arrivals |
| WorkerLimits.SlotsNeverExceed | packages/events/src/events/manager.ts:883-906 | Although slots change while a claim is awaited, slots used plus what the pending claim may still bring never exceed the maximum |
| WorkerLimits.SlotsAreUsed | packages/events/src/events/manager.ts:885-904 | Slots are used as far as they go: with room and no claim pending the dispatcher claims for exactly that room, and takes every answer that is no larger |
| WorkerLimits.Dispatcher.Claim | packages/events/src/events/manager.ts:886-891 | One claim at a time, and what it asks for together with the records being processed is exactly the maximum |
| WorkerLimits.Dispatcher.Receive | packages/events/src/events/manager.ts:891-906 | Whatever settled meanwhile, an answer is accepted if and only if it has no more records than asked for and repeats no id; then exactly its records are processed in addition, never more than the maximum in all |
| WorkerLimits.AllDifferent | packages/events/src/events/manager.ts:894-900 | The loop with its set of ids finds a repeated id exactly when there is one, not comparing ids that cannot be read |
| Finalization.ShutdownIsOrdered | packages/events/src/events/manager.ts:508-527 | Across any number of attempts, timeouts and failures a step starts only after all earlier steps succeeded, never beside itself and never again after success; at most one runs; closed means all succeeded |
| Finalization.ShutdownResumes | packages/events/src/events/manager.ts:1157-1177 | Whatever earlier attempts left behind, one more attempt whose awaited steps succeed ends closed |
| Finalization.Finalizer.GoOn | packages/events/src/events/manager.ts:514-526 | Skips completed steps, joins a running one, starts the next one |
| Finalization.Finalizer.BeginShutdown | packages/events/src/events/manager.ts:1157-1164 | After a request the manager has closed with every step done, or awaits the only running step, which is the first one that has not succeeded; a request under way or after closing changes nothing; steps have started in order throughout the object's history |
| Finalization.Finalizer.OnSuccess | packages/events/src/events/manager.ts:519-526 | The step counts as done and never runs again; the attempt that awaited it closes or awaits the next step that has not succeeded; without one, nothing runs |
| Finalization.Finalizer.OnFailure | packages/events/src/events/manager.ts:519-526 | The step is not done, nothing runs and the manager is not closed, so the next request starts the step again; exactly the attempt that awaited it fails |
| FlushSafety.FlushCutoff | packages/errors/src/core/create-error-handler.ts:359-407 | A flush called at admission version v, also when it joins a generation or finds v already flushed: once its generation succeeds all handles before v have settled, its sink flush started having seen all their reports settled, and it waited for no report of a later handle |
| FlushSafety.EveryRunKeeps | packages/errors/src/core/create-error-handler.ts:268-314 | In every run of both layers: generations settle in order, unsettled ones hold later handles behind their barrier, and each flushing one is separated from later reports by its sink generation |
| FlushSafety.OpenBarrierIsBeforeCutoffs | packages/errors/src/core/create-error-handler.ts:189-197 | A handle whose barrier is open belongs to every generation that has not settled |
| FlushSafety.SinkTargetIsNow | packages/errors/src/core/report.ts:160-170 | Each way a runtime flush is answered names a generation whose target is every report so far |
| FlushSafety.FlushReadyMeans | packages/errors/src/core/create-error-handler.ts:381-382 | A generation that may run has all its handles settled and all earlier generations behind it |
| FlushServing.FlushAnswers | packages/errors/src/core/create-error-handler.ts:359-402 | How a flush call is answered in every reachable state, exactly: already done if a generation covering all admissions has succeeded; joined only to the last generation when it covers them; refused only while 64 generations have not settled; else a generation is created whose target is the current admission version and which accepts exactly the unsettled handles |
| FlushServing.SinkAnswers | packages/errors/src/core/report.ts:162-195 | The same for the report runtime and its reports |
| FlushServing.AdmissionAnswers | packages/errors/src/core/create-error-handler.ts:268-290 | A handle is refused only while 1000 handles are at work, and otherwise admitted behind the current generation |
| FlushServing.ReportAnswers | packages/errors/src/core/report.ts:210-221 | A wanted report behind an open barrier is skipped only while 1000 reports are at work |
| FlushServing.GenerationsRun | packages/errors/src/core/create-error-handler.ts:381-387 | A generation that may run relies on a runtime generation that covers every report so far, or fails while 64 of those have not settled |
| FlushServing.GenerationsEnd | packages/errors/src/core/create-error-handler.ts:387-400 | Generations end as the flush they rely on ends, or at their deadline, and are forgotten once settled |
| FlushProgress.WaitsForEarlier | packages/errors/src/core/create-error-handler.ts:291-313 | Each handle, report and generation waits only for things that began before it |
| FlushProgress.NoCircularWaiting | packages/errors/src/core/create-error-handler.ts:369-400 | No chain of waits in any reachable state comes back to where it started |
| FlushProgress.EverythingSettles | packages/errors/src/core/report.ts:153-200 | Once admissions stop, draining takes a bounded number of steps and cannot get stuck: while anything is unsettled, some step that is not a deadline helps |
| ErrorsRuntime.Runtime.Handle | packages/errors/src/core/create-error-handler.ts:268-313 | Admission by counters and sets is the admission step of the protocol, and hands out the current generation as barrier |
| ErrorsRuntime.Runtime.Flush | packages/errors/src/core/create-error-handler.ts:359-402 | Version counters alone decide between already, join, refuse and create as the protocol does |
| ErrorsRuntime.Runtime.FlushReports | packages/errors/src/core/report.ts:153-195 | The same for the report runtime |
| ErrorsRuntime.Runtime.Report | packages/errors/src/core/report.ts:210-240 | A report is counted and owned as in the protocol, released at once when its payload cannot be copied, or refused at capacity without being counted |
| ErrorsRuntime.Runtime.ReleaseReport | packages/errors/src/core/report.ts:222-244 | A report's physical work has ended and it is owned no longer, as in the protocol |
| ErrorsRuntime.Runtime.MayRun | packages/errors/src/core/create-error-handler.ts:381-382 | A generation may run exactly when its predecessor has settled and its accepted handles are gone |
| ErrorsRuntime.Runtime.RunGeneration | packages/errors/src/core/create-error-handler.ts:381-387 | The body of a generation, up to its call of the runtime's flush |
| ErrorsRuntime.Runtime.FinishGeneration | packages/errors/src/core/create-error-handler.ts:387-391 | Once the runtime generation it waits for has settled, completion raises the completed version to the generation's target, never lowering it, and the object stays at the state its history leads to |
| ErrorsRuntime.Runtime.TimeOutGeneration | packages/errors/src/core/create-error-handler.ts:387-391 | A generation whose call of the runtime's flush runs into its deadline fails, without touching the runtime |
| ErrorsRuntime.Runtime.MayFlushSink | packages/errors/src/core/report.ts:175-178 | The sets decide readiness of a runtime generation exactly as the whole history does: its predecessor has settled and the reports accepted for it are gone |
| ErrorsRuntime.Runtime.EndSinkFlush | packages/errors/src/core/report.ts:179-191 | Success of the sink's flush raises the runtime's completed version to the target, never lowering it, as in the protocol |
| ErrorsRuntime.Runtime.RetireSinkFlush | packages/errors/src/core/report.ts:182-184 | A settled runtime generation is forgotten unless a later one took its place |
| DedupTheorems.SuppressionIsJustified | packages/errors/src/core/deduplication-cache.ts:168-290 | Whatever is evicted, cleared or interleaved and however the clock jumps, an answer suppresses only a key that an earlier answer reported less than a time to live before |
| DedupAgreement.AgreesWithPlainMap | packages/errors/src/core/deduplication-cache.ts:202-290 | While only sweeps remove entries and the clock does not go back, every answer is that of a plain map of last reports, whatever the number of keys |
| DedupExact.AnswersExactly | packages/errors/src/core/deduplication-cache.ts:202-290 | For every run, with no condition on clock, size or clearing: an operation suppresses if and only if its key was reported, the last report is within the time to live of the time the operation read, and nothing removed the key's entry between its last answer and that read |
| DedupForgets.EvictionForgets | packages/errors/src/core/base-cache.ts:88-101 | Evictions do matter: with one entry, a second key makes the first one be reported again at once |
| DedupForgets.ClockJumpForgets | packages/errors/src/core/deduplication-cache.ts:83-91 | So does the clock: a sweep before it goes back makes a key be reported again |
| DedupTheorems.CacheStaysBounded | packages/errors/src/core/base-cache.ts:168-173 | The cache never exceeds its size, and the pending counters are exact and within their limits |
| DedupTheorems.EvictsOldest | packages/errors/src/core/base-cache.ts:88-101 | Eviction removes a tenth of the entries and at least one, each no more recently used than any entry it keeps; EntriesAreAnswers says what use is |
| DedupUse.EntriesAreAnswers | packages/errors/src/core/deduplication-cache.ts:222-290 | In every run each entry is told by the answers on its key: last use is the last answer, time the last report, count the answers since, and the score falls linearly from the count to nothing over the time to live |
| DedupUse.EvictsLeastRecentlyAnswered | packages/errors/src/core/base-cache.ts:88-101 | In every run whatever an eviction removes was answered last no later than whatever it keeps, and it happens only when the cache is full and the operation's key has no entry |
| DedupUse.ThrottlesExactly | packages/errors/src/core/deduplication-cache.ts:262-290 | A key is to be throttled exactly when an unthrottled operation suppresses it and its answers since the last report reach the threshold |
| DedupUse.PendingIsOpen | packages/errors/src/core/deduplication-cache.ts:174-200 | A key has as many calls pending as were queued and have not ended, calls being queued exactly while 1000 and 64 are not reached and the input is well formed |
| DedupUse.SweepsExactly | packages/errors/src/core/deduplication-cache.ts:83-91 | A sweep keeps exactly the entries whose last report lies within the time to live, and frees the other keys from throttling |
| ErrorDeduplicationCache.Cache.EvictLRU | packages/errors/src/core/base-cache.ts:88-101 | The removal loop drops exactly those entries and their throttle marks |
| ErrorDeduplicationCache.Cache.ClearExpired | packages/errors/src/core/deduplication-cache.ts:83-91 | The sweep drops exactly the entries outside their time to live |
| ErrorDeduplicationCache.Cache.SetEntry | packages/errors/src/core/base-cache.ts:168-173 | A new entry evicts first when the cache is full, a known key never does |
| ErrorDeduplicationCache.Cache.Ask | packages/errors/src/core/deduplication-cache.ts:174-183 | A call is queued unless its input or a pending limit refuses it |
| ErrorDeduplicationCache.Cache.Start | packages/errors/src/core/deduplication-cache.ts:208-241 | The first stretch of an operation, up to the read it waits for |
| ErrorDeduplicationCache.Cache.Resume | packages/errors/src/core/deduplication-cache.ts:214-290 | Every later stretch of an operation, including the end that releases its counters |
| Utf16.ByteSize | packages/core/src/utils/byte-size.ts:17-48 | The counting loop returns the length of the UTF-8 form of any string, unpaired surrogates counting as U+FFFD |
| Utf16.SplitRoundTrip | packages/core/src/utils/byte-size.ts:29-42 | Splitting into code points loses nothing |
| Utf16.Utf8RoundTrip | packages/core/src/utils/byte-size.ts:17-48 | The UTF-8 form decodes to the code points again, so it is the one of section 3 of RFC 3629 |
| StringHash.ReverseSimpleHash | packages/core/src/utils/compute-error-key.ts:54-72 | For every string the backward scan returns the base 36 text of the 32-bit hash of the string spelled in reverse code point order, at most six characters from which the number can be read off |
| StringHash.SimpleHash | packages/core/src/utils/hashing/simple-hash.ts:18-33 | The forward loop returns the base 36 text of the 32-bit hash of the string, and refuses exactly the inputs that are too long |
| StringHash.Base36RoundTrip | packages/core/src/utils/hashing/simple-hash.ts:32-32 | The base 36 text names its number, without leading zeros |
| StringHash.KeysAgreeExactly | packages/core/src/utils/compute-error-key.ts:77-81 | Two inputs share an error key if and only if they agree on both hashes and on their length: the dots keep the parts apart |
| StringHash.ErrorKeyHash | packages/core/src/utils/compute-error-key.ts:77-81 | The key is made of the two hashes of the input and its length, for every input that is not too long |
| StringHash.LastCodePoint | packages/core/src/utils/compute-error-key.ts:56-66 | Pairing surrogates from the back agrees with splitting from the front, for every string |
| StringHash.AppendHashIs31 | packages/core/src/utils/compute-error-key.ts:49-51 | Wrapping to 32 bits after every step is wrapping the base 31 polynomial once |
| ProfileJson.StringifyProfile | packages/profiling/src/inspector-profiler.ts:61-134 | Returns the JSON text exactly when depth, entries and UTF-8 length are within the limits and every container passes the early key test; then it is the whole text, and reading it gives the value back |
| ProfileJson.EarlyTestIsExact | packages/profiling/src/inspector-profiler.ts:101-101 | For plain data the early key test refuses nothing that would have fitted |
| ProfileJson.EarlyTestRefusesAbsent | packages/profiling/src/inspector-profiler.ts:101-101 | With absent members it does: any object of as many differently named, absent members as bytes are allowed has the text of the empty object and is refused |
| JsonReader.TextRoundTrip | packages/profiling/src/inspector-profiler.ts:86-125 | A reader written apart reads the text of any value back, and nothing is left over: escapes, literals, separators and order are right; absent elements and numbers that are not finite are null, absent members and hidden keys are gone |
| JsonReader.ReadsValue | packages/profiling/src/inspector-profiler.ts:86-125 | The same whatever follows the text |
| JsonParts.ModestExactly | packages/profiling/src/inspector-profiler.ts:98-106 | Depth and key limits hold of a value exactly when they hold of every container at every path that is shown |
| JsonParts.EntriesAreKeys | packages/profiling/src/inspector-profiler.ts:100-101 | The entries counted are the own keys of all parts that are shown |
| ProfileWriter.Writer.Visit | packages/profiling/src/inspector-profiler.ts:86-125 | Writing a value adds its text, its bytes and its entries, or fails only because one of the limits is exceeded |
| ProfileWriter.Writer.WriteQuoted | packages/profiling/src/inspector-profiler.ts:71-85 | The size counted before quoting is the UTF-8 length of the quoted string, so it succeeds exactly when that fits |
| ProfileWriter.Writer.QuoteFits | packages/profiling/src/inspector-profiler.ts:72-83 | The loop adds up what escaping adds |
| ProfileWriter.Writer.Write | packages/profiling/src/inspector-profiler.ts:65-70 | The counter is the UTF-8 length of everything put out |
| JsonText.QuoteSize | packages/profiling/src/inspector-profiler.ts:72-84 | The length of a quoted string is its own, two quotes and what the escapes of section 25.5.2 of ECMA-262 add |
| SnapshotJson.Copy | packages/events/src/events/manager.ts:114-168 | The copy is the payload and comes back exactly when the payload is acceptable, has at most 10000 nodes and its JSON text fits |
| JsonParts.AcceptableExactly | packages/events/src/events/manager.ts:124-166 | A payload is acceptable exactly when at every path inside it there is plain data of allowed length, number of keys and key length, and no path is too long |
| JsonParts.NodesAreParts | packages/events/src/events/manager.ts:124-128 | The nodes counted are all parts of the payload |
| SnapshotJson.Snapshot.Visit | packages/events/src/events/manager.ts:124-166 | The byte counter grows by exactly the length of the JSON text, which is never built |
| StartupBatches.StartupExecutionBatches | packages/lifecycle/src/core/hook-manager.ts:228-265 | The loops compute the closed batches and the rounds of each segment |
| StartupBatches.FlushSegment | packages/lifecycle/src/core/hook-manager.ts:233-255 | One batch for each round, ending exactly when no lane has a hook left |
| StartupBatches.RoundsAreLongest | packages/lifecycle/src/core/hook-manager.ts:245-252 | A segment takes as many batches as its longest lane has hooks, and at least one |
| StartupSchedule.ScheduleIsEarliest | packages/lifecycle/src/core/hook-manager.ts:228-265 | Each batch holds exactly the hooks of its slot; hooks that exclude each other keep their order in different batches; and no schedule with that property puts any hook into an earlier batch |
| StartupSchedule.BatchesArePermutation | packages/lifecycle/src/core/hook-manager.ts:228-265 | The batches one after the other are a permutation of the hooks |
| StartupSchedule.SlotsAreLegal | packages/lifecycle/src/core/hook-manager.ts:256-262 | A hook that runs alone separates everything before it from everything after it, and hooks of one group keep their order |
| StartupSchedule.NoHookEarlier | packages/lifecycle/src/core/hook-manager.ts:244-252 | Every hook is as early as any legal schedule can put it |
| StartupSchedule.NoEmptyBatch | packages/lifecycle/src/core/hook-manager.ts:250-250 | No batch is empty |
| HealthTheorems.ExactlyOneVerdict | packages/lifecycle/src/core/health-manager.ts:237-276 | Whether a run finishes or times out, with no drain begun each check registered at its start and at its end has exactly one verdict from it, and never gets another |
| HealthTheorems.SingleExecution | packages/lifecycle/src/core/health-manager.ts:278-297 | No check has two physical executions at once |
| HealthTheorems.CountersAreExact | packages/lifecycle/src/core/health-manager.ts:303-328 | The failure count, the critical mark and the health of a check are those of its verdicts since the last healthy one |
| HealthTheorems.LateAnswersChangeNothing | packages/lifecycle/src/core/health-manager.ts:302-312 | After a run has timed out its checks' answers change neither a check nor the health |
| HealthTheorems.UnhealthyExactly | packages/lifecycle/src/core/health-manager.ts:191-207 | Unhealthy if and only if not closed and a critical degradation stands or a registered required check failed critically or three times since it was last healthy |
| HealthExact.HealthExactly | packages/lifecycle/src/core/health-manager.ts:191-207 | All four answers, told by the steps alone: which degradations were recorded and not cleared, which checks registered and not unregistered, and what their verdicts were |
| HealthExact.RegisteredIsHistory | packages/lifecycle/src/core/health-manager.ts:102-135 | Exactly the checks registered and not unregistered since are registered; a registration is refused only after a drain or at 128 checks |
| HealthTheorems.EveryRunSound | packages/lifecycle/src/core/health-manager.ts:237-330 | The invariant behind these holds after every sequence of steps |
| HealthManager.Manager.TimeOut | packages/lifecycle/src/core/health-manager.ts:247-257 | Exactly the checks that are pending and still registered get one more verdict, a failure, and the others stay as they are, after which each check registered throughout has exactly one verdict from the run |
| HealthManager.Manager.Take | packages/lifecycle/src/core/health-manager.ts:265-289 | A worker ends, or its check has an execution that has not settled and gets that as its one verdict of the run, or an execution starts and no other one of the check is unsettled |
| HealthManager.Manager.Deliver | packages/lifecycle/src/core/health-manager.ts:299-318 | In a run that still counts the answer is the check's only verdict from it; after a timeout it changes neither a check nor the health |
| HealthManager.Manager.Settle | packages/lifecycle/src/core/health-manager.ts:290-297 | Once an execution settles, even after its run, nothing of its check is at work |
| HealthManager.Manager.Finish | packages/lifecycle/src/core/health-manager.ts:261-276 | A run that ends without timing out leaves each check registered throughout with exactly one verdict from it |
| HealthManager.Manager.RunOnce | packages/lifecycle/src/core/health-manager.ts:237-246 | A run that starts has every registered check pending and none with a verdict from it; while one is in progress, or admissions have stopped, nothing happens |
| HealthManager.Manager.GetHealth | packages/lifecycle/src/core/health-manager.ts:191-207 | The two passes with early exits compute the health of the state |
| Aggregation.SamplesAreConserved | packages/sdk/src/performance-browser.ts:472-516 | However deeply handing out buckets brings in more samples: no accepted sample is lost, repeated or moved to another key, the buckets never exceed maxKeys, and each bucket's mean is the mean of its samples and lies between its extremes |
| Aggregation.UpdatedIsExact | packages/sdk/src/performance-browser.ts:512-515 | The running update keeps count, sum, minimum and maximum exact |
| Aggregation.MeanIsMean | packages/sdk/src/performance-browser.ts:512-515 | The running mean is the mean, between minimum and maximum |
| Aggregation.EmitKeeps | packages/sdk/src/performance-browser.ts:472-488 | While buckets are handed out, those not yet handed out still count |
| AggregationOutcomes.FlushHandsOut | packages/sdk/src/performance-browser.ts:481-488 | A flush hands out every bucket held; if nothing happens meanwhile, these in order and no others, and nothing is held afterwards |
| AggregationOutcomes.SampleOutcome | packages/sdk/src/performance-browser.ts:489-516 | A sample is ignored exactly when it is negative or not finite; otherwise it joins the bucket of its key, opens one while there is room, and only for want of room is everything handed out |
| MetricAggregator.Aggregator.RecordEvent | packages/sdk/src/performance-browser.ts:489-516 | A sample is ignored, joins its bucket, opens one, or drains a full map and reserves its own before foreign code runs |
| MetricAggregator.Aggregator.FlushBuckets | packages/sdk/src/performance-browser.ts:481-488 | The map is empty before the first bucket is handed out |
| MetricAggregator.Aggregator.EmitBuckets | packages/sdk/src/performance-browser.ts:472-480 | The loop over the buckets, with re-entrant samples after each |

## Left out

- Atomicity: each stretch of code between two awaits is one step; a verdict of a health check and its removal from the
  pending set, a handler generation and the runtime flush it calls, and the end of a deduplication operation and the
  release of its counters, are separated in the source only by microtasks and are one step here.
- Deadlines, clocks, random owner names and lost answers are arguments of the steps; JavaScript timers and promises are not
  modelled.
- DeliveryProtocol: `claimDue` appears there as claims of single records; its batch form is in MemorySpec. The manager
  without an inbox, destination lookup, poison records' messages and telemetry are not modelled, and errors of backend
  calls are only that the answer is lost.
- Claims are not bounded by maxAttempts in the source and not here; only successful retries are.
- MemorySpec: the sizes of stored JSON texts are parameters, so the text of a record is not modelled (`ClaimSizes` asks of
  them how the text of the members a claim changes contributes); replay's filter is a predicate.
- The Postgres backend's statements are one guarded row update each; SQL text, connections, schema checks and
  `appendTransactional` are not modelled, and timestamps are integers.
- ErrorsFlush: the running state only; draining and closed states, the pending request limits, the re-entry shortcut of
  `flush`, deduplication before reporting and reporters themselves are not modelled.
- DedupCache: the external cache port, `destroy`, `reset` and escalation metadata are not modelled, `clear` is; a tenth of
  the entries is integer division, which is what the source's product with 0.1 gives for the sizes it allows.
- DedupCache scores are real numbers, not floating point; they decide nothing.
- JsonText: values are trees, so cycles, proxies, accessors, `toJSON` and shared references are not modelled; the decimal
  text of a number is a parameter, made of the characters such a text can have.
- SnapshotJson: which of the two error codes a refusal carries is not modelled.
- HealthManager: registration names, result validation, failure codes, check times and the drain's waiting are not modelled;
  the callbacks do not throw.
- Registration, disposers and shutdown tiers of the hook manager are not modelled.
- Aggregation is over real numbers; the four durations recorded for a bucket count as one handing out, and the key text
  stands for name and labels.
- Packages other than those cited, and the process-wide profiler ownership, are not modelled.
