# Slate: leases, payloads, redaction, migrations and grants

A Dafny model of the parts of Slate whose correctness is an argument over whole
runs rather than over one function, with proofs. `dafny verify dfyconfig.toml`
checks the whole project.

| part | files | in short |
|---|---|---|
| job leases | `JobTable`, `LeaseProtocol`, `LeaseInvariants`, `LeaseSafety`, `LeaseProgress`, `LeaseTiming`, `LeaseOutcomes`, `HandlerConcurrency`, `LockRefinement`, `Worker`, `WorkerOutcomes`, `WorkerConfiguration` | any number of workers with unrelated clocks over one table, as a state machine; the two-statement transactions refine it; the worker itself is a class proved to take its steps |
| enqueuing | `JsonText`, `CanonicalPayload`, `PayloadSize`, `JobEnqueue`, `EnqueueOutcomes` | canonical JSON text decides equality of payloads, so a transactional insert is idempotent |
| listing | `JobListing`, `ListingRequests`, `ListingAtRest`, `CursorCodec` | keyset pagination and its cursors |
| redaction | `LogValues`, `ErrorSerialization`, `Redaction`, `DefaultKeys`, `KeySensitivity`, `RedactionSafety`, `RedactionLeaves`, `HiddenValues`, `RedactionInterference` | a bounded walk of a possibly cyclic heap, and exactly when sensitive values influence it |
| migrations | `MigrationRunner`, `MigrationRace` | one pass as a loop; any number of runners, statement by statement, with crashes |
| grants | `RoleGrants`, `GrantClosure` | what members hold, and what any run of role assignments can hand out |

How the model takes things from outside: clock readings, lease tokens, generated
ids, jitter draws, handler outcomes, database failures and the member order a
`jsonb` column returns are inputs. Lease tokens and generated ids are fresh; the
runner is the only writer of the lease and attempt columns
(`packages/database/src/types.ts:142-143`). Times are integers in milliseconds,
or in microseconds where the listing needs them. A worker or a migration runner
that crashes is one that takes no further step.

Where the code and its comments or documents disagree, the model follows the
code, and a lemma shows the difference:

- `packages/jobs/src/worker.ts:35` asks for a renewal interval below the lease;
  the check at line 108 accepts an equal one. `LeaseTiming.AcceptedConfigKeepsLease`
  says exactly when a lease survives, `LeaseTiming.EqualIntervalsAreAccepted` shows
  that it then does not.
- `jobs.failed` is published even when the fenced update behind it matched no row
  (`packages/jobs/src/worker.ts:283-284`, `295-296`, `370-371`).
  `LeaseProgress.FailureEventBackedExactlyWhenFenced` and
  `LeaseProgress.FailurePublishedForPendingJob`.
- Cursors carry milliseconds, `created_at` is stored in microseconds by default
  (`packages/database/src/migrations/0006_background_jobs.sql:35`), so a page can
  begin with a row already listed, though none is ever skipped.
  `JobListing.NextPageContinuesExactly`, `ListingAtRest.NoRepeatsExactly`,
  `ListingAtRest.EndsExactly` and `ListingAtRest.LimitOneStuck`.
- "The transaction rolls back, nothing is applied" (`packages/database/src/runner.ts:48-49`)
  holds for the migration that fails, not for pending ones listed before it.
  `MigrationRunner.ThrowLeavesEarlierApplied`, `MigrationRunner.DriftLeavesDatabaseExactly`
  and `MigrationRunner.FailureAfterAnApply`.
- Permissions "read fresh at the moment of the write"
  (`apps/admin/src/server/admin/users.ts:4-7`): the role's keys are, the actor's are
  those its session was hydrated with. `GrantClosure.GrantWithinCurrentExactly` and
  `GrantClosure.StaleReadingGrants`.
- "The record is redacted on the way to the sink" (`packages/observability/src/redact.ts:4-8`)
  does not hold of an error whose cause is no error: `serializeError` turns an object
  cause into its JSON text before any key is looked at
  (`packages/observability/src/errors.ts:44-49`, `81`), so a password in it is shown.
  `RedactionInterference.HidesExactly` says exactly when hidden values show,
  `RedactionInterference.CauseShowsPassword` gives the input.
- A renewal's result is ignored (`packages/jobs/src/worker.ts:309`), so a handler goes on
  without its lease, and the polling loop does not count running jobs
  (`packages/jobs/src/worker.ts:516`), so `concurrency` does not bound them.
  `HandlerConcurrency.TwoHandlersAtOnce` and `HandlerConcurrency.SlowHandlersPileUp`.
- A custom key fragment that matches the redactor's own `[truncated]` key leaves that
  summary unreplaced. `RedactionSafety.CoversExactly`.

## Model

| member | source | states |
|---|---|---|
| `LeaseInvariants.StepKeepsCore` | packages/jobs/src/worker.ts:211-447 | every step of any worker keeps the row, claim and history invariants: token and expiry exactly while running, a running row's token belongs to its latest claim with `attempt == row.attempts`, `attempts < max_attempts` while pending |
| `LeaseInvariants.ChangeKeepsRow` | packages/jobs/src/worker.ts:230-237 | whatever a step writes to a row agrees with the job's extended history of takes and releases |
| `LeaseInvariants.HolderIsLatest` | packages/jobs/src/worker.ts:277 | the token on a running row identifies one claim, of this job, whose local attempt number is the row's |
| `LeaseInvariants.StepKeepsEvents` | packages/jobs/src/worker.ts:335-371 | every step keeps: each announced event other than a worker's `jobs.failed` stands for one commit, and only once |
| `LeaseInvariants.RunKeepsInv` | packages/jobs/src/worker.ts:211-456 | the invariant holds over every run, for any number of workers, clocks and crashes |
| `LeaseSafety.OnlyLatestClaimActs` | packages/jobs/src/worker.ts:243-263 | fencing: a step changes an existing row only as a claim of a pending row, a recovery of an expired lease, or for the row's latest claim under an unexpired lease; and it changes no other row |
| `LeaseSafety.LosingTheLeaseSpends` | packages/jobs/src/worker.ts:408-447 | a claim that loses its lease by recovery or release has its token on no row |
| `LeaseSafety.SpentTokenIsDead` | packages/jobs/src/worker.ts:248-271 | such a token never changes any row again in any continuation, and stays off every row |
| `LeaseSafety.TerminalForever` | packages/jobs/src/worker.ts:377-392 | a succeeded or failed row never changes again, over every run |
| `LeaseSafety.StepsStayInTenant` | packages/jobs/src/worker.ts:216-263 | no worker of one tenant changes a row of another |
| `LeaseSafety.StartsAreClaims` | packages/jobs/src/worker.ts:300-331 | the handler starts of a run for one job are counted by its started claims |
| `LeaseSafety.AttemptBudget` | packages/jobs/src/worker.ts:211-239 | in every run handler starts <= attempts <= max_attempts <= 10, and a pending row has an attempt left, although no claim tests it |
| `LeaseSafety.HistoryConservation` | packages/jobs/src/worker.ts:354-439 | attempts == retries + recoveries to pending + (0 if pending, else 1); acknowledgements and failures are 1 exactly in the matching terminal status; token, expiry and finished_at are set exactly when the status says so |
| `LeaseSafety.EventSoundness` | packages/jobs/src/worker.ts:335-455 | published `jobs.succeeded`, `jobs.retry_scheduled` and recovery `jobs.failed` events map one-to-one into commits of the same job and attempt; one `jobs.succeeded` at most per job |
| `LeaseOutcomes.EnqueueWrites` | packages/jobs/src/enqueue.ts:127-138 | every column of a new job's row |
| `LeaseOutcomes.ClaimWrites` | packages/jobs/src/worker.ts:216-237 | a claim is possible exactly for a pending job of the tenant that is due at the reading, and writes status, attempts, token and expiry and no other column |
| `LeaseOutcomes.RecoveryWrites` | packages/jobs/src/worker.ts:418-439 | a recovery is possible exactly for a running job whose lease has run out at the reading; every column it writes, failed exactly with the budget spent |
| `LeaseOutcomes.UpdateWrites` | packages/jobs/src/worker.ts:248-271 | a worker's update writes the columns of its step, error code and schedule included, exactly when its fence matches, and nothing otherwise |
| `LeaseOutcomes.LiveOrRecoverable` | packages/jobs/src/worker.ts:260 | at every reading of a clock a running job's lease is either live for its holder or recoverable, never both or neither |
| `LeaseOutcomes.NotClaimedEarly` | packages/jobs/src/worker.ts:223 | a job nobody has claimed is not first claimed before its scheduled time, in any run |
| `LeaseOutcomes.StepKeepsEnds` | packages/jobs/src/worker.ts:354-371 | every step keeps: a retry follows a retryable error with an attempt left; a worker's failure follows a handler that never started, a non-retryable error or the last attempt; a recovery fails the last attempt only |
| `LeaseOutcomes.NonRetryableNeverRetried` | packages/jobs/src/worker.ts:354 | over every run an attempt whose handler threw a non-retryable error is never given back as a retry |
| `LeaseOutcomes.EarlyFailureHasReason` | packages/jobs/src/worker.ts:282-298 | over every run a job that failed with attempts left failed on such an error, or without its handler starting |
| `LeaseOutcomes.RunRecordsErrors` | packages/jobs/src/worker.ts:357-439 | over every run a failed or requeued job carries an error code, `lease_lost` after a recovery |
| `LeaseProgress.StepWork` | packages/jobs/src/worker.ts:211-447 | each claim, retry, terminal step and recovery strictly lowers the remaining work, a renewal leaves it |
| `LeaseProgress.BoundedWork` | packages/jobs/src/worker.ts:211-447 | a run changes job ownership at most as often as its initial work plus two per attempt granted by enqueues |
| `LeaseProgress.BoundedOvertaking` | packages/jobs/src/worker.ts:221-226 | while a due job waits on a shared clock, only jobs ahead of it at the start overtake it, each at most once |
| `LeaseProgress.FailureEventBackedExactlyWhenFenced` | packages/jobs/src/worker.ts:368-372 | a worker's `jobs.failed` stands for a commit exactly when its fenced update matched |
| `LeaseProgress.FailurePublishedForPendingJob` | packages/jobs/src/worker.ts:292-297 | counterexample: a run after which `jobs.failed` was published for a job that is pending with attempts left |
| `HandlerConcurrency.LostRenewalIsIgnored` | packages/jobs/src/worker.ts:302-311 | a renewal that lost its lease changes nothing, its worker's claim included: the handler goes on |
| `HandlerConcurrency.TwoHandlersAtOnce` | packages/jobs/src/worker.ts:309 | counterexample: a run after which two claims of one job are both in their handlers, the first without its lease |
| `HandlerConcurrency.CycleKeepsBoundExactly` | packages/jobs/src/worker.ts:513-523 | `concurrency` bounds the jobs in flight after a polling cycle exactly when those left over and those it can claim fit |
| `HandlerConcurrency.SlowHandlersPileUp` | packages/jobs/src/worker.ts:513-528 | while no handler ends, n cycles bring min(due jobs, n * concurrency) jobs into flight |
| `LeaseTiming.RunKeepsLease` | packages/jobs/src/worker.ts:266-311 | while every clock reading is within `gap` of the reading the holder last counted its lease from, and `gap` is below the lease, the lease and its holder survive every run; a renewal reads the clock for the expiry and again for the fence |
| `LeaseTiming.LeaseSurvivesExactlyBelow` | packages/jobs/src/worker.ts:302-340 | the holder can still acknowledge after every punctual run if and only if `gap < leaseMs` |
| `LeaseTiming.AcceptedConfigKeepsLease` | packages/jobs/src/worker.ts:98-115 | for an accepted configuration the lease survives exactly when renewal interval plus slack is below the lease; with equal intervals it never does |
| `LeaseTiming.EqualIntervalsAreAccepted` | packages/jobs/src/worker.ts:98-115 | counterexample to line 35: equal intervals pass the check and the lease does not survive |
| `LeaseTiming.DefaultsKeepLease` | packages/jobs/src/worker.ts:49-58 | the defaults are accepted and keep leases exactly while each cycle is less than 40 seconds late |
| `WorkerConfiguration.AcceptedExactly` | packages/jobs/src/worker.ts:98-115 | a configuration is accepted exactly within the bounds of every field |
| `WorkerConfiguration.DelayIs` | packages/jobs/src/worker.ts:123-126 | the delay is the capped exponential plus the whole part of the draw's share of the smaller of exponential and base, capped |
| `WorkerConfiguration.DelaysReachedExactly` | packages/jobs/src/worker.ts:118-127 | the delays that some draw reaches are exactly those of the jitter's range, cut at the cap |
| `WorkerConfiguration.DelayRange` | packages/jobs/src/worker.ts:118-127 | the delay lies between the capped exponential and the cap, and is at most the next exponential step |
| `WorkerConfiguration.DelayMonotone` | packages/jobs/src/worker.ts:118-127 | for any two jitter draws a later attempt waits at least as long |
| `WorkerConfiguration.TotalDelayBound` | packages/jobs/src/worker.ts:118-127 | k retries wait at most min(k*cap, base*(2^k - 1 + k)) in all |
| `LockRefinement.ActionRefines` | packages/jobs/src/worker.ts:215-239 | each action of the two-statement transactions is a stutter or the atomic steps it stands for |
| `LockRefinement.ActionKeepsLocks` | packages/jobs/src/worker.ts:411-447 | each action keeps: open transactions hold disjoint row locks and what they read is current |
| `LockRefinement.RecoveryRefines` | packages/jobs/src/worker.ts:427-446 | committing a recovery of n rows is n atomic recoveries in select order |
| `LockRefinement.InterleavingRefines` | packages/jobs/src/worker.ts:215-447 | every interleaving of open claims, recoveries, aborts and fenced statements commits what some run of the atomic protocol does |
| `LockRefinement.NoDoubleSelect` | packages/jobs/src/worker.ts:221-226 | no two concurrent transactions select the same row |
| `Worker.SelectionExists` | packages/jobs/src/worker.ts:220-228 | the claim's select has exactly one answer for any table and any locks |
| `Worker.OthersKeepClaim` | packages/jobs/src/worker.ts:274-277 | what other workers do never changes a worker's own copy of its claim |
| `Worker.JobDatabase.UpdateWhileLeased` | packages/jobs/src/worker.ts:248-263 | the fenced update: the new table and the boolean, as the protocol step |
| `Worker.JobDatabase.Claim` | packages/jobs/src/worker.ts:211-240 | the claim writes attempts + 1, token and expiry to the selected row and returns the row as selected, or changes nothing |
| `Worker.JobDatabase.RecoverRow` | packages/jobs/src/worker.ts:428-445 | one recovered row: pending, or failed when exhausted, and the event it owes |
| `Worker.JobWorker.TransitionWhileLeased` | packages/jobs/src/worker.ts:248-263 | a worker's update after arbitrary interference: the step it makes, and whether its lease won |
| `Worker.JobWorker.RenewWhileHandling` | packages/jobs/src/worker.ts:302-311 | the renewal loop makes exactly one renewal per pair of clock readings, in order, whatever became of the ones before |
| `Worker.JobWorker.Catch` | packages/jobs/src/worker.ts:349-373 | the catch branch: reschedule with backoff while an attempt is left and the error is retryable, terminal failure otherwise; `won` is whether that update's fence matched, and a retry is announced only then, a failure in any case |
| `Worker.JobWorker.Settle` | packages/jobs/src/worker.ts:330-373 | acknowledge and announce when the fence matched, or fall into the catch branch, also when only the acknowledgement's reply is lost |
| `Worker.JobWorker.ExecuteClaimed` | packages/jobs/src/worker.ts:274-374 | interleaved with any steps of others, the steps under the claim's token are exactly its script; `won` is whether the fence of its last update matched in the state that update met; the publisher is called for that update: unconditionally for a failure, only if it won otherwise |
| `WorkerOutcomes.RetryExactly` | packages/jobs/src/worker.ts:330-373 | the last update of an execution is a retry exactly after an error that was not non-retryable with an attempt left, an acknowledgement exactly after a handler that returned, a failure in every other case |
| `WorkerOutcomes.LastUpdateCarries` | packages/jobs/src/worker.ts:353-363 | the error code, clock reading, backoff of this attempt and fence reading of that update |
| `WorkerOutcomes.HandlerStartsExactly` | packages/jobs/src/worker.ts:282-298 | a handler starts exactly for a known type and an accepted payload |
| `WorkerOutcomes.RenewalAt` | packages/jobs/src/worker.ts:266-271 | the k-th renewal extends the lease by the configured duration from its own reading |
| `WorkerOutcomes.AnnouncedExactly` | packages/jobs/src/worker.ts:341-371 | what the publisher is told: a success or a retry if the update won, a failure in any case, for the claim's job and attempt |
| `WorkerOutcomes.RecoveryTakesSoonest` | packages/jobs/src/worker.ts:418-425 | a recovery takes as many expired, unlocked rows as the limit allows, and none left out had run out before one taken |
| `WorkerOutcomes.RecoverySelectionExists` | packages/jobs/src/worker.ts:418-425 | there is always such a selection |
| `Worker.JobWorker.RecoverRows` | packages/jobs/src/worker.ts:411-447 | the recovery transaction changes exactly the selected rows, each to its recovered columns |
| `Worker.JobWorker.RecoverExpiredLeases` | packages/jobs/src/worker.ts:408-456 | recovery, then its events published after the commit in row order |
| `Worker.JobWorker.RunOnce` | packages/jobs/src/worker.ts:459-471 | one cycle: the row claimed is the select's answer on the table as it then is; the steps under the new token are nothing or the whole script of that claim; the publisher gets the recovery's events and then the execution's; nothing happens once stopped |
| `Worker.QuietVerdict` | packages/jobs/src/worker.ts:254-262 | the fence result a worker reports is that of its own last update: steps of others do not count |
| `Worker.LoggedEventsAreCommitted` | packages/jobs/src/worker.ts:335-367 | every success or retry a worker has published, and every failure published by recovery, stands for a commit and is published once |
| `JsonText.EscapeRoundTrip` | packages/jobs/src/registry.ts:133 | string escaping, with surrogate pairs and lone surrogates, is undone by the parser |
| `JsonText.ValueRoundTrip` | packages/jobs/src/registry.ts:133 | a value's text, followed by anything that cannot continue it, parses to the value and stops there |
| `JsonText.PrintRoundTrip` | packages/jobs/src/registry.ts:133 | the JSON text of a value determines the value |
| `PayloadSize.EscapesWritten` | packages/jobs/src/registry.ts:133 | the escapes of RFC 8259, section 7, that are written |
| `PayloadSize.SampleText` | packages/jobs/src/registry.ts:133 | the text of a value with every kind of structure |
| `PayloadSize.PrintPairs` | packages/jobs/src/registry.ts:142 | a printed value has surrogates in pairs only, whatever its strings hold |
| `PayloadSize.AcceptedUpToLimitExactly` | packages/jobs/src/registry.ts:127-148 | a payload is accepted exactly when its canonical text takes at most 16384 bytes of UTF-8; otherwise that size is reported |
| `CanonicalPayload.LessExactly` | packages/jobs/src/registry.ts:154-156 | the sort's comparison is the order by UTF-16 code units |
| `CanonicalPayload.SortByKeySorts` | packages/jobs/src/registry.ts:154-156 | the member sort stands in the order by code units and keeps exactly the members |
| `CanonicalPayload.CanonicalOrder` | packages/jobs/src/registry.ts:154-157 | the members of a canonical object stand as the engine enumerates them: array indices by value, then the other keys by code units |
| `CanonicalPayload.SortedUnique` | packages/jobs/src/registry.ts:154-156 | the sorted order of given members is unique |
| `CanonicalPayload.EquivalentCanonical` | packages/jobs/src/registry.ts:151-160 | values equal up to member order at every depth have one canonical form |
| `CanonicalPayload.CanonicalEquivalent` | packages/jobs/src/registry.ts:151-160 | values with one canonical form are equal up to member order at every depth |
| `CanonicalPayload.CanonicalIsEquivalent` | packages/jobs/src/registry.ts:151-160 | canonicalizing changes nothing but member order |
| `CanonicalPayload.CanonicalTextsDecide` | packages/jobs/src/registry.ts:127-148 | within the size limit two texts are equal if and only if the payloads are equal up to member order; equivalent payloads are accepted or refused alike |
| `CanonicalPayload.StableAfterStorage` | packages/jobs/src/enqueue.ts:132-154 | whatever member order the store returns a payload in, it serializes to the text it was stored from |
| `CanonicalPayload.StoredTextParses` | packages/jobs/src/enqueue.ts:132 | the stored text parses, to a value equivalent to the payload |
| `EnqueueOutcomes.JobTypeExactly` | packages/jobs/src/registry.ts:26-99 | a job type is two or more segments joined by dots, each a letter followed by letters, digits and underscores, of at most 128 characters |
| `EnqueueOutcomes.ValidExactly` | packages/jobs/src/enqueue.ts:99-124 | the first check that fails decides the error; budget from the caller, else the definition, else 3 |
| `EnqueueOutcomes.NewJobExactly` | packages/jobs/src/enqueue.ts:127-173 | an accepted new enqueue adds one row with the caller's tenant, type, key, budget, schedule, actor and request id and an equivalent payload, and one audit row of the same tenant, actor, job and type |
| `EnqueueOutcomes.AnswersOwnJob` | packages/jobs/src/enqueue.ts:145-160 | a valid enqueue is a repeat exactly when its tenant has a job of that type under that key, and answers with that job |
| `EnqueueOutcomes.DueExactly` | packages/jobs/src/enqueue.ts:125-135 | whatever transactions follow, the job is due to its tenant's workers exactly from the time it was scheduled for |
| `JobEnqueue.JobStore.Enqueue` | packages/jobs/src/enqueue.ts:94-195 | every outcome of an enqueue, with the job and audit rows it leaves in the open transaction |
| `JobEnqueue.JobStore.Commit` | packages/jobs/src/enqueue.ts:90-92 | a commit publishes both tables; after a refused statement it restores the last commit |
| `JobEnqueue.JobStore.Rollback` | packages/jobs/src/enqueue.ts:162-173 | a rollback restores jobs and audit rows together |
| `JobEnqueue.EnqueuedCases` | packages/jobs/src/enqueue.ts:127-173 | which of validation error, repeat, conflict, audit failure and insert happens, with the text that is stored and compared |
| `JobEnqueue.EnqueueKeepsConsistent` | packages/jobs/src/enqueue.ts:127-173 | an enqueue keeps: one row per (tenant, type, key), one audit row per job, budgets in 1..10; rows already there stay as they are |
| `JobEnqueue.RepeatDecision` | packages/jobs/src/enqueue.ts:145-160 | a repeat is accepted with the existing id if and only if the payloads are equal up to member order, a conflict naming it otherwise, and writes nothing |
| `JobEnqueue.HistoryKeeps` | packages/jobs/src/enqueue.ts:127-173 | over any sequence of committing, conflicting, failing and aborting transactions: uniqueness and the job-audit bijection hold and committed jobs keep id, key and payload |
| `JobEnqueue.LaterRepeat` | packages/jobs/src/enqueue.ts:145-159 | every later valid enqueue of a committed key answers with the first job's id exactly when the payloads are equivalent |
| `JobListing.CursorRoundTrip` | packages/jobs/src/inspection.ts:73-99 | decoding an encoded position gives the position cut to the millisecond and nothing else is lost |
| `JobListing.PageFacts` | packages/jobs/src/inspection.ts:147-173 | a page is ordered, within the limit, and skips no matching row before its last; without a cursor nothing is left |
| `JobListing.CursorAccepted` | packages/jobs/src/inspection.ts:143-174 | a cursor handed out is accepted by the next request, which resumes at the cut position of the last row |
| `ListingRequests.StatusExactly` | packages/jobs/src/inspection.ts:64-70 | a status is accepted exactly when it is the name of one, and stands for that one |
| `ListingRequests.CursorExactly` | packages/jobs/src/inspection.ts:78-99 | a cursor is accepted exactly when its text is a date, a first bar and an id, and stands for that position |
| `ListingRequests.RefusedExactly` | packages/jobs/src/inspection.ts:143-146 | a request is refused exactly for a limit outside 1..100, else a status that is no name, else its cursor |
| `ListingRequests.AnswerExactly` | packages/jobs/src/inspection.ts:143-174 | an answer holds rows of the tenant and of the status named, after the cursor, in order, at most the limit (50 by default); all of them without a next cursor, and with one exactly the first of more |
| `ListingRequests.RequestsFollow` | packages/jobs/src/inspection.ts:143-174 | a client that repeats its request with each answer's cursor is never refused, and gets the pages of the queries |
| `ListingRequests.RequestsCover` | packages/jobs/src/inspection.ts:143-174 | followed to the end, its requests list every row that has the tenant and the requested status throughout, and rows of the tenant only |
| `ListingRequests.RequestsAtRest` | packages/jobs/src/inspection.ts:143-174 | on a table at rest they list exactly the rows of the tenant with the requested status |
| `JobListing.FollowOrdered` | packages/jobs/src/inspection.ts:143-174 | if every page but the last ends on a whole millisecond, pages over a growing table are in order without repeats |
| `JobListing.AlignedEndWhole` | packages/jobs/src/inspection.ts:73-74 | with whole-millisecond creation times every page ends on one |
| `JobListing.FollowCovers` | packages/jobs/src/inspection.ts:143-174 | followed to the end the pages list every row that matched throughout, whatever the creation times |
| `JobListing.ListingIsComplete` | packages/jobs/src/inspection.ts:143-174 | with rows inserted between pages and no filter, every job present at the start is listed, whatever the creation times; and exactly once, in order, if every page but the last ends on a whole millisecond |
| `JobListing.ListingAtRest` | packages/jobs/src/inspection.ts:143-174 | on a table at rest such pages concatenate to the sorted set of matching rows, for every limit and filter |
| `JobListing.ListingEnds` | packages/jobs/src/inspection.ts:164-173 | with whole milliseconds the listing ends within one request per row and one more |
| `JobListing.NextPageContinuesExactly` | packages/jobs/src/inspection.ts:73-74 | the page after a cursor lies strictly after the page before it if and only if the last row was created on a whole millisecond |
| `ListingAtRest.NoRepeatsExactly` | packages/jobs/src/inspection.ts:73-99 | on a table at rest, for every limit and number of requests: no row is listed twice if and only if every page that another one follows ends on a whole millisecond |
| `ListingAtRest.SortedExactly` | packages/jobs/src/inspection.ts:143-174 | a listing followed to its end is the sorted set of matching rows if and only if that holds |
| `ListingAtRest.FirstPageForeverExactly` | packages/jobs/src/inspection.ts:164-173 | for every limit: the second page, and every further one, is the first again if and only if the cut position of its last row lies before its first row |
| `ListingAtRest.EndsExactly` | packages/jobs/src/inspection.ts:164-173 | a listing ends within one request per matching row and one more, or never |
| `ListingAtRest.LimitOneStuck` | packages/jobs/src/inspection.ts:164-173 | counterexample family: with limit 1 and a first row created between milliseconds the listing repeats that row for ever |
| `CursorCodec.PlainIsLawful` | packages/jobs/src/inspection.ts:73-99 | the laws that the cursor theorems assume of the date, UUID and base64url forms have a model |
| `Redaction.Redactor.RedactInternal` | packages/observability/src/redact.ts:162-240 | the walk with one mutable path set computes the tree recursion and restores the path, also when reading a value throws; an error is serialized from the heap, causes included; it terminates with no depth limit |
| `Redaction.Redactor.RedactArray` | packages/observability/src/redact.ts:129-139 | the bounded copy of a list, with the summary line when it was cut |
| `Redaction.Redactor.RedactMap` | packages/observability/src/redact.ts:141-160 | the bounded copy of a Map, with the truncation entry when it was cut |
| `Redaction.Redactor.RedactEntries` | packages/observability/src/redact.ts:228-234 | the copy of an object's own entries |
| `HiddenValues.DescribedAlike` | packages/observability/src/errors.ts:44-49 | an object cause whose JSON reads no hidden value, or throws without one, is described alike in all heaps that agree outside hidden values |
| `HiddenValues.ExposedDescribedApart` | packages/observability/src/errors.ts:44-49 | one whose JSON reads a hidden value is described differently in two such heaps |
| `RedactionInterference.ErrorAlike` | packages/observability/src/errors.ts:59-82 | serialized errors whose chain of causes, followed to depth 5, exposes nothing are copied alike |
| `RedactionInterference.NonInterference` | packages/observability/src/redact.ts:104-240 | walks of two heaps that agree except under sensitive keys and past the length limit give one result, at any depth, below any path, where no error copied exposes a hidden value |
| `RedactionInterference.UnexposedHides` | packages/observability/src/redact.ts:249-262 | such heaps redact to the same record, whatever scrubbing does to strings |
| `RedactionInterference.HidesExactly` | packages/observability/src/redact.ts:199-201 | with strings left as they are: all such heaps redact to the same record if and only if there is no record, or no error it shows has an object cause whose JSON reads a value under a sensitive key or past the length limit |
| `RedactionInterference.CauseShowsPassword` | packages/observability/src/errors.ts:74-81 | counterexample: with the default options the record of an error caused by an object with a password shows the password in the cause's message |
| `RedactionInterference.PasswordsTellApart` | packages/observability/src/errors.ts:74-81 | so two such errors that differ in the password alone give different records |
| `RedactionSafety.WalkIsSound` | packages/observability/src/redact.ts:129-240 | every copy is bounded in depth and list length and holds the placeholder under every sensitive key it copied |
| `RedactionSafety.RedactionIsBounded` | packages/observability/src/redact.ts:249-262 | containers nest at most maxDepth deep and lists have at most maxArrayLength + 1 items |
| `RedactionSafety.CoversExactly` | packages/observability/src/redact.ts:104-160 | every sensitive field of every record holds the placeholder if and only if the key fragments spare the redactor's own `[truncated]` key or the depth limit is 0 or less |
| `RedactionSafety.DefaultsCover` | packages/observability/src/redact.ts:33-52 | with the default fragments every field with a sensitive key is covered |
| `KeySensitivity.SensitiveExactly` | packages/observability/src/redact.ts:99-116 | a key is sensitive exactly when the letters and digits of some fragment that has any stand consecutively among the key's, case ignored |
| `KeySensitivity.SensitiveAlike` | packages/observability/src/redact.ts:99-101 | keys that differ in case, or in what is neither letter nor digit, are sensitive alike |
| `KeySensitivity.HeaderKeysAreSensitive` | packages/observability/src/redact.ts:24-25 | `X-API-KEY` and `Authorization` are sensitive by default |
| `RedactionSafety.RecordKeysExact` | packages/observability/src/redact.ts:141-234 | a record has a field for every key copied, sensitive ones included, and no other but the report of a cut |
| `RedactionSafety.Located` | packages/observability/src/redact.ts:162-240 | what the record shows at a position is the copy of the value there, taken below the objects passed on the way |
| `RedactionSafety.CircularExactlyAtAncestors` | packages/observability/src/redact.ts:177-179 | above the depth limit the circular marker replaces a container exactly where it is its own ancestor; a shared one is copied again |
| `RedactionLeaves.LeafShown` | packages/observability/src/redact.ts:162-217 | what a record shows at every position that holds no container and no error: strings and URLs scrubbed, other values as their texts and summaries |
| `RedactionLeaves.DepthMarkerShown` | packages/observability/src/redact.ts:192-194 | an object at the depth limit shows the depth marker |
| `RedactionLeaves.ListShownExactly` | packages/observability/src/redact.ts:129-139 | a list is copied up to the limit, and a longer one ends in a line that counts the rest |
| `RedactionLeaves.DecimalExactly` | packages/observability/src/redact.ts:136 | the counts are decimal numerals of the numbers they stand for |
| `RedactionLeaves.ErrorRecordExactly` | packages/observability/src/errors.ts:59-79 | an error's record has its scrubbed name and message, its stack and its cause's record if it has them, and no other field |
| `RedactionLeaves.CausesKeptExactly` | packages/observability/src/errors.ts:74-81 | the chain of causes is kept exactly to the fifth, each with its own name, message and stack |
| `RedactionLeaves.DescribedExactly` | packages/observability/src/errors.ts:25-50 | the text of a cause that is no error: a string as it is, other primitives as they print, an object as its JSON text or the marker of one that has none |
| `RedactionLeaves.ArrayJsonExactly` | packages/observability/src/errors.ts:45 | the JSON text of a cause: an array has each item's, null for one that has none, and throws when an item does |
| `RedactionLeaves.PlainJsonExactly` | packages/observability/src/errors.ts:45 | a plain object has a member for each entry that has JSON, sensitive or not, and throws when an entry does |
| `MigrationRunner.MigrationDatabase.Apply` | packages/database/src/runner.ts:93-105 | one transaction: statements and ledger row together, or a failure and an unchanged database |
| `MigrationRunner.MigrationDatabase.RunMigrations` | packages/database/src/runner.ts:51-115 | the loop returns, throws and leaves the database as the pass specification says, whatever other runners commit in between |
| `MigrationRunner.PassSoFar` | packages/database/src/runner.ts:75-112 | up to where a pass has come: no ledger entry is changed, applied and skipped split the list in order, each of its migrations is recorded with its checksum |
| `MigrationRunner.ReturnedPass` | packages/database/src/runner.ts:75-114 | a normal return: every listed migration is in the ledger with its checksum, and applied and skipped partition the list in order |
| `MigrationRunner.AloneCommits` | packages/database/src/runner.ts:75-112 | an undisturbed pass commits exactly the pending migrations, in list order |
| `MigrationRunner.AloneReturnsExactly` | packages/database/src/runner.ts:75-114 | it returns if and only if no listed migration has drifted and no pending id is listed twice |
| `MigrationRunner.CrashThenRerun` | packages/database/src/runner.ts:93-105 | a pass cut short anywhere and repeated returns, with the database one undisturbed pass would have left |
| `MigrationRunner.RerunAppliesNothing` | packages/database/src/runner.ts:8-11 | after a normal return a repeat applies nothing and changes nothing |
| `MigrationRunner.DriftLeavesDatabaseExactly` | packages/database/src/runner.ts:75-91 | a pass that meets a drifted migration throws there with the pending ones before it committed; the database is unchanged if and only if there were none |
| `MigrationRunner.DriftAfterAnApply` | packages/database/src/runner.ts:82-91 | concrete: a throw on drift after a migration was applied |
| `MigrationRunner.ThrowLeavesEarlierApplied` | packages/database/src/runner.ts:75-105 | whatever a pass throws on - drift, a failing statement, a ledger row already there - it has committed every pending migration before; but for the commits of others the database is unchanged if and only if there was none |
| `MigrationRunner.FailureAfterAnApply` | packages/database/src/runner.ts:48-49 | counterexample to the comment: a statement fails after an earlier migration was applied, which stays applied |
| `MigrationRace.StepIsAtomic` | packages/database/src/runner.ts:93-105 | statement by statement, with open transactions and crashes: the database changes only by committing one pending migration whole |
| `MigrationRace.StepKeepsInv` | packages/database/src/runner.ts:57-112 | every step of any runner keeps the ledger exact, the runners' results in line with their lists, and one holder per inserted ledger row |
| `MigrationRace.EachMigrationCommitsOnce` | packages/database/src/runner.ts:93-105 | over every run of racing, crashing and restarted runners no id commits twice, the ledger records exactly the commits, and the statements in effect are those of the committed migrations, each whole |
| `MigrationRace.ReturnMeansRecorded` | packages/database/src/runner.ts:75-114 | a pass that returned has every listed migration in the ledger with its checksum, then and ever after, and reports as applied exactly what it committed |
| `MigrationRace.RacersApplyApart` | packages/database/src/runner.ts:93-107 | two racing runners never both report one migration as applied |
| `MigrationRace.ThrowsExactly` | packages/database/src/runner.ts:76-105 | a runner throws exactly on a drifted checksum, a failing statement or a ledger row that is there already |
| `RoleGrants.PermissionsExact` | packages/auth/src/permissions/query-service.ts:63-83 | a user holds a key exactly when its membership has a role that carries it inside the tenant; in ascending order of code units, each once |
| `RoleGrants.RoleKeysExact` | apps/admin/src/server/admin/users.ts:62-70 | a role's keys are exactly those a chain of rows leads to inside the tenant |
| `RoleGrants.FindEscalatedExact` | apps/admin/src/server/admin/permissions.ts:74-88 | the reported keys are the granted ones not held, in ascending order of code units and each once; none if and only if the grant is within authority |
| `RoleGrants.EscalationIgnoresOrder` | apps/admin/src/server/admin/permissions.ts:71-73 | neither order nor repeats of the two lists show in the report |
| `RoleGrants.AcceptedExactly` | apps/admin/src/server/admin/users.ts:117-134 | an assignment is accepted if and only if the actor may assign roles, user and role are given and exist, the role is the tenant's own and carries nothing the actor lacks |
| `RoleGrants.RefusedExactly` | apps/admin/src/server/admin/users.ts:117-129 | the other refusals, in their order: the permission to assign roles, what is not found in the tenant, the users |
| `RoleGrants.EscalationReported` | apps/admin/src/server/admin/permissions.ts:91-94 | a refusal for escalation names exactly the role's keys the actor lacks |
| `RoleGrants.AdminDatabase.UpsertMembership` | apps/admin/src/server/admin/users.ts:137-142 | insert or update of the one membership of a user in the tenant |
| `RoleGrants.AdminDatabase.AssignRole` | apps/admin/src/server/admin/users.ts:117-152 | the refusal, or membership and audit row written together; a refusal changes nothing |
| `GrantClosure.StepKeepsInv` | apps/admin/src/server/admin/users.ts:117-152 | every step keeps: each member's and each reading's keys were held at once by one member at the start |
| `GrantClosure.AuthorityNeverCombines` | apps/admin/src/server/admin/users.ts:131-134 | over every run, stale readings included, whatever a user holds one single member of the tenant held at the start |
| `GrantClosure.NoNewKeys` | apps/admin/src/server/admin/users.ts:131-134 | no user ever holds a key that nobody in the tenant held at the start |
| `GrantClosure.UngrantableKeysOnlyShrink` | apps/admin/src/server/admin/users.ts:118-134 | if nobody held `roles.manage` together with a key at the start, its holders only ever shrink |
| `GrantClosure.GrantableExactly` | apps/admin/src/server/admin/users.ts:117-152 | over all runs a role can come to be assigned if and only if one member at the start held `roles.manage` and every key of the role |
| `GrantClosure.AssignStaysInTenant` | apps/admin/src/server/admin/users.ts:123-151 | an assignment leaves every other tenant's memberships, held keys and audit rows alone |
| `GrantClosure.AuditTrailExact` | apps/admin/src/server/admin/users.ts:143-150 | over every run the audit log grows by exactly one row per accepted assignment, naming its actor, user, role and number of keys |
| `GrantClosure.GrantWithinCurrentExactly` | apps/admin/src/server/admin/users.ts:131-134 | a grant stays within what the actor holds at the moment of the write if and only if the role carries no key withdrawn from the actor since its permissions were read |
| `GrantClosure.StaleReadingGrants` | apps/admin/src/server/admin/users.ts:4-7 | counterexample to the comment: an administrator whose role was withdrawn after its permissions were read gives the role back to itself |

## Left out

Job leases:

- The abort signal and the handler time-out clock: only the flag that classifies a failure is modelled.
- HandlerConcurrency.SlowHandlersPileUp: models the claims of the polling loop and its in-flight set, not its timing. `stop` and the shutdown grace are left out.
- `getQueueStats`, log lines, and errors thrown by the publisher, which the worker swallows.
- Database errors of the worker's calls other than a lost reply to the acknowledgement: such a call rejects out of the cycle and changes nothing the protocol does not already allow as a crash.
- A non-retryable error's code outside the allowlist is stored as `handler_error`; the model starts from the allowlisted code.
- Row locks are modelled as held from select to commit; lock queues and deadlock detection of the database are not. A fenced update waits by not being enabled.
- Worker.JobWorker.RunOnce: takes the claim's token as not yet issued and the answers of the selects as given; that the claim's select always has exactly one answer is `Worker.SelectionExists`.
- LeaseProgress.BoundedOvertaking: assumes that the waiting job is not locked by another open claim and that clock readings are past its due time, because `skip locked` passes over locked rows.

Enqueuing and listing:

- JobEnqueue.JobStore.Enqueue: transactions are serial. That a concurrent insert of one key waits for the other transaction is the unique index of the database.
- Deleted users, tenants and jobs, and the database's own length checks on type and key, which the validators already imply.
- Payloads that are not JSON values (dates, `undefined`, `NaN`, functions, objects with `toJSON`), own `__proto__` members, and NUL characters, which `jsonb` refuses.
- JobEnqueue.EnqueueKeepsConsistent and JobEnqueue.LaterRepeat: take a store that gives every payload back up to member order. The code hands the driver the parsed value, and how the driver encodes a top-level string or array for a `jsonb` column is not part of this model.
- Numbers are the text they print as; that two numbers of one value print alike is the engine's.
- The `jobs.enqueued` notification handed back to the caller, `createJobRegistry`, `getJob` and the mapping of listed rows to summaries: table look-ups and field copies.
- JobListing.CursorRoundTrip: the date, UUID and base64url forms enter through their round-trip laws; a cursor text nobody issued is decoded by the same function without further claims, and upper-case UUIDs are the parser's business.

Redaction:

- Redaction.Redactor.RedactInternal: the order of a record's fields is not recorded; getters, proxies, prototypes and Map keys whose `String` throws are not modelled. A property named `__proto__` of the copy sets its prototype in the code and is absent from the record in the model.
- `scrubSecrets` is an arbitrary function on strings: what its two regular expressions find is not modelled.
- RedactionInterference.HidesExactly: assumes that scrubbing tells different texts apart, as when it is switched off; with it, `RedactionInterference.UnexposedHides` still holds and an exposed value may be scrubbed by luck. `toJSON` methods of causes are not modelled, dates and URLs apart; maps, sets, errors and regular expressions print as objects without properties.
- Lower-casing covers the characters that can end in a letter or digit; all others are removed by the normalization anyway.

Migrations:

- `loadMigrations` and the splitting of files into statements; a migration arrives with its id, statements and checksum. The model does not need distinct ids for safety, only for `MigrationRunner.AloneReturnsExactly`, which says so.
- MigrationRunner.MigrationDatabase.RunMigrations: other runners' commits during one migration are placed before it, since transactions are ordered by their ledger insert; statements are opaque and their interaction with each other is not modelled.
- The creation of the ledger table, and a rerun under the same runner identity: a restarted runner is a new one.

Grants:

- GrantClosure.StepKeepsInv: role contents are fixed. Memberships may lose their role or end at any time.
- `listUsers`, `listRoles`, `findPermission`, session hydration beyond the membership test, and the other admin services.
- RoleGrants.AdminDatabase.AssignRole: the two reads and the write are one step; a role cannot change between them because role contents are fixed. An actor or user that is no row of the user table is the database's foreign-key error.

Elsewhere in the repository: request plumbing, tenant context, settings, media, search, notifications, sessions and their signatures, and the user interface, which are look-ups, formatting or cryptography.
