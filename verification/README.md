# Media generation gateway: verified models

Dafny models of the parts of the gateway that carry state, concurrency or arithmetic, with proofs of what they keep.
`dafny verify dfyconfig.toml` checks everything. One module per file:

- **Lifecycle, AuditTrail, Workflow** - the nine-state lifecycle of a generation, the row with its audit payload, and the
  checkpointed steps with the worker that retries them. The row and the workflow are classes. A script says for
  every statement whether it works, fails, or fails after its effect; for a dead worker all later ones fail.
- **CanonicalJson, LlmCache, Stampede, InterpretService** - the canonical text behind cache keys, the cache table with its
  lazy cleanup, the lock protocol around the provider as a state machine over single statements, and one call of the
  service as a method that drives that machine while others run.
- **RateLimit, RequestBound, UserRateLimit, ProviderRouter** - governance windows and buckets, the request bound under
  concurrency, the Redis counter per user, and retries with the circuit breaker.
- **Fingerprint, Submission** - the fingerprint text of a submission, and get-or-create against a unique index.
- **Decision, GenerationSpec, PlanMode** - choosing the output type, shaping the spec for the renderer, and working out
  the questions of plan mode again after a cache hit.
- **Wrappers, Collections** - an option type, and sizes of finite sets and maps.

Where methods are proved against functions on values, the properties are proved about those functions and carry over
through the methods' postconditions. Runs are sequences of atomic steps, so a statement about every run is a statement
about every interleaving.

## What the proofs found

- The unique index of the migration covers ended rows too, and nothing clears `active_duplicate_key`: once a generation
  has ended, every later submission with its fingerprint fails (`Submission.EndedGenerationLocksOut`). The comments in
  `src/orchestrator/submission.rs:105-107` and `195-198` intend an index that ended rows leave; with that one a call only
  fails when the duplicate ended during the call.
- No code asks for a transition to uploading or cancelled, and nothing else moves the status on, so publishing and
  completed are never reached (`AuditTrail.OnlyAskedFor`, `Workflow.WorkersShareOneTrail`). Without a job id a run from
  generating or before always fails unless a job is under way. `src/orchestrator/workflow.rs:178-184` reads an empty job
  column as a boolean, which is an error.
- Initialising over a row that has left queued without a usable payload writes a payload that says queued
  (`AuditTrail.InitializeAgreesIff`). The service calls themselves never lead there.
- The instants of audit events are read before the row is locked, so they can go back between events even on a good
  clock. `AuditTrail.DurationsConserveTime` says by how much the durations then exceed the elapsed time.
- A worker reads only entries that nobody has read, and drops the ones it claims (`src/queue/worker.rs:454-490`): an
  entry that a dead worker read is not run again. A job whose last run failed is stranded, with a generation that has not
  ended, exactly when the worker's last word is lost: the mark when it gives up, and otherwise the connection or the new
  entry that were to queue the job again (`Workflow.Service.Consume`). A worker that dies does that
  (`Workflow.StrandedJob`).
- The renderer's callback marks a job failed without ending the generation (`AuditTrail.CallbackMarkLeavesTheStatus`);
  `AuditTrail.FailedMarkExactly` says when the mark is there.
- When every EXPIRE of a key fails, a user who reaches the limit is locked out of the route for good, and only then
  (`UserRateLimit.LockedOutIff`). An open circuit closes again only through a request that is still in progress; after
  that it stays open (`ProviderRouter.ClosesAgainIff`).
- The upsert of the cache keeps the old route (`LlmCache.StoredIsFoundIffRouteFree`); keys made from routes keep clear of
  that.
- The spec promises fields that are never empty and contents of at most 1000 characters. Whitespace, an empty prompt when
  there are no sections, and empty texts that are passed on, such as the title of an assessment, come out empty; the
  paragraph that stands in for missing blocks and the one of the default section are not truncated.
  `GenerationSpec.NothingEmptyIff` and `GenerationSpec.ContentBoundedIff` say exactly when the promise holds.
- Ties between formats go to PPTX, then PDF, then DOCX, as `src/orchestrator/decision.rs:35-42` does and its documentation
  does not say.

## Model

| member | source | states |
|---|---|---|
| `Lifecycle.MovesGoUp` | src/orchestrator/lifecycle.rs:99-159 | The successor lists and the transition matrix agree, a status without successors is a terminal one, and every move goes up in the order |
| `Lifecycle.PathsAreShort` | src/orchestrator/lifecycle.rs:99-112 | Every chain of allowed moves holds at most seven statuses and ends no lower than it starts |
| `Lifecycle.ReachesExactly` | src/orchestrator/lifecycle.rs:99-159 | One status can follow another through moves exactly when they are equal or the first is not terminal and lower, publishing to cancelled excepted |
| `Lifecycle.MainLine` | src/orchestrator/lifecycle.rs:99-159 | Between two statuses up to completed there is a path of allowed moves with one move per place in the order |
| `Lifecycle.StatusText` | src/orchestrator/lifecycle.rs:185-214 | A text parses to a status exactly when it is that status printed |
| `AuditTrail.CallKeepsReads` | src/orchestrator/audit_trail.rs:88-468 | Each of the four service calls, a reset, and the other writes to the job and error columns keep row, payload and unbounded log in agreement |
| `AuditTrail.HistoryRefinesLog` | src/orchestrator/audit_trail.rs:155-468 | After any sequence of calls the stored history is the last 50 events of the unbounded log, place by place; the status changes of the log form one unbroken path of at most seven from queued; the last one is both the row's and the payload's status |
| `AuditTrail.TimingRefinesLog` | src/orchestrator/audit_trail.rs:576-644 | Every timing field of the payload equals what the log says: queued, started, last moved, completed, time in each status, and the total as of the latest event |
| `AuditTrail.DurationsConserveTime` | src/orchestrator/audit_trail.rs:576-644 | For any clock the nine durations add up to last transition minus queueing plus every millisecond the clock went back, so with a clock that never goes back to that span, in nanoseconds to within one millisecond |
| `AuditTrail.CompletionConservesTime` | src/orchestrator/audit_trail.rs:614-643 | The completion stamp is present exactly in a terminal status; when the generation has just ended, durations, span and stored total are one number |
| `AuditTrail.NoRegression` | src/orchestrator/audit_trail.rs:193-224 | From any row and over any calls without a reset, the status only moves along the lifecycle, a terminal status never changes, and its completion stamp is never rewritten |
| `AuditTrail.StaleCheckIsHarmless` | src/orchestrator/workflow.rs:560-567 | A transition after a stale read of the status makes an allowed move, finds the status reached, or is refused without a change |
| `AuditTrail.OnlyAskedFor` | src/orchestrator/workflow.rs:225-494 | Uploading, publishing and completed need a transition call that asks for uploading, and cancelled one that asks for cancelled; the workflow makes neither |
| `AuditTrail.ErrorsOnlyOnFailed` | src/orchestrator/audit_trail.rs:441-463 | An error code is on the row only while it is failed, with an error in the payload too; a saved transition clears both |
| `AuditTrail.ErrorCodeExactly` | src/orchestrator/audit_trail.rs:441-463 | In every run the row carries a code exactly when the latest call that wrote or cleared it marked the generation failed with that code |
| `AuditTrail.LatestErrorExactly` | src/orchestrator/audit_trail.rs:314-345 | The same for the latest error of the payload, which failed attempts write too |
| `AuditTrail.CallTells` | src/orchestrator/audit_trail.rs:155-468 | After a saved transition, failed attempt or marking: status, code, latest error, and the latest event of the history |
| `AuditTrail.OutcomeTells` | src/orchestrator/audit_trail.rs:193-224 | A call is refused exactly for a move that is not allowed or a marking of what completed or was cancelled; a refused call changes nothing |
| `AuditTrail.FailedMarkExactly` | src/db/repositories/media_generations.rs:658-690 | A failed mark in the job column that the service wrote means that the row is failed, in every run; and the mark is there exactly when the latest writer of the column, service or callback, wrote it |
| `AuditTrail.CallbackMarkLeavesTheStatus` | src/api/rest/media_webhook.rs:218-227 | A callback can mark a generating row failed: the status and its error stay as they were |
| `AuditTrail.InitializeAgreesIff` | src/orchestrator/audit_trail.rs:88-147 | Initialising leaves payload and row in agreement exactly when a usable payload agreed before, or there was none and the row is queued |
| `AuditTrail.InitializeCanBreakTheLog` | src/orchestrator/audit_trail.rs:88-147 | A row that has moved on without a payload: after initialising, its next transition is not a continuation of the logged path |
| `AuditTrail.ApplyTransitionTiming` | src/orchestrator/audit_trail.rs:576-644 | The step-by-step update of the timing block equals the timing function |
| `AuditTrail.AppendHistory` | src/orchestrator/audit_trail.rs:673-686 | Appending keeps the last 50 events |
| `AuditTrail.Generation.Initialize` | src/orchestrator/audit_trail.rs:88-147 | New row, log and outcome; a valid row stays valid |
| `AuditTrail.Generation.Transition` | src/orchestrator/audit_trail.rs:155-272 | New row, log and outcome, also for a repeated status and a refused transition |
| `AuditTrail.Generation.RecordAttemptFailure` | src/orchestrator/audit_trail.rs:278-352 | New row, log and outcome; the status stays |
| `AuditTrail.Generation.MarkFailed` | src/orchestrator/audit_trail.rs:359-468 | New row, log and outcome; completed and cancelled are refused, failed adds no event |
| `AuditTrail.Generation.MarkJob` | src/db/repositories/media_generations.rs:658-690 | Writes the job column and nothing else |
| `AuditTrail.Generation.ClearError` | src/orchestrator/decision.rs:234-252 | Clears the error of the row and nothing else |
| `AuditTrail.Generation.ResetForReprocessing` | src/db/repositories/media_generations.rs:792-833 | The row is as freshly submitted |
| `Workflow.WorkersShareOneTrail` | src/orchestrator/workflow.rs:134-494 | However many workers run one fresh generation at once, and some give up: the log holds a first part of the main line, at most to generating, each move once, and at most one failed after it |
| `Workflow.Service.EnsureClassified` | src/orchestrator/workflow.rs:225-315 | Only moves to interpreting and classified; on success one interpretation, one draft and a decision before and after it, which notes the source of the draft; none of them when the columns say that it was done with a draft |
| `Workflow.Service.EnsureGenerated` | src/orchestrator/workflow.rs:333-405 | Only moves to generating; on success with a job id exactly one more submission and the processing mark |
| `Workflow.Service.EnsurePublished` | src/orchestrator/workflow.rs:410-441 | Only moves from uploading to publishing, and only when the entities existed; otherwise one publication |
| `Workflow.Service.EnsureCompleted` | src/orchestrator/workflow.rs:446-494 | Only moves from publishing to completed; success means completed or another terminal status, with one composition unless a delivery was there |
| `Workflow.Service.Process` | src/orchestrator/workflow.rs:134-208 | Moves along the main line only; with a job id it succeeds exactly when every statement it gets to works, and ends at max(start, generating), having submitted the job once, and interpreted and drafted once unless that was done; without a job id a run from generating or before fails unless the job is under way, and a run over an empty job column always fails |
| `Workflow.Service.ProcessUntilDone` | src/orchestrator/workflow.rs:134-208 | Crash and retry transparency: any number of failing runs and then a successful one log the moves of one uninterrupted run |
| `Workflow.Service.RunTries` | src/queue/worker.rs:209-405 | At most three runs, each beginning right after the last one was queued again; with a job id each failed one ended at the first fault after its begin; given up only at the last one or for a permanent error, forgotten only when queueing again was lost |
| `Workflow.Service.Consume` | src/queue/worker.rs:209-490 | A worker with one job, with or without an id: a finished job left the generation where an uninterrupted run does, one given up added one move to failed, an ended generation is left alone. Stranded, with no run that succeeded and no entry that will run, is a job exactly when its generation had not ended, its last run met a fault, and the mark, or the connection or new entry that were to queue it again, were lost; for any number of tries |
| `Workflow.StrandedJob` | src/queue/worker.rs:365-377 | A worker that dies before its first statement strands the job, whatever its errors count as |
| `Workflow.Service.GiveUp` | src/queue/dead_letter.rs:43-105 | Marking failed adds one move or changes nothing; its errors are ignored |
| `CanonicalJson.CanonicalTextIdentifies` | src/cache/mod.rs:102-127 | Two documents print to one canonical text exactly when they are equal up to the order of keys at every depth |
| `CanonicalJson.PrintUnique` | src/cache/mod.rs:102-127 | A printed document followed by an ending character can be read back in one way only |
| `CanonicalJson.QuoteUnique` | src/cache/mod.rs:122 | A quoted string, escaped as in section 7 of RFC 8259, can be read back in one way only |
| `CanonicalJson.DecimalUnique` | src/cache/mod.rs:123 | A printed integer can be read back in one way only |
| `CanonicalJson.EscapeReadsBack` | src/cache/mod.rs:122 | An escaped text reads back as the text by the table of section 7 of RFC 8259 |
| `CanonicalJson.DigitsReadBack` | src/cache/mod.rs:123 | Printed digits stand for the number, without a leading zero |
| `CanonicalJson.PrintedForms` | src/cache/mod.rs:102-127 | The texts of the literals, and what stands between items and fields |
| `CanonicalJson.BeforeIsLexicographic` | src/cache/mod.rs:105-106 | The key order is the lexicographic order by code point |
| `CanonicalJson.SortFieldsAscending` | src/cache/mod.rs:105-106 | The printed keys of an object with distinct keys ascend |
| `CanonicalJson.KeyTextIdentifies` | src/cache/mod.rs:71-97 | The text that is hashed into a cache key fixes route, request type, lowercased provider, model, instruction and input, and nothing more |
| `LlmCache.CacheReturnsLatestStore` | src/cache/mod.rs:149-196 | Whatever deletes and cleanups ran between, lookup and peek return exactly the latest stored value while its time to live lasts, and nothing afterwards |
| `LlmCache.LookupIsLatestStore` | src/cache/mod.rs:222-249 | The touch of a lookup answers with the latest stored value if it is alive, counting one hit more than the lookups since the store |
| `LlmCache.HitCountCountsLookups` | src/cache/mod.rs:156-178 | The hit count of an entry is the number of lookups it answered since it was stored |
| `LlmCache.StoredIsFoundIffRouteFree` | src/cache/mod.rs:164-178 | A store is found again exactly when no row of another route held its key, because the upsert leaves the route alone |
| `LlmCache.StoreCanBeLost` | src/cache/mod.rs:164-178 | A store over a row of another route that is not found |
| `LlmCache.CleanupTakesExpired` | src/cache/mod.rs:361-373 | A cleanup deletes exactly those of its victims that are expired rows of its route |
| `LlmCache.LlmCacheRepo.CleanupExpired` | src/cache/mod.rs:361-373 | Removes at most the limit of expired rows of the route, the oldest first, and nothing else |
| `LlmCache.LlmCacheRepo.MaybeRunLazyCleanup` | src/cache/mod.rs:378-394 | At most one cleanup of at most 100 rows in 60 seconds of the monotonic clock |
| `LlmCache.LlmCacheRepo.Lookup` | src/cache/mod.rs:222-249 | The rows are what its statements make of them, and the result is the answer to the touch: found exactly when present, of the route and fresh, with one more hit; only expired rows go |
| `LlmCache.LlmCacheRepo.Peek` | src/cache/mod.rs:252-271 | What a read without side effects returns |
| `LlmCache.LlmCacheRepo.Store` | src/cache/mod.rs:274-308 | The rows are what its statements make of them: the stored entry, its expiry from the caller's clock, no hits; other rows stay unless expired |
| `LlmCache.WaitForEntry` | src/cache/mod.rs:336-358 | The first poll that finds an entry, or a poll at or past the deadline |
| `Stampede.EveryRun` | src/llm/interpret.rs:389-596 | The invariant of lock, stores, trace and phases over every interleaving |
| `Stampede.OneHolderInTheProvider` | src/llm/interpret.rs:482-596 | At most one of the calls in the provider holds the lock; another one waited its deadline out or was told to skip the cache |
| `Stampede.LocksAreReleased` | src/llm/interpret.rs:571-596 | A returned call holds the lock exactly when its release failed; if none failed and all returned, the lock is free |
| `Stampede.HitsWereValidatedAndStored` | src/llm/interpret.rs:415-560 | Every cache hit serves a payload that a call validated and stored, less than an hour old; no cached payload is corrupt |
| `Stampede.OnlyAnsweredCallsStore` | src/llm/interpret.rs:665-696 | Only a call with a validated answer and its cache in use stores anything, never a fallback |
| `Stampede.LiveStoresAreServed` | src/llm/interpret.rs:415-560 | In every run a working lookup or poll serves the latest store while its hour lasts |
| `Stampede.SavedIsServed` | src/llm/interpret.rs:665-696 | A payload whose store worked is what every later working lookup and poll serves, for an hour and until another store |
| `Stampede.SavedExpires` | src/cache/mod.rs:156-162 | After its hour a stored payload is not served, and the call goes on to the lock |
| `Stampede.OthersExecute` | src/llm/interpret.rs:415-477 | Others may execute any other statement at any time; what does not decode is never a hit |
| `Stampede.FreeLockIsTaken` | src/llm/interpret.rs:482-530 | A call that missed gets the lock at once exactly when no call has it, and waits otherwise |
| `Stampede.ReturnedStays` | src/llm/interpret.rs:331-596 | A call that has returned takes no further step, so one that was served asks nobody |
| `InterpretService.OthersLeaveAlone` | src/llm/interpret.rs:331-596 | No step of another call changes where a call stands or what it stored |
| `InterpretService.Service.ExecuteProvider` | src/llm/interpret.rs:602-812 | One question to the provider; the reply decides the result; exactly a validated answer is stored, unless the cache is skipped or the store fails |
| `InterpretService.Service.WaitForEntry` | src/cache/mod.rs:336-358 | Ends, with an entry, an error, or a passed deadline |
| `InterpretService.Service.Prepare` | src/llm/interpret.rs:412-568 | Lookup, lock attempt and wait leave the call served, failed or ready to ask; a store that is live at the lookup is served at once |
| `InterpretService.Service.Interpret` | src/llm/interpret.rs:331-596 | Every call returns; it is served what was live at its lookup without a question, otherwise asks at most once and returns what the reply stands for; denied is refused, degraded skips the cache; it stores only what it answers, and keeps the lock only if the release failed |
| `RateLimit.WindowStartRounds` | src/governance/rate_limit.rs:172-187 | Zeroing the smaller time fields is rounding down to a multiple of the window |
| `RateLimit.WindowsTile` | src/governance/rate_limit.rs:172-195 | Every instant is in exactly one window, consecutive windows meet, later instants are in no earlier window |
| `RateLimit.BucketsConserveUsage` | src/governance/rate_limit.rs:235-259 | After any mutations each of the six counters of a bucket is the sum of that number over the mutations whose instants lie in its window, and its last request the latest one named |
| `RateLimit.BucketsEndTheirWindows` | src/governance/rate_limit.rs:329-360 | Every bucket ends where its window ends |
| `RateLimit.RateLimitBuckets.Increment` | src/governance/rate_limit.rs:329-360 | The upsert of one bucket and the row it returns, with every counter grown by its part |
| `RateLimit.RateLimitBuckets.RecordUsage` | src/governance/rate_limit.rs:366-397 | One more request, the tokens and the cost added, no denial |
| `RateLimit.RateLimitBuckets.RecordDenial` | src/governance/rate_limit.rs:400-428 | One more denial and nothing else |
| `RateLimit.ExhaustedIff` | src/governance/rate_limit.rs:494-511 | A policy is exhausted exactly when one more request at that cost would leave its limits |
| `RateLimit.RateLimitBuckets.PreflightCheck` | src/governance/rate_limit.rs:443-514 | The first exhausted policy decides and gets one denial; no other counter changes |
| `RateLimit.RateLimitBuckets.RecordAll` | src/llm/respond.rs:587-607 | Records one request in the bucket of every policy, each at its own instant |
| `RateLimit.RateLimitBuckets.ServeRespond` | src/llm/respond.rs:223-262 | A respond request is never denied, and counts once in the current bucket of every policy |
| `RateLimit.InterpretNeverDegrades` | src/governance/rate_limit.rs:522-533 | Exhaustion degrades exactly the respond route and denies every other |
| `RequestBound.NoWindowExceedsItsBound` | src/governance/rate_limit.rs:443-520 | For every run with at most c calls at once, each with its own list of policies, no window of a limit M of at least one counts more than M + c - 1, even when check and record fall in different windows |
| `RequestBound.BoundIsReached` | src/governance/rate_limit.rs:443-520 | For every M and c some run reaches M + c - 1 |
| `RequestBound.RunBounded` | src/llm/interpret.rs:753-773 | The same bound for any policies and any windows that never go back |
| `RequestBound.RecordsEachPolicyOnce` | src/llm/interpret.rs:753-773 | A call that records undisturbed counts once in the current window of each policy on its list, and nowhere else |
| `RequestBound.CountedLater` | src/llm/interpret.rs:753-773 | A call that begins at one instant can be counted in the window of any later one |
| `UserRateLimit.RedisKeyInjective` | src/auth/middleware.rs:200-215 | Different users or routes never share a counter |
| `UserRateLimit.Redis.CheckUserRateLimit` | src/auth/middleware.rs:200-268 | With anything in between the two commands: allowed exactly within the limit of the counter, or when Redis is down; the expiry is set after the first request only, on whatever is there then |
| `UserRateLimit.LifeWithinLimit` | src/auth/middleware.rs:200-268 | One lifetime of a key grants at most the limit, for every arrival sequence |
| `UserRateLimit.WindowWithinTwiceLimit` | src/auth/middleware.rs:200-268 | Any interval as long as the window holds at most twice the limit less one |
| `UserRateLimit.WindowBoundIsReached` | src/auth/middleware.rs:200-268 | For every limit some trace reaches twice the limit less one |
| `UserRateLimit.WithoutExpireGrantsStop` | src/auth/middleware.rs:230-262 | When the EXPIRE of a lifetime fails, a key that has reached its limit never grants again |
| `UserRateLimit.LockedOutIff` | src/auth/middleware.rs:216-262 | A key that no EXPIRE is on its way to is locked out for good exactly when its counter is at the limit and has no expiry |
| `UserRateLimit.LockoutIsReached` | src/auth/middleware.rs:216-262 | Requests up to the limit without a working EXPIRE reach that state |
| `ProviderRouter.Router.TryProviderWithRetry` | src/providers/router.rs:144-180 | Calls up to the first final answer; sleeps the doubling delays between them; returns the last answer |
| `ProviderRouter.SleptInClosedForm` | src/providers/router.rs:163-172 | The delays of n attempts add up to base * (2^n - 1) |
| `ProviderRouter.AnswersIff` | src/providers/router.rs:144-180 | A provider answers exactly when one of its first attempts does before an error that is not retried, and with the first such answer |
| `ProviderRouter.WaitedIsDelays` | src/providers/router.rs:163-172 | The time between n calls of a provider is the delays after the first n - 1 of them |
| `ProviderRouter.Router.Complete` | src/providers/router.rs:94-141 | An open circuit calls nobody; otherwise it answers exactly when the provider or then the fallback does, with at most 2 * max attempts with their delays, and the counter goes to zero on an answer and up by one on none |
| `ProviderRouter.Router.CompleteAll` | src/providers/router.rs:83-141 | One at a time: the counter is the number of failures since the last answer, never above the threshold; an open circuit stays open and calls nobody |
| `ProviderRouter.CounterBounded` | src/providers/router.rs:94-141 | With at most c callers the counter stays at or below threshold + c - 1 |
| `ProviderRouter.CounterBoundIsReached` | src/providers/router.rs:94-141 | For every threshold and number of callers some interleaving reaches threshold + c - 1 |
| `ProviderRouter.OpenAndIdleStays` | src/providers/router.rs:83-105 | An open circuit with no request in progress never changes again |
| `ProviderRouter.ClosesAgainIff` | src/providers/router.rs:94-141 | An open circuit can close again exactly while a request is still in progress |
| `ProviderRouter.RequestsEnd` | src/providers/router.rs:94-141 | A request leaves with an answer, which resets the counter, or with exactly one failure counted |
| `Fingerprint.SquishJoinsWords` | src/orchestrator/submission.rs:412-431 | The squishing fold is splitting on whitespace, lowercasing and joining with single spaces |
| `Fingerprint.SquishKeepsWords` | src/orchestrator/submission.rs:412-431 | Two prompts squish alike exactly when their lowercased words agree; squishing again changes nothing |
| `Fingerprint.CanonicalTextIdentifies` | src/orchestrator/submission.rs:383-407 | Requests have one fingerprint text exactly when teacher, type, subject, sub-subject and words agree; the prompt may hold bars |
| `Fingerprint.BarInTypeCollides` | src/orchestrator/submission.rs:383-407 | With a bar in the output type two different requests share their text |
| `Fingerprint.NormalizedType` | src/orchestrator/submission.rs:359-375 | One of the four types, never with a bar; a named type exactly for that one word up to case and surrounding whitespace; idempotent |
| `Submission.OneActivePerFingerprint` | src/orchestrator/submission.rs:95-245 | In every state of every run at most one generation per fingerprint is active |
| `Submission.ActExtends` | src/orchestrator/submission.rs:95-245 | No step removes or rewrites a row; its status moves along the lifecycle or back to queued |
| `Submission.ReturnsAnActiveRow` | src/orchestrator/submission.rs:95-245 | A successful call returns a row with its teacher and fingerprint that was active at a moment of the call |
| `Submission.OverlappingCallsAgree` | src/orchestrator/submission.rs:95-245 | Successful calls with one fingerprint agree on the row while it stays active |
| `Submission.CreatedOnce` | src/orchestrator/submission.rs:182-190 | A call reports a creation exactly for the row it inserted, and every inserted row is reported once unless the answer was lost |
| `Submission.ViolatedOnlyWhenTheDuplicateEnded` | src/orchestrator/submission.rs:195-238 | With an index that ended rows leave, a unique violation means the duplicate was active at the insert and had ended at the retry |
| `Submission.EndedGenerationLocksOut` | migrations/20260712000013_create_media_generations_table.sql:41 | With the index of the migration a generation that has ended locks its fingerprint out of every later call |
| `Submission.UndisturbedCallFails` | src/orchestrator/submission.rs:95-245 | A call whose statements run with nothing between them reports the unique violation exactly when an ended row with its fingerprint is still in the index, and is served otherwise |
| `Submission.Table.CreateOrReuse` | src/orchestrator/submission.rs:95-245 | With any interference and any database errors: the returned row matches, at most one own row and reported so unless the answer was lost, the violation only without an insert and without an active row; a database error exactly when a statement that was reached failed |
| `Decision.ToleranceOnGrid` | src/orchestrator/decision.rs:437-451 | On whole ten-thousandths the tolerance comparator is a strict total order by score and priority |
| `Decision.ToleranceOffGrid` | src/orchestrator/decision.rs:437-451 | Off that grid the comparator has a cycle |
| `Decision.KeywordSignals` | src/orchestrator/decision.rs:460-504 | The loop over the formats computes the signals |
| `Decision.ContainsIff` | src/orchestrator/decision.rs:467 | A keyword is found exactly when it stands somewhere in the text |
| `Decision.SignalsTell` | src/orchestrator/decision.rs:460-504 | The signals are exactly those of the first keyword per format that stands in the haystack, and the density signal for a high density with assets |
| `Decision.Accumulate` | src/orchestrator/decision.rs:394-432 | The map holds per format the rounded candidate scores and signal weights added up |
| `Decision.EntryAddsUp` | src/orchestrator/decision.rs:394-432 | Every candidate adds its rounded score to the format it names, every signal its weight and its reason |
| `Decision.RoundedIsNearest` | src/orchestrator/decision.rs:394-403 | No whole ten-thousandth is nearer to a score, and halves go away from zero |
| `Decision.AscendingUnique` | src/orchestrator/decision.rs:437-451 | Given entries have one ascending list, so every correct sort returns it |
| `Decision.OrderDoesNotMatter` | src/orchestrator/decision.rs:434-451 | The ranking is the same for every iteration order of the map |
| `Decision.RankCandidates` | src/orchestrator/decision.rs:375-457 | Loops, map and sort compute the ranking |
| `Decision.HeadIsBest` | src/orchestrator/decision.rs:375-457 | Three formats once each, the head being the one best by score and priority |
| `Decision.TiesGoToSlides` | src/orchestrator/decision.rs:35-42 | Which format wins by the scores alone: ties go to PPTX, then PDF |
| `Decision.RaisingKeepsTheWinner` | src/orchestrator/decision.rs:394-415 | More for the winner and no more for the others keeps the winner |
| `Decision.OneMoreForTheWinner` | src/orchestrator/decision.rs:394-415 | One more candidate for the winner keeps the winner |
| `Decision.DecisionPriority` | src/orchestrator/decision.rs:271-345 | The teacher's type, else the interpretation's, else the best format; a tie is reported exactly when the ranking decided and another format has the winner's score |
| `Decision.DecisionsAgree` | src/llm/step_adapters.rs:263-272 | Deciding again with the resolved type as preference gives the same type, so all decisions of one classification agree |
| `GenerationSpec.TruncateFieldBounded` | src/orchestrator/decision.rs:676-685 | Within the bound in characters, keeps what fits, idempotent |
| `GenerationSpec.SectionShape` | src/orchestrator/decision.rs:762-870 | A built section is within the renderer's bounds, keeps title and purpose where they fit, and its blocks with content, or has one with the purpose |
| `GenerationSpec.SpecShape` | src/orchestrator/decision.rs:703-1060 | For every interpretation and draft: sections are never empty, each with a block of an allowed kind, tone and audience are bounded, and the counts and default units add up |
| `GenerationSpec.SpecKeepsWhatFits` | src/orchestrator/decision.rs:703-745 | Title, summaries, tone, audience, language and preferences are the given ones where they fit |
| `GenerationSpec.SpecKeepsLists` | src/orchestrator/decision.rs:978-1018 | Objectives and assets come out one for one |
| `GenerationSpec.BlocksInOrder` | src/orchestrator/decision.rs:775-800 | The blocks of a section with content come out in order, each with its type and content |
| `GenerationSpec.AssessmentsInOrder` | src/orchestrator/decision.rs:913-945 | The assessments with instructions come out in order |
| `GenerationSpec.PromptAsSection` | src/orchestrator/decision.rs:1063-1081 | Without sections the prompt stands in, shortened in the title only |
| `GenerationSpec.EmphasisWords` | src/orchestrator/decision.rs:633-642 | Which words stand for which emphasis |
| `GenerationSpec.BlockTypeWords` | src/orchestrator/decision.rs:659-668 | Which words stand for which type of block |
| `GenerationSpec.AssessmentTypeWords` | src/orchestrator/decision.rs:645-655 | Which words stand for which type of assessment |
| `GenerationSpec.ContentBoundedIff` | src/orchestrator/decision.rs:762-870 | All block contents of a spec stay within 1000 characters exactly when every given section has content or a purpose that short, or, with no section given, the prompt is that short |
| `GenerationSpec.NothingEmptyIff` | src/orchestrator/decision.rs:703-1081 | No text of a spec is empty exactly when what is trimmed holds more than whitespace and what is passed on is not empty: title, summaries, tone, audience, language, objectives, assets, titles of assessments with instructions, and of every given section title, purpose and each content that is not empty; with no section given, the prompt |
| `GenerationSpec.ShapeIsNotEnough` | src/orchestrator/decision.rs:1063-1081 | Specs with an empty section field, with a content that is too long, and with an assessment without a title |
| `PlanMode.SortedHead` | src/contracts/prompt_interpretation.rs:1382-1389 | The stable descending sort puts the first highest score first |
| `PlanMode.DetectContentType` | src/contracts/prompt_interpretation.rs:1357-1390 | Scoring, sorting and taking the head compute the detected type |
| `PlanMode.HitsCount` | src/contracts/prompt_interpretation.rs:1374-1381 | The score of a type is the number of its keywords that stand somewhere in the text |
| `PlanMode.SearchesAllTexts` | src/contracts/prompt_interpretation.rs:1358-1372 | A keyword of one word is found exactly when it stands in the prompt, the title or the summary |
| `PlanMode.DetectedIsFirstBest` | src/contracts/prompt_interpretation.rs:1357-1390 | The detected type is the first with the most keywords in the text, or the default when none occurs |
| `PlanMode.FindMissingRequiredFields` | src/contracts/prompt_interpretation.rs:1432-1461 | The absent required fields, in order |
| `PlanMode.AbsentInOrder` | src/contracts/prompt_interpretation.rs:1432-1461 | They come in the order in which they are required |
| `PlanMode.AskedWhenMissing` | src/contracts/prompt_interpretation.rs:1432-1461 | Each known field is asked for exactly when the type requires it and the payload does not say it |
| `PlanMode.PayloadWins` | src/contracts/prompt_interpretation.rs:1600-1650 | What the payload says wins over what was cached, field by field; the rest is carried over |
| `PlanMode.PayloadSays` | src/contracts/prompt_interpretation.rs:1600-1650 | The audience with its level, and the preferred type or else the first candidate |
| `PlanMode.Regenerate` | src/contracts/prompt_interpretation.rs:1305-1351 | The assignments compute the regenerated payload |
| `PlanMode.AsksExactlyWhatIsMissing` | src/contracts/prompt_interpretation.rs:1305-1351 | Active, clarification and a non-empty list of questions coincide; the asked ids are exactly the absent required fields in order |
| `PlanMode.CachedPlanModeIsIgnored` | src/contracts/prompt_interpretation.rs:1305-1351 | The cached plan mode, questions and clarification flag have no influence |
| `PlanMode.RegenerationIsIdempotent` | src/contracts/prompt_interpretation.rs:1305-1351 | Regenerating twice is regenerating once |

## Left out

- SHA-256 and BLAKE2: the models stop at the text that is hashed; two requests with one digest are not modelled.
- Numbers in JSON documents are integers; floats and their printing are not modelled.
- Scores are whole ten-thousandths and the comparator is over reals; rounding of 64-bit floats is not modelled.
- Advisory locks: one owner per lock and a release that reaches it are assumed; pooled connections, session semantics and
  a call that is dropped half way are not modelled.
- Integer widths: counters, attempts and backoff are unbounded; overflow and the shift limit of the backoff are not modelled.
- Unicode: whitespace and lowercasing are parameters with the properties that `Fingerprint.Sound` names.
- Audit payload: attempt numbers, job metadata, provider trace, contexts, messages and the copies of the error in the
  generation columns; a payload is either absent or has all its fields, possibly under another schema version; a driver
  that refuses to read a missing payload would turn `record_attempt_failure` into an error without effect.
- Generations that do not exist or are deleted, malformed ids, and leap seconds.
- Policies: the query that finds and orders the applicable ones; the models take their list.
- Ledger, prices and taxonomy around a provider call, and the contents of completions.
- `CleanupResult.deleted_count`, which is not a count of rows.
- Submission: hash collisions between teachers (a fingerprint belongs to one teacher), a row lock that is waited for, and
  other services that insert rows without a key.
- The parts of a regeneration prompt; a regeneration is an insert for its own fingerprint.
- Workflow: the worker's own circuit breaker, backoff sleeps, the entry of the dead-letter stream, and the claiming of
  idle entries, which has no effect on a job. The callback's other columns, and the reads that only prepare the context of
  a transition, which count as part of it.
- Decision: reasons and texts of the output, and the fields the haystack is joined from.
- Generation spec: the flag of an asset, the subject and audience contexts, and the slides, presentation title and theme
  of a draft, which are passed through; format preferences are texts.
- Plan mode: the wording of questions and reasons is a parameter; suggestions are left out.
- The repairs of interpretation and draft payloads, publication, storage, HTTP, configuration and tracing.
- HitsWereValidatedAndStored: the caller's clock, which sets the expiry, and the database clock, which checks it, are one
  clock in the lock protocol; with two clocks the age of a hit is bounded up to their difference.
- NoWindowExceedsItsBound: the clock that the calls read does not go back during a run, no policy comes to apply to a call
  between its check and its record, and respond calls, which are never denied, are not among the calls.
- UserRateLimit: Redis commands that work but whose answer is lost count as commands that did not reach it.
